/** `SQLiteDriver`: a wrapper that owns at most one open connection to the
    store. The engine itself is not modelled; what the model keeps is whether a
    connection is open, which statements were issued on it, and which of them
    are committed. */
module SqliteConnection {
  import opened Optional

  /** A statement handed to the engine by one of the three execute calls. */
  datatype Statement =
    | Single(sql: string, params: seq<string>)
    | Many(sql: string, paramSets: seq<seq<string>>)
    | Script(text: string)

  /** The cursor returned for an executed statement. */
  datatype Cursor = Cursor(statement: Statement)

  /** An execute call either yields a cursor or raises `RuntimeError`. */
  datatype Result<T> = Ok(value: T) | Err(message: string)

  const NotConnected := "DB not connected"

  class Driver {
    const dbPath: string
    /** `self.conn`: the number of the open connection, or None. */
    var conn: Option<nat>
    /** How many connections have been opened so far. */
    var openCount: nat
    /** Statements of the transaction in progress on the open connection. */
    var pending: seq<Statement>
    /** Statements whose effects are committed to the store. */
    var committed: seq<Statement>

    ghost predicate Valid()
      reads this
    {
      && (conn.None? ==> pending == [])
      && (conn.Some? ==> conn.value == openCount)
    }

    /** `__init__`: no connection is opened yet. */
    constructor (dbPath: string)
      ensures Valid()
      ensures this.dbPath == dbPath && conn == None && openCount == 0
      ensures pending == [] && committed == []
    {
      this.dbPath := dbPath;
      conn := None;
      openCount := 0;
      pending := [];
      committed := [];
    }

    /** `connect`: a no-op on an open driver; otherwise opens a fresh
        connection with no transaction in progress. */
    method Connect()
      requires Valid()
      modifies this
      ensures Valid() && conn.Some?
      ensures old(conn).Some? ==> conn == old(conn) && openCount == old(openCount) && pending == old(pending)
      ensures old(conn).None? ==> openCount == old(openCount) + 1 && conn == Some(openCount) && pending == []
      ensures committed == old(committed)
    {
      if conn.Some? {
        return;
      }
      openCount := openCount + 1;
      conn := Some(openCount);
    }

    /** `close`: closing drops the uncommitted transaction; a no-op when
        already closed. */
    method Close()
      requires Valid()
      modifies this
      ensures Valid() && conn == None && pending == []
      ensures openCount == old(openCount) && committed == old(committed)
    {
      if conn.Some? {
        conn := None;
        pending := [];
      }
    }

    /** `execute`: one statement with bound parameters. */
    method Execute(sql: string, params: seq<string>) returns (r: Result<Cursor>)
      requires Valid()
      modifies this`pending
      ensures Valid()
      ensures old(conn).None? ==> r == Err(NotConnected) && pending == old(pending)
      ensures old(conn).Some? ==>
        r == Ok(Cursor(Single(sql, params))) && pending == old(pending) + [Single(sql, params)]
    {
      if conn.None? {
        return Err(NotConnected);
      }
      pending := pending + [Single(sql, params)];
      r := Ok(Cursor(Single(sql, params)));
    }

    /** `executemany`: one statement, once per parameter tuple. */
    method ExecuteMany(sql: string, paramSets: seq<seq<string>>) returns (r: Result<Cursor>)
      requires Valid()
      modifies this`pending
      ensures Valid()
      ensures old(conn).None? ==> r == Err(NotConnected) && pending == old(pending)
      ensures old(conn).Some? ==>
        r == Ok(Cursor(Many(sql, paramSets))) && pending == old(pending) + [Many(sql, paramSets)]
    {
      if conn.None? {
        return Err(NotConnected);
      }
      pending := pending + [Many(sql, paramSets)];
      r := Ok(Cursor(Many(sql, paramSets)));
    }

    /** `executescript`: Python's sqlite3 commits the transaction in progress
        before it runs a script, and runs the script outside a transaction. */
    method ExecuteScript(text: string) returns (r: Result<Cursor>)
      requires Valid()
      modifies this`pending, this`committed
      ensures Valid()
      ensures old(conn).None? ==>
        r == Err(NotConnected) && pending == old(pending) && committed == old(committed)
      ensures old(conn).Some? ==>
        && r == Ok(Cursor(Script(text)))
        && committed == old(committed) + old(pending) + [Script(text)]
        && pending == []
    {
      if conn.None? {
        return Err(NotConnected);
      }
      committed := committed + pending + [Script(text)];
      pending := [];
      r := Ok(Cursor(Script(text)));
    }

    /** `commit`: makes the transaction in progress durable; nothing happens
        when no connection is open. */
    method Commit()
      requires Valid()
      modifies this`pending, this`committed
      ensures Valid() && pending == []
      ensures committed == old(committed) + old(pending)
    {
      if conn.Some? {
        committed := committed + pending;
        pending := [];
      }
    }

    /** `rollback`: discards the transaction in progress; nothing happens
        when no connection is open. */
    method Rollback()
      requires Valid()
      modifies this`pending
      ensures Valid() && pending == []
    {
      if conn.Some? {
        pending := [];
      }
    }
  }
}
