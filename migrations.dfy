/** The migration runner: lists the `.sql` scripts of a directory in file-name
    order, applies those the ledger (`meta_migrations`) has not recorded, one at
    a time, recording each right after it succeeds, and takes a backup of an
    existing store first. Directory listings, script outcomes and the clock are
    inputs. */
module Migrations {
  import opened Optional
  import opened Text
  import opened Sorting

  /** One entry of a directory listing. */
  datatype DirEntry = DirEntry(name: string, isFile: bool)

  datatype MigrationError =
    | MigrationsDirNotFound(dir: string)  // FileNotFoundError
    | ScriptFailed(name: string)          // the error raised by that script

  datatype Result<T> = Ok(value: T) | Err(error: MigrationError)

  /** Position of the last '.' of `s`, or -1 (`str.rfind('.')`). */
  function LastDot(s: string): (i: int)
    ensures -1 <= i < |s|
    ensures i >= 0 ==> s[i] == '.'
    ensures forall k :: i < k < |s| ==> s[k] != '.'
  {
    if s == [] then -1
    else if s[|s| - 1] == '.' then |s| - 1
    else LastDot(s[..|s| - 1])
  }

  /** pathlib's `PurePath.suffix` of a file name: from the last dot on,
      unless that dot is the first or the last character of the name. */
  function Suffix(name: string): string
  {
    var i := LastDot(name);
    if 0 < i < |name| - 1 then name[i..] else ""
  }

  /** `p.is_file() and p.suffix.lower() == ".sql"`. */
  predicate IsSqlFile(e: DirEntry)
  {
    e.isFile && LowerAscii(Suffix(e.name)) == ".sql"
  }

  /** A name has the `.sql` suffix exactly when it is at least five characters
      long and ends in ".sql" in any letter case; so ".sql" itself does not. */
  lemma SqlSuffixExactly(name: string)
    ensures LowerAscii(Suffix(name)) == ".sql" <==>
      |name| >= 5 && LowerAscii(name[|name| - 4..]) == ".sql"
  {
    var i := LastDot(name);
    if LowerAscii(Suffix(name)) == ".sql" {
      assert |Suffix(name)| == 4 && Suffix(name) == name[i..];
      assert i == |name| - 4;
    }
    if |name| >= 5 && LowerAscii(name[|name| - 4..]) == ".sql" {
      var t := name[|name| - 4..];
      assert AsciiLower(t[0]) == '.' && AsciiLower(t[1]) == 's';
      assert AsciiLower(t[2]) == 'q' && AsciiLower(t[3]) == 'l';
      assert name[|name| - 4] == '.';
      assert name[|name| - 3] != '.' && name[|name| - 2] != '.' && name[|name| - 1] != '.';
      assert i == |name| - 4;
    }
  }

  function SqlEntries(entries: seq<DirEntry>): (r: seq<DirEntry>)
    ensures forall e :: e in r <==> e in entries && IsSqlFile(e)
    ensures |r| <= |entries|
  {
    if entries == [] then []
    else (if IsSqlFile(entries[0]) then [entries[0]] else []) + SqlEntries(entries[1..])
  }

  function EntryName(e: DirEntry): string { e.name }
  function Itself(s: string): string { s }

  /** `_list_sql_files`: no directory gives []; otherwise its `.sql` files,
      sorted by file name. */
  function ListSqlFiles(dir: Option<seq<DirEntry>>): (files: seq<DirEntry>)
    ensures dir.None? ==> files == []
    ensures forall e :: e in files <==> dir.Some? && e in dir.value && IsSqlFile(e)
    ensures dir.Some? ==> multiset(files) == multiset(SqlEntries(dir.value))
    ensures SortedBy(files, EntryName, false)
  {
    if dir.None? then []
    else
      var files := SortBy(SqlEntries(dir.value), EntryName, false);
      assert forall e :: e in files <==> e in multiset(SqlEntries(dir.value));
      files
  }

  function Names(files: seq<DirEntry>): (names: seq<string>)
    ensures |names| == |files|
    ensures forall i :: 0 <= i < |files| ==> names[i] == files[i].name
  {
    if files == [] then [] else [files[0].name] + Names(files[1..])
  }

  /** The listed names the ledger has not recorded, in listing order. */
  function Pending(names: seq<string>, applied: set<string>): (p: seq<string>)
    ensures forall n :: n in p <==> n in names && n !in applied
    ensures |p| <= |names|
  {
    if names == [] then []
    else (if names[0] !in applied then [names[0]] else []) + Pending(names[1..], applied)
  }

  /** Pending keeps the listing's order: sorted names give sorted pending names. */
  lemma {:induction false} PendingSorted(names: seq<string>, applied: set<string>)
    requires SortedBy(names, Itself, false)
    ensures SortedBy(Pending(names, applied), Itself, false)
    decreases |names|
  {
    if names != [] {
      var rest := names[1..];
      assert SortedBy(rest, Itself, false) by {
        forall i, j | 0 <= i < j < |rest| ensures InOrder(rest[i], rest[j], false) {
          assert rest[i] == names[i + 1] && rest[j] == names[j + 1];
        }
      }
      PendingSorted(rest, applied);
      var p := Pending(names, applied);
      var q := Pending(rest, applied);
      if names[0] !in applied {
        assert p == [names[0]] + q;
        forall i, j | 0 <= i < j < |p| ensures InOrder(p[i], p[j], false) {
          if i == 0 {
            assert p[j] == q[j - 1] && q[j - 1] in rest;
            var m :| 0 <= m < |rest| && rest[m] == p[j];
            assert names[m + 1] == p[j];
          } else {
            assert p[i] == q[i - 1] && p[j] == q[j - 1];
          }
        }
      } else {
        assert p == q;
      }
    }
  }

  /** The file names of a sorted listing are sorted. */
  lemma SortedNames(files: seq<DirEntry>)
    requires SortedBy(files, EntryName, false)
    ensures SortedBy(Names(files), Itself, false)
  {
    var names := Names(files);
    forall i, j | 0 <= i < j < |names| ensures InOrder(Itself(names[i]), Itself(names[j]), false) {
      assert InOrder(EntryName(files[i]), EntryName(files[j]), false);
    }
  }

  /** Nothing is pending once every listed name is recorded. */
  lemma {:induction false} NothingPending(names: seq<string>, done: set<string>)
    requires forall n :: n in names ==> n in done
    ensures Pending(names, done) == []
    decreases |names|
  {
    if names != [] {
      assert names[0] in names;
      NothingPending(names[1..], done);
    }
  }

  /** Re-running with the pending names recorded finds nothing pending. */
  lemma RerunFindsNothing(names: seq<string>, applied: set<string>)
    ensures Pending(names, applied + set n | n in Pending(names, applied)) == []
  {
    NothingPending(names, applied + set n | n in Pending(names, applied));
  }

  /** The index of the first pending script that fails, or |pending|. */
  function FirstFailure(pending: seq<string>, failing: set<string>): (i: nat)
    ensures i <= |pending|
    ensures forall j :: 0 <= j < i ==> pending[j] !in failing
    ensures i < |pending| ==> pending[i] in failing
  {
    if pending == [] then 0
    else if pending[0] in failing then 0
    else 1 + FirstFailure(pending[1..], failing)
  }

  /** `<stem>_pre_migration_<YYYYmmddHHMMSS>.db`, written to the `backups`
      directory beside the store. */
  function BackupName(stem: string, timestamp: string): string
  {
    stem + "_pre_migration_" + timestamp + ".db"
  }

  /** The store file as the migration runner sees it. */
  class Store {
    const stem: string
    /** Whether the store file exists. */
    var fileExists: bool
    /** `meta_migrations.version`, in the order of insertion. */
    var ledger: seq<string>
    /** Names of the backup copies taken, oldest first. */
    var backups: seq<string>

    /** `version` is the primary key of the ledger. */
    ghost predicate Valid()
      reads this
    {
      Distinct(ledger)
    }

    constructor (stem: string, fileExists: bool, ledger: seq<string>)
      requires Distinct(ledger)
      ensures Valid()
      ensures this.stem == stem && this.fileExists == fileExists && this.ledger == ledger && backups == []
    {
      this.stem := stem;
      this.fileExists := fileExists;
      this.ledger := ledger;
      backups := [];
    }

    function Applied(): set<string>
      reads this
    {
      set n | n in ledger
    }
  }

  /** The names `apply_migrations` finds pending in a directory listing. */
  function PendingIn(listing: seq<DirEntry>, applied: set<string>): (p: seq<string>)
    ensures forall n :: n in p <==> n !in applied && exists e :: e in listing && IsSqlFile(e) && e.name == n
  {
    var files := ListSqlFiles(Some(listing));
    var p := Pending(Names(files), applied);
    assert forall n :: n in Names(files) <==> exists e :: e in files && e.name == n by {
      forall n | n in Names(files) ensures exists e :: e in files && e.name == n {
        var i :| 0 <= i < |files| && Names(files)[i] == n;
        assert files[i] in files;
      }
      forall n | exists e :: e in files && e.name == n ensures n in Names(files) {
        var e :| e in files && e.name == n;
        var i :| 0 <= i < |files| && files[i] == e;
        assert Names(files)[i] == n;
      }
    }
    p
  }

  /** What the run reports: the first failing script's error, or every
      pending name. */
  function Outcome(pending: seq<string>, failing: set<string>): Result<seq<string>>
  {
    var stop := FirstFailure(pending, failing);
    if stop < |pending| then Err(ScriptFailed(pending[stop])) else Ok(pending)
  }

  lemma DistinctAppend(s: seq<string>, x: string)
    requires Distinct(s) && x !in s
    ensures Distinct(s + [x])
  {
    var t := s + [x];
    forall i, j | 0 <= i < j < |t| ensures t[i] != t[j] {
      if j == |s| { assert t[i] == s[i]; } else { assert t[i] == s[i] && t[j] == s[j]; }
    }
  }

  /** The loop of `apply_migrations`: each script runs, then its name is
      recorded and committed; the first script that raises ends the run with
      the earlier ones recorded. */
  method RunPending(db: Store, pending: seq<string>, failing: set<string>) returns (r: Result<seq<string>>)
    requires db.Valid() && Distinct(pending)
    requires forall n :: n in pending ==> n !in db.ledger
    modifies db`ledger
    ensures db.Valid()
    ensures db.ledger == old(db.ledger) + pending[..FirstFailure(pending, failing)]
    ensures r == Outcome(pending, failing)
    ensures r.Ok? ==> db.Applied() == old(db.Applied()) + set n | n in pending
  {
    ghost var ledger0 := db.ledger;
    var appliedNames: seq<string> := [];
    var i := 0;
    while i < |pending|
      invariant 0 <= i <= |pending|
      invariant forall j :: 0 <= j < i ==> pending[j] !in failing
      invariant appliedNames == pending[..i]
      invariant db.ledger == ledger0 + pending[..i]
      invariant db.Valid()
    {
      var name := pending[i];
      if name in failing {
        return Err(ScriptFailed(name));
      }
      assert name in pending && name !in ledger0;
      assert name !in pending[..i];
      DistinctAppend(db.ledger, name);
      db.ledger := db.ledger + [name];
      appliedNames := appliedNames + [name];
      assert pending[..i + 1] == pending[..i] + [name];
      i := i + 1;
    }
    assert pending[..i] == pending;
    assert db.Applied() == old(db.Applied()) + set n | n in pending;
    return Ok(appliedNames);
  }

  /** `apply_migrations`. `dir` is the listing of the requested directory
      (None: it does not exist) and `fallback` the listing of the first
      fallback directory that exists; `failing` names the scripts whose
      execution raises; `timestamp` is the backup time stamp. */
  method ApplyMigrations(db: Store, dirName: string, dir: Option<seq<DirEntry>>,
                         fallback: Option<seq<DirEntry>>, failing: set<string>, timestamp: string)
    returns (r: Result<seq<string>>)
    requires db.Valid()
    requires dir.Some? ==> UniqueNames(dir.value)
    requires fallback.Some? ==> UniqueNames(fallback.value)
    modifies db
    ensures db.Valid()
    ensures dir.None? && fallback.None? ==>
      && r == Err(MigrationsDirNotFound(dirName))
      && db.fileExists == old(db.fileExists) && db.ledger == old(db.ledger) && db.backups == old(db.backups)
    ensures dir.Some? || fallback.Some? ==>
      var pending := PendingIn(if dir.Some? then dir.value else fallback.value, old(db.Applied()));
      && db.fileExists
      && db.backups == old(db.backups) +
           (if old(db.fileExists) && pending != [] then [BackupName(db.stem, timestamp)] else [])
      && db.ledger == old(db.ledger) + pending[..FirstFailure(pending, failing)]
      && r == Outcome(pending, failing)
      && (r.Ok? ==> PendingIn(if dir.Some? then dir.value else fallback.value, db.Applied()) == [])
  {
    var listing: seq<DirEntry>;
    if dir.Some? {
      listing := dir.value;
    } else if fallback.Some? {
      listing := fallback.value;
    } else {
      return Err(MigrationsDirNotFound(dirName));
    }
    var shouldBackup := db.fileExists;
    db.fileExists := true;
    var pending := PendingIn(listing, db.Applied());
    if pending == [] {
      assert db.Applied() == old(db.Applied());
      return Ok([]);
    }
    if shouldBackup {
      db.backups := db.backups + [BackupName(db.stem, timestamp)];
    }
    ListedNamesDistinct(listing);
    PendingDistinct(Names(ListSqlFiles(Some(listing))), db.Applied());
    ghost var applied0 := db.Applied();
    r := RunPending(db, pending, failing);
    if r.Ok? {
      RerunAfterSuccess(listing, applied0);
    }
  }

  /** A successful run leaves nothing pending: running again applies nothing
      and takes no backup. */
  lemma RerunAfterSuccess(listing: seq<DirEntry>, applied: set<string>)
    ensures PendingIn(listing, applied + set n | n in PendingIn(listing, applied)) == []
  {
    RerunFindsNothing(Names(ListSqlFiles(Some(listing))), applied);
  }

  /** No name occurs twice. */
  predicate Distinct(s: seq<string>)
  {
    forall i, j :: 0 <= i < j < |s| ==> s[i] != s[j]
  }

  /** A directory lists each name once. */
  predicate UniqueNames(entries: seq<DirEntry>)
  {
    forall i, j :: 0 <= i < j < |entries| ==> entries[i].name != entries[j].name
  }

  lemma {:induction false} SqlEntriesUnique(entries: seq<DirEntry>)
    requires UniqueNames(entries)
    ensures UniqueNames(SqlEntries(entries))
    decreases |entries|
  {
    if entries != [] {
      var rest := entries[1..];
      UniqueTail(entries);
      SqlEntriesUnique(rest);
      if IsSqlFile(entries[0]) {
        HeadNameFresh(entries);
        ConsUnique(entries[0], SqlEntries(rest));
        assert SqlEntries(entries) == [entries[0]] + SqlEntries(rest);
      }
    }
  }

  lemma UniqueTail(entries: seq<DirEntry>)
    requires UniqueNames(entries) && entries != []
    ensures UniqueNames(entries[1..])
  {
    var rest := entries[1..];
    forall i, j | 0 <= i < j < |rest| ensures rest[i].name != rest[j].name {
      assert rest[i] == entries[i + 1] && rest[j] == entries[j + 1];
    }
  }

  lemma HeadNameFresh(entries: seq<DirEntry>)
    requires UniqueNames(entries) && entries != []
    ensures forall e :: e in entries[1..] ==> e.name != entries[0].name
  {
    forall e | e in entries[1..] ensures e.name != entries[0].name {
      var m :| 0 <= m < |entries[1..]| && entries[1..][m] == e;
      assert entries[m + 1] == e;
    }
  }

  lemma ConsUnique(e: DirEntry, q: seq<DirEntry>)
    requires UniqueNames(q) && forall x :: x in q ==> x.name != e.name
    ensures UniqueNames([e] + q)
  {
    var r := [e] + q;
    forall i, j | 0 <= i < j < |r| ensures r[i].name != r[j].name {
      assert r[j] == q[j - 1];
      if i > 0 {
        assert r[i] == q[i - 1];
      }
    }
  }

  /** Reordering keeps names unique. */
  lemma UniqueNamesPermuted(a: seq<DirEntry>, b: seq<DirEntry>)
    requires UniqueNames(a) && multiset(a) == multiset(b)
    ensures UniqueNames(b)
  {
    forall i, j | 0 <= i < j < |b| ensures b[i].name != b[j].name {
      DistinctCountedOnce(a, b[j]);
      SingleEntry(b, i, j);
      assert b[i] in multiset(a) && b[j] in multiset(a);
      var p :| 0 <= p < |a| && a[p] == b[i];
      var q :| 0 <= q < |a| && a[q] == b[j];
      assert p != q;
    }
  }

  /** The names of the `.sql` files of a directory are distinct. */
  lemma ListedNamesDistinct(listing: seq<DirEntry>)
    requires UniqueNames(listing)
    ensures Distinct(Names(ListSqlFiles(Some(listing))))
  {
    SqlEntriesUnique(listing);
    UniqueNamesPermuted(SqlEntries(listing), ListSqlFiles(Some(listing)));
  }

  /** Pending names are distinct when the listed names are. */
  lemma {:induction false} PendingDistinct(names: seq<string>, applied: set<string>)
    requires Distinct(names)
    ensures Distinct(Pending(names, applied))
    decreases |names|
  {
    if names != [] {
      var rest := names[1..];
      assert Distinct(rest) by {
        forall i, j | 0 <= i < j < |rest| ensures rest[i] != rest[j] {
          assert rest[i] == names[i + 1] && rest[j] == names[j + 1];
        }
      }
      PendingDistinct(rest, applied);
      var q := Pending(rest, applied);
      if names[0] !in applied {
        var p := Pending(names, applied);
        assert p == [names[0]] + q;
        forall i, j | 0 <= i < j < |p| ensures p[i] != p[j] {
          if i == 0 {
            assert p[j] == q[j - 1] && q[j - 1] in rest;
            var m :| 0 <= m < |rest| && rest[m] == p[j];
            assert names[m + 1] == p[j];
          } else {
            assert p[i] == q[i - 1] && p[j] == q[j - 1];
          }
        }
      }
    }
  }
}
