/** `DataManager`: category and record CRUD over the store, and the filtered,
    ordered, paginated record query. The two SQL tables are maps from primary
    key to row; the statements and their transactions become map updates that
    happen entirely or not at all. */
module Repository {
  import opened Optional
  import opened Text
  import opened Sorting
  import opened Models

  /** A row of the `categories` table (`models/category.py`). */
  datatype Category = Category(id: string, name: string, kind: string, isCustom: bool)

  /** The two `order_by` clauses the model admits. */
  datatype Order = DateDesc | DateAsc

  /** The optional filters of `query_records`; each is applied only when it
      is truthy (present and non-empty). */
  datatype Filter = Filter(start: Option<string>, end: Option<string>, categoryId: Option<string>)

  const ValidationFailed := "validation failed"
  const MigrateToRequired := "migrate_to required for MOVE_TO_OTHER"
  /** SQLite's message for a primary-key conflict on the two tables. */
  const DuplicateCategoryId := "UNIQUE constraint failed: categories.id"
  const DuplicateRecordId := "UNIQUE constraint failed: records.id"
  const MoveToOther := "MOVE_TO_OTHER"

  function IsDescending(order: Order): bool
  {
    order == DateDesc
  }

  function DateOf(r: AccountRecord): string { r.date }
  function NameOf(c: Category): string { c.name }
  function RecordId(r: AccountRecord): string { r.id }
  function CategoryKey(c: Category): string { c.id }

  /** The WHERE clause: `date >= start`, `date <= end`, `category_id = ?`,
      each only when its argument is truthy. */
  predicate Matches(r: AccountRecord, f: Filter)
  {
    && (Truthy(f.start) ==> LexLe(f.start.value, r.date))
    && (Truthy(f.end) ==> LexLe(r.date, f.end.value))
    && (Truthy(f.categoryId) ==> r.categoryId == f.categoryId)
  }

  function Matcher(f: Filter): AccountRecord -> bool
  {
    r => Matches(r, f)
  }

  function AnyCategory(c: Category): bool { true }

  /** Every row is stored under its own primary key. */
  ghost predicate KeyedBy<T>(table: map<string, T>, id: T -> string)
  {
    forall k :: k in table ==> id(table[k]) == k
  }

  /** The rows of `table` that `keep` selects. */
  ghost function Selected<T>(table: map<string, T>, keep: T -> bool): set<T>
  {
    set k | k in table && keep(table[k]) :: table[k]
  }

  /** `s` lists every element of `rows` exactly once. */
  ghost predicate Enumerates<T>(s: seq<T>, rows: set<T>)
  {
    multiset(s) == multiset(rows)
  }

  /** What `LIMIT limit OFFSET offset` keeps of an ordered result. */
  function Page<T>(s: seq<T>, offset: nat, limit: nat): (r: seq<T>)
    ensures |r| == if offset >= |s| then 0 else if limit < |s| - offset then limit else |s| - offset
    ensures forall i :: 0 <= i < |r| ==> r[i] == s[offset + i]
  {
    var lo := if offset < |s| then offset else |s|;
    var hi := if limit < |s| - lo then lo + limit else |s|;
    s[lo..hi]
  }

  /** The rows a `SELECT ... WHERE ... ORDER BY date ... LIMIT ? OFFSET ?`
      may return: a page of SOME ordering of all matching rows. SQLite does not
      order rows with equal dates, so the ordering is not unique. */
  ghost predicate IsQueryResult(records: map<string, AccountRecord>, f: Filter,
                                limit: nat, offset: nat, order: Order, res: seq<AccountRecord>)
  {
    exists full :: IsOrderedSelection(records, f, order, full) && res == Page(full, offset, limit)
  }

  ghost predicate IsOrderedSelection(records: map<string, AccountRecord>, f: Filter, order: Order,
                                     full: seq<AccountRecord>)
  {
    Enumerates(full, Selected(records, Matcher(f))) && SortedBy(full, DateOf, IsDescending(order))
  }

  /** The rows stored under the keys `ks` that `keep` selects. */
  ghost function SelectedAmong<T>(table: map<string, T>, keep: T -> bool, ks: set<string>): set<T>
  {
    set k | k in ks && k in table && keep(table[k]) :: table[k]
  }

  lemma SelectedAmongStep<T>(table: map<string, T>, keep: T -> bool, id: T -> string, ks: set<string>, k: string)
    requires KeyedBy(table, id) && k in table && k !in ks
    ensures keep(table[k]) ==>
      multiset(SelectedAmong(table, keep, ks + {k})) == multiset(SelectedAmong(table, keep, ks)) + multiset{table[k]}
    ensures !keep(table[k]) ==> SelectedAmong(table, keep, ks + {k}) == SelectedAmong(table, keep, ks)
  {
    var before := SelectedAmong(table, keep, ks);
    if keep(table[k]) {
      forall k' | k' in ks && k' in table && keep(table[k'])
        ensures table[k'] != table[k]
      {
        assert id(table[k']) == k' != k == id(table[k]);
      }
      assert table[k] !in before;
      assert SelectedAmong(table, keep, ks + {k}) == before + {table[k]};
    }
  }

  lemma SelectedAmongAll<T>(table: map<string, T>, keep: T -> bool)
    ensures SelectedAmong(table, keep, table.Keys) == Selected(table, keep)
  {
  }

  /** The engine's side of a SELECT: visit the table's rows, keep those that
      the predicate selects, and order them by `key`. */
  method SelectOrdered<T>(table: map<string, T>, keep: T -> bool, id: T -> string,
                          key: T -> string, descending: bool) returns (rows: seq<T>)
    requires KeyedBy(table, id)
    ensures Enumerates(rows, Selected(table, keep))
    ensures SortedBy(rows, key, descending)
  {
    var rest := table.Keys;
    var acc: seq<T> := [];
    ghost var done: set<string> := {};
    while rest != {}
      invariant rest <= table.Keys && done == table.Keys - rest
      invariant multiset(acc) == multiset(SelectedAmong(table, keep, done))
      decreases rest
    {
      var k :| k in rest;
      SelectedAmongStep(table, keep, id, done, k);
      if keep(table[k]) {
        acc := acc + [table[k]];
      }
      rest := rest - {k};
      done := done + {k};
    }
    assert done == table.Keys;
    SelectedAmongAll(table, keep);
    rows := SortBy(acc, key, descending);
  }

  /** Both tables hold rows under their own ids, and every stored record
      validates (every write path validates first). */
  ghost predicate TablesValid(categories: map<string, Category>, records: map<string, AccountRecord>)
  {
    && KeyedBy(categories, CategoryKey)
    && KeyedBy(records, RecordId)
    && forall k :: k in records ==> Validate(records[k])
  }

  /** `UPDATE records SET category_id = to WHERE category_id = from`. */
  function Reassign(records: map<string, AccountRecord>, from: string, to: Option<string>): (r: map<string, AccountRecord>)
    ensures r.Keys == records.Keys
    ensures forall k :: k in records && records[k].categoryId == Some(from) ==>
      r[k] == records[k].(categoryId := to)
    ensures forall k :: k in records && records[k].categoryId != Some(from) ==> r[k] == records[k]
    ensures to != Some(from) ==> forall k :: k in r ==> r[k].categoryId != Some(from)
  {
    map k | k in records :: if records[k].categoryId == Some(from) then records[k].(categoryId := to) else records[k]
  }

  /** The row `save_record` inserts: `created_at` is defaulted to the
      current time when it is falsy. */
  function Stamped(rec: AccountRecord, now: string): AccountRecord
  {
    if Truthy(rec.createdAt) then rec else rec.(createdAt := Some(now))
  }

  /** The row after `update_record`: the five updatable columns come from
      `rec`; `id` and `created_at` are kept. */
  function Revised(stored: AccountRecord, rec: AccountRecord): AccountRecord
  {
    stored.(kind := rec.kind, amount := rec.amount, date := rec.date,
            categoryId := rec.categoryId, remark := rec.remark)
  }

  class DataManager {
    /** `categories` table: id -> row. */
    var categories: map<string, Category>
    /** `records` table: id -> row. */
    var records: map<string, AccountRecord>

    ghost predicate Valid()
      reads this
    {
      TablesValid(categories, records)
    }

    /** Opens a store whose schema is up to date and whose tables hold the
        given rows. */
    constructor (categories: map<string, Category>, records: map<string, AccountRecord>)
      requires TablesValid(categories, records)
      ensures Valid() && this.categories == categories && this.records == records
    {
      this.categories := categories;
      this.records := records;
    }

    /** `list_categories`: every category, ordered by name. */
    method ListCategories() returns (cats: seq<Category>)
      requires Valid()
      ensures multiset(cats) == multiset(categories.Values)
      ensures SortedBy(cats, NameOf, false)
    {
      cats := SelectOrdered(categories, AnyCategory, CategoryKey, NameOf, false);
      assert Selected(categories, AnyCategory) == categories.Values;
    }

    /** `get_category`: the row with that id, or None. */
    function GetCategory(id: string): (c: Option<Category>)
      requires Valid()
      reads this
      ensures c.None? <==> id !in categories
      ensures c.Some? ==> c.value.id == id && c.value in categories.Values
    {
      if id in categories then Some(categories[id]) else None
    }

    /** `add_category`: an id already in use is refused and changes nothing. */
    method AddCategory(cat: Category) returns (ok: bool, msg: string)
      requires Valid()
      modifies this
      ensures Valid() && records == old(records)
      ensures ok <==> cat.id !in old(categories)
      ensures ok ==> msg == "" && categories == old(categories)[cat.id := cat]
      ensures !ok ==> msg == DuplicateCategoryId && categories == old(categories)
    {
      if cat.id in categories {
        return false, DuplicateCategoryId;
      }
      categories := categories[cat.id := cat];
      return true, "";
    }

    /** `update_category`: replaces name, type and custom flag of the row with
        that id; no matching row is still a success. */
    method UpdateCategory(cat: Category) returns (ok: bool, msg: string)
      requires Valid()
      modifies this
      ensures Valid() && ok && msg == "" && records == old(records)
      ensures categories == if cat.id in old(categories) then old(categories)[cat.id := cat] else old(categories)
    {
      if cat.id in categories {
        categories := categories[cat.id := cat];
      }
      return true, "";
    }

    /** `delete_category`: repoints (MOVE_TO_OTHER) or clears (any other
        strategy) the references of the category's records, then removes the
        category, in one transaction. */
    method DeleteCategory(id: string, strategy: string := "SET_NULL", migrateTo: Option<string> := None)
      returns (ok: bool, msg: string)
      requires Valid()
      modifies this
      ensures Valid()
      ensures ok <==> (strategy != MoveToOther || Truthy(migrateTo))
      ensures !ok ==> msg == MigrateToRequired && categories == old(categories) && records == old(records)
      ensures ok ==> msg == "" && categories == old(categories) - {id}
      ensures ok ==> records == Reassign(old(records), id, if strategy == MoveToOther then migrateTo else None)
    {
      if strategy == MoveToOther {
        if !Truthy(migrateTo) {
          return false, MigrateToRequired;
        }
        ReassignKeepsTablesValid(categories - {id}, records, id, migrateTo);
        records := Reassign(records, id, migrateTo);
        categories := categories - {id};
      } else {
        ReassignKeepsTablesValid(categories - {id}, records, id, None);
        records := Reassign(records, id, None);
        categories := categories - {id};
      }
      return true, "";
    }

    /** `save_record`: an invalid record or a used id is refused and nothing
        is stored; otherwise the record is inserted with `created_at`
        defaulted to `now`. */
    method SaveRecord(rec: AccountRecord, now: string) returns (ok: bool, msg: string)
      requires Valid()
      modifies this
      ensures Valid() && categories == old(categories)
      ensures ok <==> Validate(rec) && rec.id !in old(records)
      ensures !Validate(rec) ==> msg == ValidationFailed
      ensures Validate(rec) && rec.id in old(records) ==> msg == DuplicateRecordId
      ensures !ok ==> records == old(records)
      ensures ok ==> msg == "" && records == old(records)[rec.id := Stamped(rec, now)]
    {
      if !Validate(rec) {
        return false, ValidationFailed;
      }
      if rec.id in records {
        return false, DuplicateRecordId;
      }
      records := records[rec.id := Stamped(rec, now)];
      return true, "";
    }

    /** `update_record`: validates, then rewrites the matching row's five
        data columns; no matching row is still a success. */
    method UpdateRecord(rec: AccountRecord) returns (ok: bool, msg: string)
      requires Valid()
      modifies this
      ensures Valid() && categories == old(categories)
      ensures ok <==> Validate(rec)
      ensures !ok ==> msg == ValidationFailed && records == old(records)
      ensures ok ==> msg == ""
      ensures ok && rec.id in old(records) ==> records == old(records)[rec.id := Revised(old(records)[rec.id], rec)]
      ensures rec.id !in old(records) ==> records == old(records)
    {
      if !Validate(rec) {
        return false, ValidationFailed;
      }
      if rec.id in records {
        records := records[rec.id := Revised(records[rec.id], rec)];
      }
      return true, "";
    }

    /** `delete_record`: removes the row with that id, if any. */
    method DeleteRecord(id: string) returns (ok: bool, msg: string)
      requires Valid()
      modifies this
      ensures Valid() && ok && msg == "" && categories == old(categories)
      ensures records == old(records) - {id}
    {
      records := records - {id};
      return true, "";
    }

    /** `query_records`: the matching records ordered by date, then
        `offset` skipped and at most `limit` kept. */
    method QueryRecords(start: Option<string> := None, end: Option<string> := None,
                        categoryId: Option<string> := None, limit: nat := 100, offset: nat := 0,
                        order: Order := DateDesc)
      returns (res: seq<AccountRecord>)
      requires Valid()
      ensures IsQueryResult(records, Filter(start, end, categoryId), limit, offset, order, res)
    {
      var f := Filter(start, end, categoryId);
      var full := SelectOrdered(records, Matcher(f), RecordId, DateOf, IsDescending(order));
      res := Page(full, offset, limit);
      assert IsOrderedSelection(records, f, order, full);
    }
  }

  lemma ReassignKeepsTablesValid(categories: map<string, Category>, records: map<string, AccountRecord>,
                                 from: string, to: Option<string>)
    requires TablesValid(categories, records)
    ensures TablesValid(categories, Reassign(records, from, to))
  {
  }

  /** A selected record is the row stored under its own id, and it matches
      the filter. */
  lemma SelectedIsStored(records: map<string, AccountRecord>, f: Filter, r: AccountRecord)
    requires KeyedBy(records, RecordId) && r in Selected(records, Matcher(f))
    ensures r.id in records && records[r.id] == r && Matches(r, f)
  {
    var k :| k in records && Matcher(f)(records[k]) && records[k] == r;
  }

  /** Every returned record is a stored row that satisfies every filter. */
  lemma {:induction false} QueryResultSound(records: map<string, AccountRecord>, f: Filter,
                                            limit: nat, offset: nat, order: Order, res: seq<AccountRecord>)
    requires KeyedBy(records, RecordId) && IsQueryResult(records, f, limit, offset, order, res)
    ensures forall i :: 0 <= i < |res| ==> res[i].id in records && records[res[i].id] == res[i] && Matches(res[i], f)
  {
    var full :| IsOrderedSelection(records, f, order, full) && res == Page(full, offset, limit);
    forall i | 0 <= i < |res|
      ensures res[i].id in records && records[res[i].id] == res[i] && Matches(res[i], f)
    {
      assert res[i] == full[offset + i];
      assert full[offset + i] in multiset(full);
      SelectedIsStored(records, f, res[i]);
    }
  }

  /** The result is ordered by date: non-increasing for `date DESC`,
      non-decreasing for `date ASC`. */
  lemma {:induction false} QueryResultOrdered(records: map<string, AccountRecord>, f: Filter,
                                              limit: nat, offset: nat, order: Order, res: seq<AccountRecord>)
    requires IsQueryResult(records, f, limit, offset, order, res)
    ensures order == DateDesc ==> forall i, j :: 0 <= i < j < |res| ==> LexLe(res[j].date, res[i].date)
    ensures order == DateAsc ==> forall i, j :: 0 <= i < j < |res| ==> LexLe(res[i].date, res[j].date)
  {
    var full :| IsOrderedSelection(records, f, order, full) && res == Page(full, offset, limit);
    forall i, j | 0 <= i < j < |res|
      ensures InOrder(res[i].date, res[j].date, IsDescending(order))
    {
      assert res[i] == full[offset + i] && res[j] == full[offset + j];
      assert InOrder(DateOf(full[offset + i]), DateOf(full[offset + j]), IsDescending(order));
    }
  }

  /** OFFSET skips that many matching rows, LIMIT bounds what is left. */
  lemma {:induction false} QueryResultSize(records: map<string, AccountRecord>, f: Filter,
                                           limit: nat, offset: nat, order: Order, res: seq<AccountRecord>)
    requires IsQueryResult(records, f, limit, offset, order, res)
    ensures var n := |Selected(records, Matcher(f))|;
      |res| == if offset >= n then 0 else if limit < n - offset then limit else n - offset
  {
    var full :| IsOrderedSelection(records, f, order, full) && res == Page(full, offset, limit);
    assert |full| == |multiset(full)| == |multiset(Selected(records, Matcher(f)))|;
  }

  /** With no offset and a limit at least the number of matches, every
      matching record is returned. */
  lemma {:induction false} QueryResultComplete(records: map<string, AccountRecord>, f: Filter,
                                               limit: nat, order: Order, res: seq<AccountRecord>)
    requires IsQueryResult(records, f, limit, 0, order, res)
    requires |Selected(records, Matcher(f))| <= limit
    ensures forall k :: k in records && Matches(records[k], f) ==> records[k] in res
  {
    var full :| IsOrderedSelection(records, f, order, full) && res == Page(full, 0, limit);
    assert |full| == |multiset(full)| == |multiset(Selected(records, Matcher(f)))|;
    assert res == full;
    forall k | k in records && Matches(records[k], f) ensures records[k] in res {
      assert Matcher(f)(records[k]);
      assert records[k] in Selected(records, Matcher(f));
      assert records[k] in multiset(full);
    }
  }

  /** No record is returned twice. */
  lemma {:induction false} QueryResultDistinct(records: map<string, AccountRecord>, f: Filter,
                                               limit: nat, offset: nat, order: Order, res: seq<AccountRecord>)
    requires KeyedBy(records, RecordId) && IsQueryResult(records, f, limit, offset, order, res)
    ensures forall i, j :: 0 <= i < j < |res| ==> res[i].id != res[j].id
  {
    var full :| IsOrderedSelection(records, f, order, full) && res == Page(full, offset, limit);
    OrderedSelectionOnce(records, f, order, full);
    QueryResultSound(records, f, limit, offset, order, res);
    forall i, j | 0 <= i < j < |res| ensures res[i].id != res[j].id {
      assert res[i] == full[offset + i] && res[j] == full[offset + j];
    }
  }

  /** A listing of a set of rows holds each row once. */
  lemma OrderedSelectionOnce(records: map<string, AccountRecord>, f: Filter, order: Order, full: seq<AccountRecord>)
    requires IsOrderedSelection(records, f, order, full)
    ensures forall i, j :: 0 <= i < j < |full| ==> full[i] != full[j]
  {
    forall i, j | 0 <= i < j < |full| ensures full[i] != full[j] {
      assert multiset(full)[full[j]] <= 1;
      SingleEntry(full, i, j);
    }
  }

  /** The bounds are inclusive: a query from `d` to `d` selects exactly the
      records dated `d`. */
  lemma SingleDateRange(r: AccountRecord, d: string)
    requires d != ""
    ensures Matches(r, Filter(Some(d), Some(d), None)) <==> r.date == d
  {
    if r.date == d {
      LexLeReflexive(d);
    }
    if Matches(r, Filter(Some(d), Some(d), None)) {
      LexLeAntisymmetric(r.date, d);
    }
  }

  /** A record that `save_record` accepts is found again by a query over its
      own date, with its creation time filled in; when no other stored record
      has that date it is the whole result. */
  lemma SavedRecordQueried(records: map<string, AccountRecord>, rec: AccountRecord, now: string,
                           limit: nat, order: Order, res: seq<AccountRecord>)
    requires KeyedBy(records, RecordId) && Validate(rec) && rec.id !in records
    requires var f := Filter(Some(rec.date), Some(rec.date), None);
      var saved := records[rec.id := Stamped(rec, now)];
      IsQueryResult(saved, f, limit, 0, order, res) && |Selected(saved, Matcher(f))| <= limit
    ensures Stamped(rec, now) in res
    ensures (forall k :: k in records ==> records[k].date != rec.date) ==> res == [Stamped(rec, now)]
  {
    var f := Filter(Some(rec.date), Some(rec.date), None);
    var saved := records[rec.id := Stamped(rec, now)];
    var s := Stamped(rec, now);
    assert KeyedBy(saved, RecordId);
    SingleDateRange(s, rec.date);
    QueryResultComplete(saved, f, limit, order, res);
    assert saved[rec.id] == s;
    if forall k :: k in records ==> records[k].date != rec.date {
      assert Selected(saved, Matcher(f)) == {s} by {
        forall x | x in Selected(saved, Matcher(f)) ensures x == s {
          var k :| k in saved && Matcher(f)(saved[k]) && saved[k] == x;
          SingleDateRange(saved[k], rec.date);
        }
        assert Matcher(f)(saved[rec.id]);
      }
      QueryResultSize(saved, f, limit, 0, order, res);
      assert res == [s];
    }
  }

  /** A falsy filter argument (None or "") filters nothing. */
  lemma FalsyFiltersIgnored(r: AccountRecord, start: Option<string>, end: Option<string>, categoryId: Option<string>)
    requires !Truthy(start) && !Truthy(end) && !Truthy(categoryId)
    ensures Matches(r, Filter(start, end, categoryId))
  {
  }
}
