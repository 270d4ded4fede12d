/** `StatisticsService`: totals of the amounts read by the default query,
    grouped by type, by category and by date bucket. */
module Statistics {
  import opened Optional
  import opened Text
  import opened Models
  import opened Repository

  /** A dictionary entry, or 0 where the key is absent (`setdefault`,
      `defaultdict(float)`). */
  function Get<K>(m: map<K, real>, k: K): real
  {
    if k in m then m[k] else 0.0
  }

  /** The sum of the amounts of the rows whose key is `k`. */
  function SumFor<K(==)>(rows: seq<AccountRecord>, key: AccountRecord -> K, k: K): real
  {
    if rows == [] then 0.0
    else (if key(rows[0]) == k then AmountOf(rows[0]) else 0.0) + SumFor(rows[1..], key, k)
  }

  /** The sum of the amounts of all rows. */
  function Total(rows: seq<AccountRecord>): real
  {
    if rows == [] then 0.0 else AmountOf(rows[0]) + Total(rows[1..])
  }

  /** What the aggregation loops build: starting from `init`, each row's
      amount is added to the entry of its key, in row order. */
  function Accumulate<K(==)>(init: map<K, real>, rows: seq<AccountRecord>, key: AccountRecord -> K): map<K, real>
    decreases |rows|
  {
    if rows == [] then init
    else
      var m := Accumulate(init, rows[..|rows| - 1], key);
      var r := rows[|rows| - 1];
      m[key(r) := Get(m, key(r)) + AmountOf(r)]
  }

  /** One more loop iteration: the next row's amount joins its key's entry. */
  lemma AccumulateStep<K>(init: map<K, real>, rows: seq<AccountRecord>, i: nat, key: AccountRecord -> K)
    requires i < |rows|
    ensures Accumulate(init, rows[..i + 1], key) ==
      Accumulate(init, rows[..i], key)[key(rows[i]) := Get(Accumulate(init, rows[..i], key), key(rows[i])) + AmountOf(rows[i])]
  {
    assert rows[..i + 1][..i] == rows[..i];
  }

  /** The sum of the values of a dictionary. */
  ghost function SumValues<K>(m: map<K, real>): real
    decreases |m|
  {
    if m == map[] then 0.0
    else
      var k :| k in m;
      assert |m - {k}| < |m| by {
        assert (m - {k}).Keys + {k} == m.Keys;
      }
      m[k] + SumValues(m - {k})
  }

  lemma {:induction false} SumForSnoc<K>(rows: seq<AccountRecord>, x: AccountRecord, key: AccountRecord -> K, k: K)
    ensures SumFor(rows + [x], key, k) == SumFor(rows, key, k) + (if key(x) == k then AmountOf(x) else 0.0)
    decreases |rows|
  {
    if rows == [] {
      assert [] + [x] == [x];
      assert SumFor([x], key, k) == (if key(x) == k then AmountOf(x) else 0.0) + SumFor([x][1..], key, k);
    } else {
      assert (rows + [x])[0] == rows[0] && (rows + [x])[1..] == rows[1..] + [x];
      SumForSnoc(rows[1..], x, key, k);
    }
  }

  lemma {:induction false} TotalSnoc(rows: seq<AccountRecord>, x: AccountRecord)
    ensures Total(rows + [x]) == Total(rows) + AmountOf(x)
    decreases |rows|
  {
    if rows == [] {
      assert [] + [x] == [x];
      assert Total([x]) == AmountOf(x) + Total([x][1..]);
    } else {
      assert (rows + [x])[0] == rows[0] && (rows + [x])[1..] == rows[1..] + [x];
      TotalSnoc(rows[1..], x);
    }
  }

  /** A key has an entry exactly when it had one at the start or some row
      carries it. */
  lemma {:induction false} AccumulateKeys<K>(init: map<K, real>, rows: seq<AccountRecord>, key: AccountRecord -> K, k: K)
    ensures k in Accumulate(init, rows, key) <==> k in init || exists i :: 0 <= i < |rows| && key(rows[i]) == k
    decreases |rows|
  {
    if rows != [] {
      var front := rows[..|rows| - 1];
      AccumulateKeys(init, front, key, k);
      if exists i :: 0 <= i < |front| && key(front[i]) == k {
        var i :| 0 <= i < |front| && key(front[i]) == k;
        assert rows[i] == front[i];
      }
      if exists i :: 0 <= i < |rows| && key(rows[i]) == k {
        var i :| 0 <= i < |rows| && key(rows[i]) == k;
        if i < |front| {
          assert front[i] == rows[i];
        }
      }
    }
  }

  /** Every entry is its starting value plus the amounts of the rows with
      that key. */
  lemma {:induction false} AccumulateValues<K>(init: map<K, real>, rows: seq<AccountRecord>, key: AccountRecord -> K, k: K)
    ensures Get(Accumulate(init, rows, key), k) == Get(init, k) + SumFor(rows, key, k)
    decreases |rows|
  {
    if rows != [] {
      var front, last := rows[..|rows| - 1], rows[|rows| - 1];
      assert rows == front + [last];
      AccumulateValues(init, front, key, k);
      SumForSnoc(front, last, key, k);
    }
  }

  /** Removing one entry takes its value off the sum, whichever entry the
      sum happens to pick first. */
  lemma {:induction false} SumValuesRemove<K>(m: map<K, real>, k: K)
    requires k in m
    ensures SumValues(m) == m[k] + SumValues(m - {k})
    decreases |m|
  {
    var j :| j in m && SumValues(m) == m[j] + SumValues(m - {j});
    if j != k {
      RemoveTwo(m, j, k);
      SumValuesRemove(m - {j}, k);
      SumValuesRemove(m - {k}, j);
    }
  }

  lemma RemoveTwo<K>(m: map<K, real>, j: K, k: K)
    requires j in m && k in m && j != k
    ensures |m - {j}| < |m| && |m - {k}| < |m|
    ensures k in m - {j} && j in m - {k}
    ensures (m - {j}) - {k} == (m - {k}) - {j}
  {
    assert (m - {j}).Keys + {j} == m.Keys;
    assert (m - {k}).Keys + {k} == m.Keys;
  }

  /** Adding to one entry adds as much to the sum. */
  lemma SumValuesAdd<K>(m: map<K, real>, k: K, a: real)
    ensures SumValues(m[k := Get(m, k) + a]) == SumValues(m) + a
  {
    var m' := m[k := Get(m, k) + a];
    SumValuesRemove(m', k);
    if k in m {
      SumValuesRemove(m, k);
      assert m' - {k} == m - {k};
    } else {
      assert m' - {k} == m;
    }
  }

  /** The values of the accumulated dictionary sum to the starting values
      plus the amounts of all rows. */
  lemma {:induction false} AccumulateSum<K>(init: map<K, real>, rows: seq<AccountRecord>, key: AccountRecord -> K)
    ensures SumValues(Accumulate(init, rows, key)) == SumValues(init) + Total(rows)
    decreases |rows|
  {
    if rows != [] {
      var front, last := rows[..|rows| - 1], rows[|rows| - 1];
      assert rows == front + [last];
      AccumulateSum(init, front, key);
      var m := Accumulate(init, front, key);
      SumValuesAdd(m, key(last), AmountOf(last));
      TotalSnoc(front, last);
    }
  }

  /** The rows every service method reads: `query_records()` with its
      defaults, that is at most 100 rows, newest first. */
  ghost predicate DefaultQuery(records: map<string, AccountRecord>, rows: seq<AccountRecord>)
  {
    IsQueryResult(records, Filter(None, None, None), 100, 0, DateDesc, rows)
  }

  const TypeBase: map<string, real> := map[Income := 0.0, Expenditure := 0.0]

  function Kind(r: AccountRecord): string { r.kind }
  function CategoryOf(r: AccountRecord): Option<string> { r.categoryId }

  /** `total_by_type` over the rows read. */
  function TypeTotals(rows: seq<AccountRecord>): map<string, real>
  {
    Accumulate(TypeBase, rows, Kind)
  }

  /** `by_category` over the rows read. */
  function CategoryTotals(rows: seq<AccountRecord>): map<Option<string>, real>
  {
    Accumulate(map[], rows, CategoryOf)
  }

  predicate IsDigit(c: char) { '0' <= c <= '9' }

  function DigitValue(c: char): int { c as int - '0' as int }

  /** The number written by the two digits at `i` and `i + 1`. */
  function TwoDigits(d: string, i: nat): int
    requires i + 1 < |d|
  {
    10 * DigitValue(d[i]) + DigitValue(d[i + 1])
  }

  predicate IsLeapYear(y: int)
  {
    y % 4 == 0 && (y % 100 != 0 || y % 400 == 0)
  }

  function DaysInMonth(y: int, m: int): int
  {
    if m == 2 then (if IsLeapYear(y) then 29 else 28)
    else if m == 4 || m == 6 || m == 9 || m == 11 then 30
    else 31
  }

  /** `YYYY-MM-DD` at the head of `d`: a calendar date of a four-digit year
      from 1000 on. */
  predicate IsoDay(d: string)
  {
    && |d| >= 10 && d[4] == '-' && d[7] == '-'
    && (forall i :: 0 <= i < 10 && i != 4 && i != 7 ==> IsDigit(d[i]))
    && var y := 100 * TwoDigits(d, 0) + TwoDigits(d, 2);
       var m := TwoDigits(d, 5);
       y >= 1000 && 1 <= m <= 12 && 1 <= TwoDigits(d, 8) <= DaysInMonth(y, m)
  }

  /** `HH:MM` or `HH:MM:SS` with the hour, minute and second in range. */
  predicate IsoTime(t: string)
  {
    && (|t| == 5 || |t| == 8) && t[2] == ':'
    && IsDigit(t[0]) && IsDigit(t[1]) && IsDigit(t[3]) && IsDigit(t[4])
    && TwoDigits(t, 0) <= 23 && TwoDigits(t, 3) <= 59
    && (|t| == 8 ==> t[5] == ':' && IsDigit(t[6]) && IsDigit(t[7]) && TwoDigits(t, 6) <= 59)
  }

  /** The stored dates `fromisoformat` reads and `strftime` writes back with
      the same leading characters: a date, optionally followed by one
      separator character and a time. */
  predicate IsoDate(d: string)
  {
    IsoDay(d) && (|d| == 10 || IsoTime(d[11..]))
  }

  /** February 29 of a four-digit year from 1000 on is a calendar date
      exactly in a leap year. */
  lemma LeapDay(d: string)
    requires |d| == 10 && d[4] == '-' && d[5..] == "02-29"
    requires forall i :: 0 <= i < 4 ==> IsDigit(d[i])
    requires 100 * TwoDigits(d, 0) + TwoDigits(d, 2) >= 1000
    ensures IsoDate(d) <==> IsLeapYear(100 * TwoDigits(d, 0) + TwoDigits(d, 2))
  {
    assert d[5..][0] == '0' && d[5..][1] == '2' && d[5..][2] == '-' && d[5..][3] == '2' && d[5..][4] == '9';
  }

  /** The bucket of a date: `%Y-%m-%d` for "day", `%Y-%m` for "month",
      `%Y` for any other period. The day key is itself a calendar date, the
      month key is `YYYY-MM` with a month from 01 to 12, and the year key
      is four digits. */
  function Bucket(date: string, period: string): (b: string)
    requires IsoDate(date)
    ensures |b| == (if period == "day" then 10 else if period == "month" then 7 else 4)
    ensures b == date[..|b|]
    ensures period == "day" ==> IsoDate(b)
    ensures period == "month" ==> b[4] == '-' && IsDigit(b[5]) && IsDigit(b[6]) && 1 <= TwoDigits(b, 5) <= 12
    ensures forall i :: 0 <= i < 4 ==> IsDigit(b[i])
  {
    if period == "day" then date[..10] else if period == "month" then date[..7] else date[..4]
  }

  /** The keys nest: a month key is the head of the day key, and a year key
      the head of the month key. */
  lemma BucketsNest(date: string, period: string)
    requires IsoDate(date) && period != "day" && period != "month"
    ensures Bucket(date, "month") == Bucket(date, "day")[..7]
    ensures Bucket(date, period) == Bucket(date, "month")[..4]
  {
  }

  function BucketOf(period: string): AccountRecord -> string
  {
    (r: AccountRecord) => if IsoDate(r.date) then Bucket(r.date, period) else r.date
  }

  /** `timeseries` over the rows read. */
  function BucketTotals(rows: seq<AccountRecord>, period: string): map<string, real>
  {
    Accumulate(map[], rows, BucketOf(period))
  }

  /** The aggregation loop every service method runs: each row's amount is
      added, in row order, to the entry of its key, which starts at 0 when
      absent (`setdefault` / `defaultdict(float)`). */
  method SumByKey<K>(init: map<K, real>, rows: seq<AccountRecord>, key: AccountRecord -> K)
    returns (agg: map<K, real>)
    ensures agg == Accumulate(init, rows, key)
  {
    agg := init;
    var i := 0;
    while i < |rows|
      invariant 0 <= i <= |rows|
      invariant agg == Accumulate(init, rows[..i], key)
    {
      var r := rows[i];
      var k := key(r);
      AccumulateStep(init, rows, i, key);
      agg := agg[k := Get(agg, k) + AmountOf(r)];
      i := i + 1;
    }
    assert rows[..i] == rows;
  }

  class StatisticsService {
    const dm: DataManager

    constructor (dm: DataManager)
      ensures this.dm == dm
    {
      this.dm := dm;
    }

    /** `total_by_type`. */
    method TotalByType() returns (totals: map<string, real>)
      requires dm.Valid()
      ensures exists rows :: DefaultQuery(dm.records, rows) && totals == TypeTotals(rows)
    {
      var rows := dm.QueryRecords();
      totals := SumByKey(TypeBase, rows, Kind);
      assert DefaultQuery(dm.records, rows);
    }

    /** `by_category`; records without a category share the key None. */
    method ByCategory() returns (agg: map<Option<string>, real>)
      requires dm.Valid()
      ensures exists rows :: DefaultQuery(dm.records, rows) && agg == CategoryTotals(rows)
    {
      var rows := dm.QueryRecords();
      agg := SumByKey(map[], rows, CategoryOf);
      assert DefaultQuery(dm.records, rows);
    }

    /** `timeseries`, for stores whose dates all begin `YYYY-MM-DD`. */
    method Timeseries(period: string := "day") returns (agg: map<string, real>)
      requires dm.Valid()
      requires forall id :: id in dm.records ==> IsoDate(dm.records[id].date)
      ensures exists rows :: DefaultQuery(dm.records, rows) && agg == BucketTotals(rows, period)
    {
      var rows := dm.QueryRecords();
      agg := SumByKey(map[], rows, BucketOf(period));
      assert DefaultQuery(dm.records, rows);
    }
  }

  /** Rows read from a store whose dates all begin `YYYY-MM-DD` do too. */
  lemma StoredDatesRead(records: map<string, AccountRecord>, rows: seq<AccountRecord>)
    requires KeyedBy(records, RecordId) && DefaultQuery(records, rows)
    requires forall id :: id in records ==> IsoDate(records[id].date)
    ensures forall i :: 0 <= i < |rows| ==> IsoDate(rows[i].date)
  {
    QueryResultSound(records, Filter(None, None, None), 100, 0, DateDesc, rows);
  }

  /** `total_by_type` always reports INCOME and EXPENDITURE; any other type
      read gets its own key; each value is the sum of that type's amounts. */
  lemma TypeTotalsMeaning(rows: seq<AccountRecord>, k: string)
    ensures Income in TypeTotals(rows) && Expenditure in TypeTotals(rows)
    ensures k in TypeTotals(rows) <==> k == Income || k == Expenditure || exists i :: 0 <= i < |rows| && rows[i].kind == k
    ensures Get(TypeTotals(rows), k) == SumFor(rows, Kind, k)
  {
    AccumulateKeys(TypeBase, rows, Kind, Income);
    AccumulateKeys(TypeBase, rows, Kind, Expenditure);
    AccumulateKeys(TypeBase, rows, Kind, k);
    AccumulateValues(TypeBase, rows, Kind, k);
  }

  /** On valid rows the two type keys are the only ones. */
  lemma TypeTotalsOfValidRows(rows: seq<AccountRecord>)
    requires forall i :: 0 <= i < |rows| ==> Validate(rows[i])
    ensures TypeTotals(rows).Keys == {Income, Expenditure}
  {
    forall k | k in TypeTotals(rows) ensures k == Income || k == Expenditure {
      TypeTotalsMeaning(rows, k);
    }
    TypeTotalsMeaning(rows, Income);
  }

  /** `by_category` has one key per category id read (None included),
      valued at the sum of that category's amounts; no rows give {}. */
  lemma CategoryTotalsMeaning(rows: seq<AccountRecord>, k: Option<string>)
    ensures k in CategoryTotals(rows) <==> exists i :: 0 <= i < |rows| && rows[i].categoryId == k
    ensures Get(CategoryTotals(rows), k) == SumFor(rows, CategoryOf, k)
    ensures rows == [] ==> CategoryTotals(rows) == map[]
  {
    AccumulateKeys(map[], rows, CategoryOf, k);
    AccumulateValues(map[], rows, CategoryOf, k);
  }

  /** `timeseries` has one key per bucket read, valued at the sum of the
      amounts of the rows in that bucket. */
  lemma BucketTotalsMeaning(rows: seq<AccountRecord>, period: string, k: string)
    requires forall i :: 0 <= i < |rows| ==> IsoDate(rows[i].date)
    ensures k in BucketTotals(rows, period) <==> exists i :: 0 <= i < |rows| && Bucket(rows[i].date, period) == k
    ensures Get(BucketTotals(rows, period), k) == SumFor(rows, BucketOf(period), k)
  {
    AccumulateKeys(map[], rows, BucketOf(period), k);
    AccumulateValues(map[], rows, BucketOf(period), k);
    assert forall i :: 0 <= i < |rows| ==> BucketOf(period)(rows[i]) == Bucket(rows[i].date, period);
  }

  /** Both starting totals are zero. */
  lemma TypeBaseSumsToZero()
    ensures SumValues(TypeBase) == 0.0
  {
    SumValuesRemove(TypeBase, Income);
    var rest := TypeBase - {Income};
    assert rest == map[Expenditure := 0.0];
    SumValuesRemove(rest, Expenditure);
    assert rest - {Expenditure} == map[];
  }

  /** The values of each of the three dictionaries add up to the total
      amount of the rows read. */
  lemma TotalsAddUp(rows: seq<AccountRecord>, period: string)
    ensures SumValues(TypeTotals(rows)) == Total(rows)
    ensures SumValues(CategoryTotals(rows)) == Total(rows)
    ensures SumValues(BucketTotals(rows, period)) == Total(rows)
  {
    TypeBaseSumsToZero();
    AccumulateSum(TypeBase, rows, Kind);
    AccumulateSum(map[], rows, CategoryOf);
    AccumulateSum(map[], rows, BucketOf(period));
  }

  /** The aggregates see at most the 100 newest records. */
  lemma DefaultQueryBounded(records: map<string, AccountRecord>, rows: seq<AccountRecord>)
    requires KeyedBy(records, RecordId) && DefaultQuery(records, rows)
    ensures |rows| <= 100
    ensures forall i, j :: 0 <= i < j < |rows| ==> LexLe(rows[j].date, rows[i].date)
  {
    QueryResultSize(records, Filter(None, None, None), 100, 0, DateDesc, rows);
    QueryResultOrdered(records, Filter(None, None, None), 100, 0, DateDesc, rows);
  }
}
