/** The strict-deduplication CSV importer: each row is mapped to record
    fields, parsed, validated, checked against the records known so far and
    saved, and the report counts what became of every row. Reading the CSV
    file, parsing dates and amounts, generating ids and the clock are inputs. */
module Import {
  import opened Optional
  import opened Text
  import opened Models
  import opened Repository

  const DefaultTolerance: real := 0.01

  function Abs(x: real): real { if x < 0.0 then -x else x }

  /** `_is_strict_duplicate`: the checks of the source in their order; an
      amount that is not a number makes the pair distinct. */
  predicate IsStrictDuplicate(c: AccountRecord, e: AccountRecord, tol: real)
  {
    if c.date == "" || e.date == "" then false
    else if c.date != e.date then false
    else if c.amount.NonNumeric? || e.amount.NonNumeric? then false
    else if Abs(c.amount.value - e.amount.value) > tol then false
    else if OrEmpty(c.categoryId) != OrEmpty(e.categoryId) then false
    else if OrEmpty(c.remark) != OrEmpty(e.remark) then false
    else if c.kind != e.kind then false
    else true
  }

  /** A strict duplicate agrees on a non-empty date, on the amount up to the
      tolerance, and on category, remark and type, with None read as "". */
  lemma StrictDuplicateExactly(c: AccountRecord, e: AccountRecord, tol: real)
    ensures IsStrictDuplicate(c, e, tol) <==>
      && c.date != "" && c.date == e.date
      && c.amount.Numeric? && e.amount.Numeric? && Abs(c.amount.value - e.amount.value) <= tol
      && OrEmpty(c.categoryId) == OrEmpty(e.categoryId)
      && OrEmpty(c.remark) == OrEmpty(e.remark)
      && c.kind == e.kind
  {
  }

  /** The ids and creation times are not compared. */
  lemma StrictDuplicateIgnoresIds(c: AccountRecord, e: AccountRecord, tol: real, id: string, createdAt: Option<string>)
    ensures IsStrictDuplicate(c.(id := id, createdAt := createdAt), e, tol) == IsStrictDuplicate(c, e, tol)
  {
  }

  lemma StrictDuplicateSymmetric(c: AccountRecord, e: AccountRecord, tol: real)
    ensures IsStrictDuplicate(c, e, tol) == IsStrictDuplicate(e, c, tol)
  {
  }

  /** A valid record is a strict duplicate of itself whenever the tolerance
      is not negative. */
  lemma ValidRecordDuplicatesItself(c: AccountRecord, tol: real)
    requires Validate(c) && tol >= 0.0
    ensures IsStrictDuplicate(c, c, tol)
  {
  }

  /** A CSV row as `csv.DictReader` yields it: header -> cell, where a short
      row gives None to the headers it does not reach. */
  type Row = map<string, Option<string>>

  /** A computation that either yields a value or raises. */
  datatype Attempt<T> = Done(value: T) | Raised(message: string)

  /** `str(e)` for `None.strip()`. */
  const NoneHasNoStrip := "'NoneType' object has no attribute 'strip'"

  /** The header a field is read from: the one `fieldMap` names, otherwise
      the field's own name. */
  function SourceHeader(fieldMap: map<string, string>, name: string): string
  {
    if name in fieldMap then fieldMap[name] else name
  }

  /** Reading `name` calls `strip()` on None: the mapped header is present
      with a None cell. */
  predicate Raises(row: Row, fieldMap: map<string, string>, name: string)
  {
    name in fieldMap && fieldMap[name] in row && row[fieldMap[name]].None?
  }

  /** The stripped text under the source header of `name`; a missing header
      or a None cell gives "". */
  function Cell(row: Row, fieldMap: map<string, string>, name: string): (c: string)
    ensures Trimmed(c)
    ensures c != "" ==> var h := SourceHeader(fieldMap, name);
      h in row && row[h].Some? && StrippedFrom(c, row[h].value)
  {
    var h := SourceHeader(fieldMap, name);
    if h in row && row[h].Some? then Strip(row[h].value) else ""
  }

  /** Python's `a or b` on strings. */
  function Or(a: string, b: string): (c: string)
    ensures c == a || c == b
    ensures c == "" <==> a == "" && b == ""
  {
    if a != "" then a else b
  }

  /** `get_field`: the cell under the mapped header ("" when the row has no
      such header, raising on a None cell), or else under the header `name`
      itself (a None or missing cell reads as ""), stripped. An absent
      `field_map` is the empty map. */
  function GetField(row: Row, fieldMap: map<string, string>, name: string): (a: Attempt<string>)
    ensures a.Raised? <==> Raises(row, fieldMap, name)
    ensures a.Raised? ==> a.message == NoneHasNoStrip
    ensures a.Done? ==> a.value == Cell(row, fieldMap, name)
  {
    if name in fieldMap then
      var h := fieldMap[name];
      if h !in row then Done("")
      else if row[h].None? then Raised(NoneHasNoStrip)
      else Done(Strip(row[h].value))
    else if name in row && row[name].Some? then Done(Strip(row[name].value))
    else Done("")
  }

  /** Reading `a`, or `b` when `a` reads as "", raises. */
  predicate EitherRaises(row: Row, fieldMap: map<string, string>, a: string, b: string)
  {
    Raises(row, fieldMap, a) || (Cell(row, fieldMap, a) == "" && Raises(row, fieldMap, b))
  }

  /** `get_field(a) or get_field(b)`: `b` is read only when `a` reads as "". */
  function FirstOf(row: Row, fieldMap: map<string, string>, a: string, b: string): (x: Attempt<string>)
    ensures x.Raised? <==> EitherRaises(row, fieldMap, a, b)
    ensures x.Raised? ==> x.message == NoneHasNoStrip
    ensures x.Done? ==> x.value == Or(Cell(row, fieldMap, a), Cell(row, fieldMap, b))
  {
    var x := GetField(row, fieldMap, a);
    if x.Raised? || x.value != "" then x else GetField(row, fieldMap, b)
  }

  /** The six fields a row is mapped to. */
  datatype Fields = Fields(id: string, kind: string, amount: string, date: string,
                           categoryId: Option<string>, remark: Option<string>)

  /** The field extraction at the head of the row loop; an empty id is
      replaced by a generated one later. */
  function ReadFields(row: Row, fieldMap: map<string, string>): (a: Attempt<Fields>)
    ensures a.Raised? <==>
      || Raises(row, fieldMap, "id")
      || EitherRaises(row, fieldMap, "type", "txn_type")
      || EitherRaises(row, fieldMap, "amount", "amt")
      || EitherRaises(row, fieldMap, "date", "datetime")
      || EitherRaises(row, fieldMap, "category_id", "category")
      || EitherRaises(row, fieldMap, "remark", "note")
    ensures a.Raised? ==> a.message == NoneHasNoStrip
    ensures a.Done? ==> a.value == Fields(
      Cell(row, fieldMap, "id"),
      Or(Cell(row, fieldMap, "type"), Cell(row, fieldMap, "txn_type")),
      Or(Cell(row, fieldMap, "amount"), Cell(row, fieldMap, "amt")),
      Or(Cell(row, fieldMap, "date"), Cell(row, fieldMap, "datetime")),
      NoneIfEmpty(Or(Cell(row, fieldMap, "category_id"), Cell(row, fieldMap, "category"))),
      NoneIfEmpty(Or(Cell(row, fieldMap, "remark"), Cell(row, fieldMap, "note"))))
    ensures a.Done? ==> a.value.categoryId != Some("") && a.value.remark != Some("")
  {
    var id := GetField(row, fieldMap, "id");
    var kind := FirstOf(row, fieldMap, "type", "txn_type");
    var amount := FirstOf(row, fieldMap, "amount", "amt");
    var date := FirstOf(row, fieldMap, "date", "datetime");
    var category := FirstOf(row, fieldMap, "category_id", "category");
    var remark := FirstOf(row, fieldMap, "remark", "note");
    if id.Raised? then Raised(id.message)
    else if kind.Raised? then Raised(kind.message)
    else if amount.Raised? then Raised(amount.message)
    else if date.Raised? then Raised(date.message)
    else if category.Raised? then Raised(category.message)
    else if remark.Raised? then Raised(remark.message)
    else
      Done(Fields(id.value, kind.value, amount.value, date.value,
                  NoneIfEmpty(category.value), NoneIfEmpty(remark.value)))
  }

  /** What the importer is given besides the rows: the field map, the id
      generator (by row number), `_parse_date` after its empty-string test,
      `float()` on strings, the tolerance and the clock (the save time of
      each row, by row number). */
  datatype Env = Env(fieldMap: map<string, string>, generateId: nat -> string,
                     parseDate: string -> Option<string>, parseAmount: string -> Option<real>,
                     tol: real, now: nat -> string)

  /** `_parse_date`: an empty string is no date. */
  function ParseDate(env: Env, s: string): (d: Option<string>)
    ensures s == "" ==> d.None?
  {
    if s == "" then None else env.parseDate(s)
  }

  const InvalidDate := "invalid_date"
  const InvalidAmount := "invalid_amount"
  const ValidationFailedReason := "validation_failed"
  const DbErrorPrefix := "db_error: "
  const ExceptionPrefix := "exception: "

  /** What the checks make of a row before it reaches the store. */
  datatype Verdict = Reject(reason: string) | Duplicate | Candidate(rec: AccountRecord)

  /** The checks that follow field extraction, in the order of the source:
      date, amount, validation. */
  function CheckFields(a: Attempt<Fields>, generatedId: string, env: Env): (v: Verdict)
    ensures v.Candidate? ==> Validate(v.rec) && v.rec.createdAt.None?
    ensures !v.Duplicate?
    ensures v.Candidate? ==> a.Done? && v.rec.id == (if a.value.id != "" then a.value.id else generatedId)
  {
    match a
    case Raised(m) => Reject(ExceptionPrefix + m)
    case Done(f) =>
      var date := ParseDate(env, f.date);
      if date.None? then Reject(InvalidDate)
      else
        var amount := env.parseAmount(f.amount);
        if amount.None? then Reject(InvalidAmount)
        else
          var id := if f.id != "" then f.id else generatedId;
          var rec := AccountRecord(id, f.kind, Numeric(amount.value), date.value, f.categoryId, f.remark, None);
          if !Validate(rec) then Reject(ValidationFailedReason) else Candidate(rec)
  }

  /** The checks that need no known records. */
  function Prepare(row: Row, idx: nat, env: Env): (v: Verdict)
    ensures v.Candidate? ==> Validate(v.rec) && v.rec.createdAt.None?
    ensures !v.Duplicate?
  {
    CheckFields(ReadFields(row, env.fieldMap), env.generateId(idx), env)
  }

  /** Some known record is a strict duplicate of `rec`. */
  predicate HasDuplicate(rec: AccountRecord, known: seq<AccountRecord>, tol: real)
  {
    exists i :: 0 <= i < |known| && IsStrictDuplicate(rec, known[i], tol)
  }

  /** The verdict on a row, given the records known so far: exactly the
      candidates with a known strict duplicate are skipped, and every other
      row keeps the verdict of the checks. */
  function Classify(row: Row, idx: nat, env: Env, known: seq<AccountRecord>): (v: Verdict)
    ensures v == Duplicate <==>
      Prepare(row, idx, env).Candidate? && HasDuplicate(Prepare(row, idx, env).rec, known, env.tol)
    ensures v != Duplicate ==> v == Prepare(row, idx, env)
    ensures v.Candidate? ==> Validate(v.rec) && v.rec.createdAt.None? && !HasDuplicate(v.rec, known, env.tol)
  {
    var v := Prepare(row, idx, env);
    if v.Candidate? && HasDuplicate(v.rec, known, env.tol) then Duplicate else v
  }

  /** One entry of `report["errors"]`. */
  datatype ImportError = ImportError(row: nat, reason: string, rowData: Row)

  datatype Report = Report(imported: nat, skipped: nat, errors: seq<ImportError>)

  function Outcomes(r: Report): nat
  {
    r.imported + r.skipped + |r.errors|
  }

  /** The loop's state: the report, the known records and the store. */
  datatype Progress = Progress(report: Report, known: seq<AccountRecord>, records: map<string, AccountRecord>)

  /** One iteration: a rejected row adds an error, a duplicate is skipped, a
      candidate is saved (`save_record` refuses an id already stored) and
      then joins the known records. */
  function Apply(p: Progress, idx: nat, row: Row, v: Verdict, env: Env): Progress
  {
    match v
    case Reject(reason) =>
      p.(report := p.report.(errors := p.report.errors + [ImportError(idx, reason, row)]))
    case Duplicate =>
      p.(report := p.report.(skipped := p.report.skipped + 1))
    case Candidate(rec) =>
      if rec.id in p.records then
        p.(report := p.report.(errors := p.report.errors + [ImportError(idx, DbErrorPrefix + DuplicateRecordId, row)]))
      else
        Progress(p.report.(imported := p.report.imported + 1), p.known + [rec],
                 p.records[rec.id := Stamped(rec, env.now(idx))])
  }

  function Step(p: Progress, idx: nat, row: Row, env: Env): Progress
  {
    Apply(p, idx, row, Classify(row, idx, env, p.known), env)
  }

  /** The rows processed in order, numbered from 1. */
  function Run(p: Progress, rows: seq<Row>, env: Env): Progress
    decreases |rows|
  {
    if rows == [] then p
    else Step(Run(p, rows[..|rows| - 1], env), |rows|, rows[|rows| - 1], env)
  }

  /** Each row adds exactly one outcome: an import, a skip or one error for
      that row; an imported row is the only kind that touches the store. */
  lemma StepAddsOneOutcome(p: Progress, idx: nat, row: Row, env: Env)
    ensures var q := Step(p, idx, row, env);
      || (q.report == p.report.(imported := p.report.imported + 1) && |q.known| == |p.known| + 1)
      || (q.report == p.report.(skipped := p.report.skipped + 1) && q.known == p.known && q.records == p.records)
      || (exists reason :: (q.report == p.report.(errors := p.report.errors + [ImportError(idx, reason, row)])
                            && q.known == p.known && q.records == p.records))
  {
    ApplyAddsOneOutcome(p, idx, row, Classify(row, idx, env, p.known), env);
  }

  lemma ApplyAddsOneOutcome(p: Progress, idx: nat, row: Row, v: Verdict, env: Env)
    ensures var q := Apply(p, idx, row, v, env);
      || (q.report == p.report.(imported := p.report.imported + 1) && |q.known| == |p.known| + 1)
      || (q.report == p.report.(skipped := p.report.skipped + 1) && q.known == p.known && q.records == p.records)
      || (exists reason :: (q.report == p.report.(errors := p.report.errors + [ImportError(idx, reason, row)])
                            && q.known == p.known && q.records == p.records))
  {
    match v
    case Reject(reason) =>
    case Duplicate =>
    case Candidate(rec) =>
      if rec.id in p.records {
        var reason := DbErrorPrefix + DuplicateRecordId;
        assert Apply(p, idx, row, v, env).report == p.report.(errors := p.report.errors + [ImportError(idx, reason, row)]);
      }
  }

  /** After the run there is one outcome per row. */
  lemma {:induction false} RunCountsRows(p: Progress, rows: seq<Row>, env: Env)
    ensures Outcomes(Run(p, rows, env).report) == Outcomes(p.report) + |rows|
    decreases |rows|
  {
    if rows != [] {
      var q := Run(p, rows[..|rows| - 1], env);
      RunCountsRows(p, rows[..|rows| - 1], env);
      StepAddsOneOutcome(q, |rows|, rows[|rows| - 1], env);
    }
  }

  /** A duplicate is never saved. */
  lemma DuplicateNotSaved(p: Progress, idx: nat, row: Row, env: Env)
    requires Classify(row, idx, env, p.known) == Duplicate
    ensures Step(p, idx, row, env).records == p.records
    ensures Step(p, idx, row, env).report == p.report.(skipped := p.report.skipped + 1)
  {
    ApplyDuplicate(p, idx, row, env);
  }

  lemma ApplyDuplicate(p: Progress, idx: nat, row: Row, env: Env)
    ensures Apply(p, idx, row, Duplicate, env) == p.(report := p.report.(skipped := p.report.skipped + 1))
  {
  }

  /** The importer only adds rows: what was stored stays as it was, and every
      new row is a valid record saved under its own id. */
  lemma StepOnlyAdds(p: Progress, idx: nat, row: Row, env: Env)
    requires TablesValid(map[], p.records)
    ensures var q := Step(p, idx, row, env);
      && TablesValid(map[], q.records)
      && (forall id :: id in p.records ==> id in q.records && q.records[id] == p.records[id])
  {
    ApplyOnlyAdds(p, idx, row, Classify(row, idx, env, p.known), env);
  }

  lemma ApplyOnlyAdds(p: Progress, idx: nat, row: Row, v: Verdict, env: Env)
    requires TablesValid(map[], p.records)
    requires v.Candidate? ==> Validate(v.rec)
    ensures var q := Apply(p, idx, row, v, env);
      && TablesValid(map[], q.records)
      && (forall id :: id in p.records ==> id in q.records && q.records[id] == p.records[id])
  {
    if v.Candidate? && v.rec.id !in p.records {
      assert Validate(Stamped(v.rec, env.now(idx)));
    }
  }

  lemma {:induction false} RunOnlyAdds(p: Progress, rows: seq<Row>, env: Env, id: string)
    requires TablesValid(map[], p.records) && id in p.records
    ensures TablesValid(map[], Run(p, rows, env).records)
    ensures id in Run(p, rows, env).records && Run(p, rows, env).records[id] == p.records[id]
    decreases |rows|
  {
    if rows != [] {
      RunOnlyAdds(p, rows[..|rows| - 1], env, id);
      StepOnlyAdds(Run(p, rows[..|rows| - 1], env), |rows|, rows[|rows| - 1], env);
    }
  }

  /** Every row the run imports stays known: the known records only grow at
      the end. */
  lemma StepExtendsKnown(p: Progress, idx: nat, row: Row, env: Env)
    ensures p.known <= Step(p, idx, row, env).known
  {
  }

  lemma {:induction false} KnownGrows(p: Progress, rows: seq<Row>, m: nat, n: nat, env: Env)
    requires m <= n <= |rows|
    ensures Run(p, rows[..m], env).known <= Run(p, rows[..n], env).known
    decreases n - m
  {
    if m < n {
      KnownGrows(p, rows, m, n - 1, env);
      RunSnoc(p, rows, n - 1, env);
      StepExtendsKnown(Run(p, rows[..n - 1], env), n, rows[n - 1], env);
    }
  }

  /** The run over one more row is one more step. */
  lemma RunSnoc(p: Progress, rows: seq<Row>, n: nat, env: Env)
    requires n < |rows|
    ensures Run(p, rows[..n + 1], env) == Step(Run(p, rows[..n], env), n + 1, rows[n], env)
  {
    assert rows[..n + 1][..n] == rows[..n];
  }

  /** A row that the run imports makes every later identical row a
      duplicate: it is skipped and nothing is saved. */
  lemma RepeatedRowSkipped(p: Progress, rows: seq<Row>, a: nat, b: nat, env: Env)
    requires env.tol >= 0.0 && a < b < |rows| && rows[a] == rows[b]
    requires Run(p, rows[..a + 1], env).report.imported == Run(p, rows[..a], env).report.imported + 1
    ensures var q := Run(p, rows[..b], env);
      && Run(p, rows[..b + 1], env).report == q.report.(skipped := q.report.skipped + 1)
      && Run(p, rows[..b + 1], env).records == q.records
  {
    ImportStaysKnown(p, rows, a, b, env);
    RunSkipsKnown(p, rows, b, a + 1, env);
  }

  lemma RunSkipsKnown(p: Progress, rows: seq<Row>, b: nat, i: nat, env: Env)
    requires env.tol >= 0.0 && b < |rows|
    requires Prepare(rows[b], i, env).Candidate? && Prepare(rows[b], i, env).rec in Run(p, rows[..b], env).known
    ensures var q := Run(p, rows[..b], env);
      Run(p, rows[..b + 1], env) == q.(report := q.report.(skipped := q.report.skipped + 1))
  {
    KnownRowSkipped(Run(p, rows[..b], env), rows[b], i, b + 1, env);
    RunSnoc(p, rows, b, env);
  }

  /** A row whose record is known is skipped, and nothing is saved. */
  lemma KnownRowSkipped(q: Progress, row: Row, i: nat, j: nat, env: Env)
    requires env.tol >= 0.0 && Prepare(row, i, env).Candidate? && Prepare(row, i, env).rec in q.known
    ensures Step(q, j, row, env) == q.(report := q.report.(skipped := q.report.skipped + 1))
  {
    KnownRowIsDuplicate(row, i, j, env, q.known);
    DuplicateNotSaved(q, j, row, env);
  }

  /** The record of an imported row is known for the rest of the run. */
  lemma ImportStaysKnown(p: Progress, rows: seq<Row>, a: nat, b: nat, env: Env)
    requires a < b <= |rows|
    requires Run(p, rows[..a + 1], env).report.imported == Run(p, rows[..a], env).report.imported + 1
    ensures Prepare(rows[a], a + 1, env).Candidate?
    ensures Prepare(rows[a], a + 1, env).rec in Run(p, rows[..b], env).known
  {
    RunSnoc(p, rows, a, env);
    var pa := Run(p, rows[..a], env);
    ImportedJoinsKnown(pa, a + 1, rows[a], env);
    var rec := Prepare(rows[a], a + 1, env).rec;
    var ka := Run(p, rows[..a + 1], env).known;
    assert ka[|pa.known|] == rec;
    KnownGrows(p, rows, a + 1, b, env);
    var kb := Run(p, rows[..b], env).known;
    assert kb[|pa.known|] == rec;
  }

  /** An imported row's record is appended to the known records. */
  lemma ImportedJoinsKnown(p: Progress, i: nat, row: Row, env: Env)
    requires Step(p, i, row, env).report.imported == p.report.imported + 1
    ensures Prepare(row, i, env).Candidate?
    ensures Step(p, i, row, env).known == p.known + [Prepare(row, i, env).rec]
  {
    ApplyImported(p, i, row, Classify(row, i, env, p.known), env);
  }

  lemma ApplyImported(p: Progress, i: nat, row: Row, v: Verdict, env: Env)
    requires Apply(p, i, row, v, env).report.imported == p.report.imported + 1
    ensures v.Candidate? && Apply(p, i, row, v, env).known == p.known + [v.rec]
  {
  }

  /** Once a row's record is known, the same row, whatever its number, is a
      duplicate. */
  lemma KnownRowIsDuplicate(row: Row, i: nat, j: nat, env: Env, known: seq<AccountRecord>)
    requires env.tol >= 0.0 && Prepare(row, i, env).Candidate? && Prepare(row, i, env).rec in known
    ensures Classify(row, j, env, known) == Duplicate
  {
    var rec := Prepare(row, i, env).rec;
    var a := ReadFields(row, env.fieldMap);
    CheckFieldsIdOnly(a, env.generateId(i), env.generateId(j), env);
    var w := Prepare(row, j, env);
    assert w.Candidate? && w.rec == rec.(id := w.rec.id);
    ValidRecordDuplicatesItself(rec, env.tol);
    StrictDuplicateIgnoresIds(rec, rec, env.tol, w.rec.id, None);
    var k :| 0 <= k < |known| && known[k] == rec;
    assert IsStrictDuplicate(w.rec, known[k], env.tol);
  }

  /** The first failing check decides the row: a row that raises while its
      fields are read is an exception, an unreadable date is reported
      whatever the amount, an unreadable amount only for a readable date, and
      validation only after both parsed. */
  lemma CheckOrder(a: Attempt<Fields>, g: string, env: Env)
    ensures a.Raised? ==> CheckFields(a, g, env) == Reject(ExceptionPrefix + a.message)
    ensures a.Done? ==>
      (CheckFields(a, g, env) == Reject(InvalidDate) <==> ParseDate(env, a.value.date).None?)
    ensures a.Done? ==>
      (CheckFields(a, g, env) == Reject(InvalidAmount) <==>
         ParseDate(env, a.value.date).Some? && env.parseAmount(a.value.amount).None?)
    ensures a.Done? && ParseDate(env, a.value.date).Some? && env.parseAmount(a.value.amount).Some? ==>
      var rec := AccountRecord(if a.value.id != "" then a.value.id else g, a.value.kind,
                               Numeric(env.parseAmount(a.value.amount).value),
                               ParseDate(env, a.value.date).value, a.value.categoryId, a.value.remark, None);
      CheckFields(a, g, env) == if Validate(rec) then Candidate(rec) else Reject(ValidationFailedReason)
  {
  }

  /** The generated id does not change the outcome of the checks. */
  lemma CheckFieldsIdOnly(a: Attempt<Fields>, g1: string, g2: string, env: Env)
    requires CheckFields(a, g1, env).Candidate?
    ensures CheckFields(a, g2, env).Candidate?
    ensures CheckFields(a, g2, env).rec == CheckFields(a, g1, env).rec.(id := CheckFields(a, g2, env).rec.id)
  {
    var r1 := CheckFields(a, g1, env).rec;
    var id2 := if a.value.id != "" then a.value.id else g2;
    ValidateIgnoresOtherFields(r1, id2, r1.categoryId, r1.remark, r1.createdAt);
    assert r1.(id := id2, categoryId := r1.categoryId, remark := r1.remark, createdAt := r1.createdAt) == r1.(id := id2);
  }

  /** The duplicate search over the known records, stopping at the first hit. */
  method FindDuplicate(rec: AccountRecord, known: seq<AccountRecord>, tol: real) returns (isDup: bool)
    ensures isDup <==> HasDuplicate(rec, known, tol)
  {
    isDup := false;
    var i := 0;
    while i < |known|
      invariant 0 <= i <= |known|
      invariant forall j :: 0 <= j < i ==> !IsStrictDuplicate(rec, known[j], tol)
    {
      if IsStrictDuplicate(rec, known[i], tol) {
        isDup := true;
        return;
      }
      i := i + 1;
    }
  }

  method ClassifyRow(row: Row, idx: nat, env: Env, known: seq<AccountRecord>) returns (v: Verdict)
    ensures v == Classify(row, idx, env, known)
  {
    v := Prepare(row, idx, env);
    if v.Candidate? {
      var dup := FindDuplicate(v.rec, known, env.tol);
      if dup {
        v := Duplicate;
      }
    }
  }

  /** One pass of the row loop: classify, then skip, report or save. */
  method ImportRow(dm: DataManager, report0: Report, known0: seq<AccountRecord>, idx: nat, row: Row, env: Env)
    returns (report: Report, known: seq<AccountRecord>)
    requires dm.Valid()
    modifies dm
    ensures dm.Valid() && dm.categories == old(dm.categories)
    ensures Progress(report, known, dm.records) == Step(Progress(report0, known0, old(dm.records)), idx, row, env)
  {
    var verdict := ClassifyRow(row, idx, env, known0);
    report, known := ApplyVerdict(dm, report0, known0, idx, row, verdict, env);
  }

  /** The second half of a pass: skip, report or save, as the verdict says. */
  method ApplyVerdict(dm: DataManager, report0: Report, known0: seq<AccountRecord>, idx: nat, row: Row,
                      verdict: Verdict, env: Env)
    returns (report: Report, known: seq<AccountRecord>)
    requires dm.Valid() && (verdict.Candidate? ==> Validate(verdict.rec))
    modifies dm
    ensures dm.Valid() && dm.categories == old(dm.categories)
    ensures Progress(report, known, dm.records) == Apply(Progress(report0, known0, old(dm.records)), idx, row, verdict, env)
  {
    ghost var p := Progress(report0, known0, dm.records);
    report, known := report0, known0;
    match verdict {
      case Reject(reason) =>
        report := report.(errors := report.errors + [ImportError(idx, reason, row)]);
      case Duplicate =>
        report := report.(skipped := report.skipped + 1);
      case Candidate(rec) =>
        var ok, msg := dm.SaveRecord(rec, env.now(idx));
        if ok {
          known := known + [rec];
          report := report.(imported := report.imported + 1);
          assert dm.records == p.records[rec.id := Stamped(rec, env.now(idx))];
        } else {
          assert msg == DuplicateRecordId && rec.id in p.records;
          report := report.(errors := report.errors + [ImportError(idx, DbErrorPrefix + msg, row)]);
        }
    }
  }

  /** `import_csv_strict` over the rows of the file. The known records start
      as the store's first million records, newest first. */
  method ImportCsvStrict(dm: DataManager, rows: seq<Row>, env: Env) returns (report: Report)
    requires dm.Valid()
    modifies dm
    ensures dm.Valid() && dm.categories == old(dm.categories)
    ensures exists known :: (
      && IsQueryResult(old(dm.records), Filter(None, None, None), 1000000, 0, DateDesc, known)
      && report == Run(Progress(Report(0, 0, []), known, old(dm.records)), rows, env).report
      && dm.records == Run(Progress(Report(0, 0, []), known, old(dm.records)), rows, env).records)
    ensures Outcomes(report) == |rows|
  {
    var known := dm.QueryRecords(limit := 1000000, offset := 0);
    ghost var init := Progress(Report(0, 0, []), known, dm.records);
    report := Report(0, 0, []);
    var i := 0;
    while i < |rows|
      invariant 0 <= i <= |rows|
      invariant dm.Valid() && dm.categories == old(dm.categories)
      invariant Progress(report, known, dm.records) == Run(init, rows[..i], env)
    {
      report, known := ImportRow(dm, report, known, i + 1, rows[i], env);
      assert rows[..i + 1][..i] == rows[..i];
      i := i + 1;
    }
    assert rows[..i] == rows;
    RunCountsRows(init, rows, env);
  }
}
