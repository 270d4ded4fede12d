/** The ledger's transaction record and its validation predicate. */
module Models {
  import opened Optional

  /** What `float(record.amount)` makes of the amount field: a number, or a
      value that cannot be converted (the conversion raises). */
  datatype Amount = Numeric(value: real) | NonNumeric

  /** One income or expenditure entry. `kind` is the source's `type` field
      ("INCOME" or "EXPENDITURE" on every valid record). */
  datatype AccountRecord = AccountRecord(
    id: string,
    kind: string,
    amount: Amount,
    date: string,
    categoryId: Option<string>,
    remark: Option<string>,
    createdAt: Option<string>)

  const Income := "INCOME"
  const Expenditure := "EXPENDITURE"

  /** `AccountRecord.validate`: the guarded early returns of the source, in
      their order (type, then amount, then date). */
  predicate Validate(r: AccountRecord)
  {
    if r.kind != Income && r.kind != Expenditure then false
    else if r.amount.NonNumeric? then false
    else if r.amount.value <= 0.0 then false
    else if r.date == "" then false
    else true
  }

  /** The amount as a number; every record that validates has one. */
  function AmountOf(r: AccountRecord): real
  {
    if r.amount.Numeric? then r.amount.value else 0.0
  }

  /** Validation holds exactly when the three checks pass. */
  lemma ValidateExactly(r: AccountRecord)
    ensures Validate(r) <==>
      && (r.kind == "INCOME" || r.kind == "EXPENDITURE")
      && r.amount.Numeric? && r.amount.value > 0.0
      && r.date != ""
  {
  }

  /** A valid record carries a strictly positive numeric amount. */
  lemma ValidAmountPositive(r: AccountRecord)
    requires Validate(r)
    ensures r.amount.Numeric? && AmountOf(r) > 0.0
  {
  }

  /** `id`, `category_id`, `remark` and `created_at` are never inspected. */
  lemma ValidateIgnoresOtherFields(r: AccountRecord, id: string, categoryId: Option<string>,
                                   remark: Option<string>, createdAt: Option<string>)
    ensures Validate(r.(id := id, categoryId := categoryId, remark := remark, createdAt := createdAt))
            == Validate(r)
  {
  }
}
