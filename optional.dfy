/** The Python `Optional[...]` values of the ledger, and the truthiness test
    the source applies to optional strings (`if x:` is false for both None and ""). */
module Optional {

  datatype Option<+T> = None | Some(value: T)

  /** `bool(x)` for an `Optional[str]`: present and non-empty. */
  predicate Truthy(x: Option<string>)
  {
    x.Some? && x.value != ""
  }

  /** `x or ""` for an `Optional[str]`: Python's `or` keeps `x` when it is
      truthy; a present "" is falsy but yields the same string. */
  function OrEmpty(x: Option<string>): (s: string)
    ensures x.Some? ==> s == x.value
    ensures x.None? ==> s == ""
  {
    if Truthy(x) then x.value else ""
  }

  /** `s or None`: Python's `or` keeps `s` when it is truthy. */
  function NoneIfEmpty(s: string): (x: Option<string>)
    ensures x.None? <==> s == ""
    ensures x.Some? ==> x.value == s
  {
    if Truthy(Some(s)) then Some(s) else None
  }
}
