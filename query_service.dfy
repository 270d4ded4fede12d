/** `QueryService`: two canned queries over the data manager and a stable
    sort of records by date. */
module Queries {
  import opened Optional
  import opened Text
  import opened Sorting
  import opened Models
  import opened Repository

  class QueryService {
    const dm: DataManager

    constructor (dm: DataManager)
      ensures this.dm == dm
    {
      this.dm := dm;
    }

    /** `query_by_date`: only the two bounds are passed on; the limit stays
        100 and the order date-descending. */
    method QueryByDate(startIso: string, endIso: string) returns (res: seq<AccountRecord>)
      requires dm.Valid()
      ensures IsQueryResult(dm.records, Filter(Some(startIso), Some(endIso), None), 100, 0, DateDesc, res)
    {
      res := dm.QueryRecords(start := Some(startIso), end := Some(endIso));
    }

    /** `query_by_category`: only the category id is passed on. */
    method QueryByCategory(categoryId: string) returns (res: seq<AccountRecord>)
      requires dm.Valid()
      ensures IsQueryResult(dm.records, Filter(None, None, Some(categoryId)), 100, 0, DateDesc, res)
    {
      res := dm.QueryRecords(categoryId := Some(categoryId));
    }
  }

  /** `sort_records`: a new list holding the same records, ordered by date
      (newest first unless `descending` is false), equal dates keeping their
      input order. */
  function SortRecords(records: seq<AccountRecord>, descending: bool := true): (r: seq<AccountRecord>)
    ensures |r| == |records| && multiset(r) == multiset(records)
    ensures SortedBy(r, DateOf, descending)
    ensures Stable(r, records, DateOf)
  {
    SortBy(records, DateOf, descending)
  }

  /** Sorting is idempotent: a list already in date order comes back as it
      is, and so does the result of a second sort. */
  lemma SortRecordsIdempotent(records: seq<AccountRecord>, descending: bool)
    ensures SortedBy(records, DateOf, descending) ==> SortRecords(records, descending) == records
    ensures SortRecords(SortRecords(records, descending), descending) == SortRecords(records, descending)
  {
    if SortedBy(records, DateOf, descending) {
      SortBySorted(records, DateOf, descending);
    }
    SortBySorted(SortRecords(records, descending), DateOf, descending);
  }

  /** Sorting a query result newest first changes nothing: the data manager
      already returns dates in that order. */
  lemma SortQueryResult(records: map<string, AccountRecord>, f: Filter, limit: nat, offset: nat,
                        res: seq<AccountRecord>)
    requires IsQueryResult(records, f, limit, offset, DateDesc, res)
    ensures SortRecords(res) == res
  {
    QueryResultOrdered(records, f, limit, offset, DateDesc, res);
    assert SortedBy(res, DateOf, true) by {
      forall i, j | 0 <= i < j < |res| ensures InOrder(DateOf(res[i]), DateOf(res[j]), true) {
        assert LexLe(res[j].date, res[i].date);
      }
    }
    SortBySorted(res, DateOf, true);
  }
}
