/** `Coordinator`: what the user interface calls. It adds a category check
    in front of `save_record` and reports `(ok, message)`. */
module Coordination {
  import opened Optional
  import opened Sorting
  import opened Models
  import opened Repository

  const UnknownCategoryPrefix := "分类不存在: "
  const SaveFailedPrefix := "保存失败: "

  class Coordinator {
    const dm: DataManager

    constructor (dm: DataManager)
      ensures this.dm == dm
    {
      this.dm := dm;
    }

    /** `get_categories`: `list_categories` unchanged. */
    method GetCategories() returns (cats: seq<Category>)
      requires dm.Valid()
      ensures multiset(cats) == multiset(dm.categories.Values)
      ensures SortedBy(cats, NameOf, false)
    {
      cats := dm.ListCategories();
    }

    /** `create_record`: a non-empty category id must name a stored
        category; then the data manager saves the record. */
    method CreateRecord(rec: AccountRecord, now: string) returns (ok: bool, msg: string)
      requires dm.Valid()
      modifies dm
      ensures dm.Valid() && dm.categories == old(dm.categories)
      ensures ok ==> !Truthy(rec.categoryId) || rec.categoryId.value in dm.categories
      ensures Truthy(rec.categoryId) && rec.categoryId.value !in old(dm.categories) ==>
        !ok && msg == UnknownCategoryPrefix + rec.categoryId.value && dm.records == old(dm.records)
      ensures !Truthy(rec.categoryId) || rec.categoryId.value in old(dm.categories) ==>
        && (ok <==> Validate(rec) && rec.id !in old(dm.records))
        && (ok ==> msg == "" && dm.records == old(dm.records)[rec.id := Stamped(rec, now)])
        && (!ok ==> (dm.records == old(dm.records) && msg == SaveFailedPrefix +
              (if !Validate(rec) then ValidationFailed else DuplicateRecordId)))
    {
      if Truthy(rec.categoryId) {
        var cat := dm.GetCategory(rec.categoryId.value);
        if cat.None? {
          return false, UnknownCategoryPrefix + rec.categoryId.value;
        }
      }
      var saved, saveMsg := dm.SaveRecord(rec, now);
      if !saved {
        return false, SaveFailedPrefix + saveMsg;
      }
      return true, "";
    }

    /** `list_recent_records`: the newest `limit` records. */
    method ListRecentRecords(limit: nat := 100) returns (res: seq<AccountRecord>)
      requires dm.Valid()
      ensures IsQueryResult(dm.records, Filter(None, None, None), limit, 0, DateDesc, res)
    {
      res := dm.QueryRecords(limit := limit, offset := 0, order := DateDesc);
    }
  }
}
