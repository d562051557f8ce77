/**
 * The `viewedTyres` storage slot shared by the listing card and the detail
 * page: the JSON text of an array of listing ids.
 */
module ViewedStorage {
  import opened Wrappers

  /**
   * What the slot holds: nothing (or ''), which both readers treat as `'[]'`;
   * the JSON of an id array; or text that does not parse.
   */
  datatype ViewedSlot = Missing | ViewedList(ids: seq<string>) | Corrupt

  /** `JSON.parse(localStorage.getItem('viewedTyres') || '[]')`; `None` when the parse throws. */
  function ParseViewed(slot: ViewedSlot): (r: Option<seq<string>>)
    ensures r.None? <==> slot.Corrupt?
    ensures slot.Missing? ==> r == Some([])
    ensures slot.ViewedList? ==> r == Some(slot.ids)
  {
    match slot
    case Missing => Some([])
    case ViewedList(ids) => Some(ids)
    case Corrupt => None
  }
}
