/**
 * The filter persistence adapter (`utils/localStorage.ts`): one storage slot,
 * `tyresFilters`, holding the JSON text of the filter object. Every failure
 * of the storage layer or of JSON parsing is swallowed.
 */
module FilterStorage {
  import opened Wrappers
  import opened TyreTypes

  /** What the slot holds: the JSON of a filter object, or text that does not parse as one (including ''). */
  datatype Stored = FiltersJson(filters: Filters) | Unparsable

  /**
   * The browser storage as far as the adapter sees it: the slot's content,
   * and whether every storage call throws (storage disabled or denied).
   */
  datatype Storage = Storage(slot: Option<Stored>, failing: bool)

  /** `saveFiltersToStorage`: writes the slot; a throwing storage is left as it was. */
  function Save(st: Storage, filters: Filters): (r: Storage)
    ensures !st.failing ==> r.slot == Some(FiltersJson(filters))
    ensures st.failing ==> r == st
    ensures r.failing == st.failing
  {
    if st.failing then st else st.(slot := Some(FiltersJson(filters)))
  }

  /** `loadFiltersFromStorage`: the stored filters, or null for a missing, unparsable or unreadable slot. */
  function Load(st: Storage): (r: Option<Filters>)
    ensures r.Some? <==> !st.failing && st.slot.Some? && st.slot.value.FiltersJson?
    ensures r.Some? ==> st.slot == Some(FiltersJson(r.value))
  {
    if st.failing then None
    else match st.slot
      case Some(FiltersJson(f)) => Some(f)
      case _ => None
  }

  /** `clearFiltersFromStorage`: empties the slot; a throwing storage is left as it was. */
  function Clear(st: Storage): (r: Storage)
    ensures !st.failing ==> r.slot.None?
    ensures st.failing ==> r == st
    ensures r.failing == st.failing
  {
    if st.failing then st else st.(slot := None)
  }

  /** Saving then loading gives back exactly what was saved, unless storage throws (then nothing loads). */
  lemma LoadAfterSave(st: Storage, filters: Filters)
    ensures Load(Save(st, filters)) == if st.failing then None else Some(filters)
  {
  }

  /** After clearing, nothing loads. */
  lemma LoadAfterClear(st: Storage)
    ensures Load(Clear(st)) == None
  {
  }

  /** A storage side effect requested by a reducer. */
  datatype StorageEffect = NoWrite | Persist(filters: Filters) | ClearSlot

  function Apply(st: Storage, e: StorageEffect): (r: Storage)
    ensures e.NoWrite? ==> r == st
    ensures e.Persist? ==> r == Save(st, e.filters)
    ensures e.ClearSlot? ==> r == Clear(st)
  {
    match e
    case NoWrite => st
    case Persist(f) => Save(st, f)
    case ClearSlot => Clear(st)
  }
}
