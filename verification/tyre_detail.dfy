/**
 * The detail-page logic of `hooks/useTyreDetailLogic.ts`: the ownership
 * check, when favourites are fetched, the favourite-toggle guard, and the
 * viewed-list update.
 */
module TyreDetail {
  import opened Wrappers
  import opened Seqs
  import opened TyreTypes
  import opened ViewedStorage
  import TyreCard
  import TyreSlice

  /**
   * `tyre?.userId === (user?.userId ?? null)`: false whenever either side is
   * missing, so the detail page decides ownership exactly as the card does.
   */
  function IsOwner(tyre: Option<Tyre>, userId: Option<string>): (r: bool)
    ensures r == TyreCard.IsOwner(tyre, userId)
  {
    tyre.Some? && userId.Some? && tyre.value.userId == userId.value
  }

  /** The favourites are fetched only while the id list is empty. */
  function ShouldFetchFavorites(favoritesIds: seq<string>): (r: bool)
    ensures r <==> favoritesIds == []
  {
    |favoritesIds| == 0
  }

  /**
   * The favourites effect, with dependencies `[dispatch, favoritesIds.length]`:
   * it runs on mount (`before` is `None`) and after a render whose id count
   * differs from the previous render's (`before`), and a run fetches only
   * when the list is empty.
   */
  function FavoritesEffectFetches(before: Option<nat>, favoritesIds: seq<string>): (r: bool)
    ensures r ==> ShouldFetchFavorites(favoritesIds)
    ensures before.None? ==> (r <==> ShouldFetchFavorites(favoritesIds))
    ensures before == Some(|favoritesIds|) ==> !r
  {
    (before.None? || before.value != |favoritesIds|) && ShouldFetchFavorites(favoritesIds)
  }

  /**
   * Against the store: on mount an empty store asks for the favourites;
   * clearing the store asks again only if it held some; a favourites answer
   * asks again only if it empties a list that had ids, so an empty answer to
   * an empty list asks nothing more.
   */
  lemma FavoritesFetchTriggers(s: TyreSlice.TyreState, payload: seq<Tyre>)
    ensures FavoritesEffectFetches(None, TyreSlice.ClearTyre(s).favoritesIds)
    ensures FavoritesEffectFetches(Some(|s.favoritesIds|), TyreSlice.ClearTyre(s).favoritesIds) <==> s.favoritesIds != []
    ensures FavoritesEffectFetches(Some(|s.favoritesIds|), TyreSlice.FavoritesFulfilled(s, payload).favoritesIds)
      <==> payload == [] && s.favoritesIds != []
  {
    var ids := TyreSlice.FavoritesFulfilled(s, payload).favoritesIds;
    assert |ids| == |payload|;
  }

  /**
   * A page opened on an empty store fetches the favourites once; if the
   * answer is empty the count stays at zero, the effect does not run again,
   * and no second request is made.
   */
  lemma EmptyFavoritesFetchedOnce(s: TyreSlice.TyreState)
    requires s.favoritesIds == []
    ensures FavoritesEffectFetches(None, s.favoritesIds)
    ensures !FavoritesEffectFetches(Some(0), TyreSlice.Pending(s).favoritesIds)
    ensures !FavoritesEffectFetches(Some(0), TyreSlice.FavoritesFulfilled(TyreSlice.Pending(s), []).favoritesIds)
  {
    FavoritesFetchTriggers(TyreSlice.Pending(s), []);
  }

  /** The toggle request `{id, currentFavorite}` the page dispatches. */
  datatype ToggleRequest = ToggleRequest(id: string, currentFavorite: bool)

  /**
   * `handleToggleFavorite`: without a (truthy) user id or a loaded listing
   * nothing is dispatched; otherwise the listing's id and current flag.
   */
  function HandleToggleFavorite(tyre: Option<Tyre>, userId: Option<string>): (r: Option<ToggleRequest>)
    ensures r.None? <==> tyre.None? || userId.None? || userId.value == ""
    ensures r.Some? ==> r.value == ToggleRequest(tyre.value.id, tyre.value.isFavorite)
  {
    if userId.None? || userId.value == "" || tyre.None? then None
    else Some(ToggleRequest(tyre.value.id, tyre.value.isFavorite))
  }

  /**
   * A dispatched toggle that succeeds (the thunk answers `!currentFavorite`)
   * flips the stored listing's flag and keeps it in step with the id list.
   */
  lemma ToggleFlipsFlag(s: TyreSlice.TyreState, id: string, userId: string)
    requires TyreSlice.KeysMatch(s) && id in s.tyresById && userId != ""
    ensures var req := HandleToggleFavorite(Some(s.tyresById[id]), Some(userId)).value;
      var r := TyreSlice.ToggleFulfilled(s, req.id, !req.currentFavorite);
      req.id == id && r.tyresById[id].isFavorite == !s.tyresById[id].isFavorite && TyreSlice.FlagAgrees(r, id)
  {
  }

  /**
   * `markTyreAsViewed`: a missing or corrupt list counts as empty; a new id
   * is appended and written back, a known id changes nothing.
   */
  function MarkViewed(slot: ViewedSlot, id: string): (r: ViewedSlot)
    ensures r.ViewedList? && id in r.ids
    ensures slot.ViewedList? && id in slot.ids ==> r == slot
    ensures slot.ViewedList? && id !in slot.ids ==> r.ids == slot.ids + [id]
    ensures !slot.ViewedList? ==> r.ids == [id]
  {
    var viewed := ParseViewed(slot).GetOr([]);
    if id !in viewed then ViewedList(viewed + [id]) else slot
  }

  /** Marking twice is marking once. */
  lemma MarkViewedIdempotent(slot: ViewedSlot, id: string)
    ensures MarkViewed(MarkViewed(slot, id), id) == MarkViewed(slot, id)
  {
  }

  /** Once marked, the card reads the listing as viewed; other listings keep their status, a corrupt list aside. */
  lemma MarkViewedThenCard(slot: ViewedSlot, id: string, other: string)
    requires other != id
    ensures TyreCard.IsViewed(MarkViewed(slot, id), id) == Some(true)
    ensures !slot.Corrupt? ==> TyreCard.IsViewed(MarkViewed(slot, id), other) == TyreCard.IsViewed(slot, other)
  {
  }

  /** A duplicate-free viewed list stays duplicate-free. */
  lemma MarkViewedKeepsDistinct(slot: ViewedSlot, id: string)
    requires slot.ViewedList? ==> DistinctKeys(Self(), slot.ids)
    ensures DistinctKeys(Self(), MarkViewed(slot, id).ids)
  {
    var r := MarkViewed(slot, id);
    if slot.ViewedList? && id !in slot.ids {
      DedupeByAppend(Self(), slot.ids, id);
      KeysSelf(slot.ids);
      assert DedupeBy(Self(), r.ids) == r.ids;
    }
  }
}
