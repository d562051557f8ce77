/**
 * The single-listing and favourites store (`store/slices/tyres/tyreSlice.ts`):
 * listings loaded by id, the favourite listings and their ids, and the
 * favourite toggle.
 */
module TyreSlice {
  import opened Wrappers
  import opened Strings
  import opened Seqs
  import opened TyreTypes

  const FavoritesFailedMessage := "Помилка завантаження улюблених"
  const LoadFailedMessage := "Не вдалося завантажити шину. Спробуйте ще раз."

  datatype TyreState = TyreState(
    favorites: seq<Tyre>,
    tyresById: map<string, Tyre>,
    favoritesIds: seq<string>,
    loading: bool,
    error: Option<string>,
    favoriteLoading: bool,
    favoriteLoaded: bool)

  const InitialTyreState := TyreState([], map[], [], false, None, false, false)

  /** The listing's `_id`, as a de-duplication key. */
  function TyreId(): Tyre -> string {
    (t: Tyre) => t.id
  }

  lemma KeysTyreId(xs: seq<Tyre>)
    ensures Keys(TyreId(), xs) == IdsOf(xs)
  {
  }

  /** The string differs from `id`. */
  function IsNot(id: string): string -> bool {
    (x: string) => x != id
  }

  /** The stored copy of a loaded listing carries the favourite flag its id has in `favoritesIds`. */
  predicate FlagAgrees(s: TyreState, id: string) {
    id in s.tyresById ==> (s.tyresById[id].isFavorite <==> id in s.favoritesIds)
  }

  /** Every listing is stored under its own `_id`. */
  predicate KeysMatch(s: TyreState) {
    KeyedById(s.tyresById)
  }

  /** `clearTyre`: every field back to its initial value. */
  function ClearTyre(s: TyreState): (r: TyreState)
    ensures r.tyresById == map[] && r.favoritesIds == [] && r.favorites == []
    ensures !r.loading && r.error == None && !r.favoriteLoading && !r.favoriteLoaded
  {
    InitialTyreState
  }

  /** Clearing forgets everything: any two states clear to the same state. */
  lemma ClearTyreForgetsAll(s: TyreState, t: TyreState)
    ensures ClearTyre(s) == ClearTyre(t)
    ensures ClearTyre(ClearTyre(s)) == ClearTyre(s)
  {
  }

  /** `fetchFavorites.pending` and `loadTyreById.pending`. */
  function Pending(s: TyreState): (r: TyreState)
    ensures r.loading && r.error == None
    ensures r.(loading := s.loading, error := s.error) == s
  {
    s.(loading := true, error := None)
  }

  /** `payload.forEach(t => tyresById[t._id] = {...t, isFavorite: true})`: later entries overwrite earlier ones. */
  function StoreFavorites(byId: map<string, Tyre>, payload: seq<Tyre>): (r: map<string, Tyre>)
    ensures forall i :: 0 <= i < |payload| ==> payload[i].id in r
  {
    if |payload| == 0 then byId
    else
      var init := payload[..|payload| - 1];
      var last := payload[|payload| - 1];
      assert forall i :: 0 <= i < |init| ==> init[i] == payload[i];
      StoreFavorites(byId, init)[last.id := last.(isFavorite := true)]
  }

  /** The stored ids are the old ones and the payload's; entries whose id is not in the payload are untouched. */
  lemma {:induction false} StoreFavoritesDomain(byId: map<string, Tyre>, payload: seq<Tyre>)
    ensures var r := StoreFavorites(byId, payload);
      (forall id :: id in r <==> id in byId || id in IdsOf(payload))
      && (forall id :: id in r && id !in IdsOf(payload) ==> r[id] == byId[id])
  {
    if |payload| > 0 {
      var init := payload[..|payload| - 1];
      StoreFavoritesDomain(byId, init);
      assert IdsOf(payload) == IdsOf(init) + [payload[|payload| - 1].id];
    }
  }

  /** Every payload listing ends up stored flagged favourite. */
  lemma {:induction false} StoreFavoritesFlags(byId: map<string, Tyre>, payload: seq<Tyre>)
    ensures var r := StoreFavorites(byId, payload);
      forall i :: 0 <= i < |payload| ==> r[payload[i].id].isFavorite
  {
    if |payload| > 0 {
      var init := payload[..|payload| - 1];
      StoreFavoritesFlags(byId, init);
      assert forall i :: 0 <= i < |init| ==> init[i] == payload[i];
    }
  }

  /** Every entry of `m` is stored under its own id. */
  predicate KeyedById(m: map<string, Tyre>) {
    forall k :: k in m ==> m[k].id == k
  }

  /** Storing the favourites keeps every entry under its own id. */
  lemma {:induction false} StoreFavoritesKeys(byId: map<string, Tyre>, payload: seq<Tyre>)
    ensures KeyedById(byId) ==> KeyedById(StoreFavorites(byId, payload))
  {
    if |payload| > 0 {
      var init := payload[..|payload| - 1];
      var last := payload[|payload| - 1];
      StoreFavoritesKeys(byId, init);
      assert StoreFavorites(byId, payload) == StoreFavorites(byId, init)[last.id := last.(isFavorite := true)];
    }
  }

  /** The stored copy of each favourite is the last payload listing with its id, flagged favourite. */
  lemma {:induction false} StoreFavoritesLastWins(byId: map<string, Tyre>, payload: seq<Tyre>, i: nat)
    requires i < |payload|
    requires forall j :: i < j < |payload| ==> payload[j].id != payload[i].id
    ensures StoreFavorites(byId, payload)[payload[i].id] == payload[i].(isFavorite := true)
  {
    var init := payload[..|payload| - 1];
    if i < |payload| - 1 {
      assert init[i] == payload[i];
      StoreFavoritesLastWins(byId, init, i);
    }
  }

  /**
   * `fetchFavorites.fulfilled`: the favourites and their ids are the payload,
   * in order, and every payload listing is stored flagged favourite.
   */
  function FavoritesFulfilled(s: TyreState, payload: seq<Tyre>): (r: TyreState)
    ensures r.favorites == payload && r.favoritesIds == IdsOf(payload)
    ensures !r.loading && r.favoriteLoaded
    ensures forall i :: 0 <= i < |payload| ==> FlagAgrees(r, payload[i].id)
    ensures forall id :: id in r.tyresById <==> id in s.tyresById || id in IdsOf(payload)
    ensures r.error == s.error && r.favoriteLoading == s.favoriteLoading
    ensures KeysMatch(s) ==> KeysMatch(r)
  {
    StoreFavoritesDomain(s.tyresById, payload);
    StoreFavoritesFlags(s.tyresById, payload);
    StoreFavoritesKeys(s.tyresById, payload);
    s.(loading := false, favoriteLoaded := true, favorites := payload, favoritesIds := IdsOf(payload),
       tyresById := StoreFavorites(s.tyresById, payload))
  }

  /** `fetchFavorites.rejected`: the payload message (when truthy) or the default, and not loaded. */
  function FavoritesRejected(s: TyreState, payload: Option<string>): (r: TyreState)
    ensures !r.loading && !r.favoriteLoaded && r.error.Some? && r.error.value != ""
    ensures payload.Some? && payload.value != "" ==> r.error == payload
    ensures r.(loading := s.loading, favoriteLoaded := s.favoriteLoaded, error := s.error) == s
  {
    s.(loading := false, favoriteLoaded := false, error := Some(OrElse(payload, FavoritesFailedMessage)))
  }

  /** `loadTyreById.fulfilled`: the listing is stored with the favourite flag its id has in `favoritesIds`. */
  function LoadFulfilled(s: TyreState, t: Tyre): (r: TyreState)
    ensures !r.loading
    ensures t.id in r.tyresById && FlagAgrees(r, t.id)
    ensures r.tyresById[t.id].(isFavorite := t.isFavorite) == t
    ensures forall id :: id != t.id ==> (id in r.tyresById <==> id in s.tyresById)
    ensures forall id :: id != t.id && id in s.tyresById ==> r.tyresById[id] == s.tyresById[id]
    ensures r.(loading := s.loading, tyresById := s.tyresById) == s
    ensures KeysMatch(s) ==> KeysMatch(r)
  {
    s.(loading := false, tyresById := s.tyresById[t.id := t.(isFavorite := t.id in s.favoritesIds)])
  }

  /** A listing loaded after the favourites arrived is flagged exactly when it was among them. */
  lemma LoadAfterFavorites(s: TyreState, payload: seq<Tyre>, t: Tyre)
    ensures LoadFulfilled(FavoritesFulfilled(s, payload), t).tyresById[t.id].isFavorite <==> t.id in IdsOf(payload)
  {
  }

  /** `loadTyreById.rejected`. */
  function LoadRejected(s: TyreState, payload: Option<string>): (r: TyreState)
    ensures !r.loading && r.error.Some? && r.error.value != ""
    ensures payload.Some? && payload.value != "" ==> r.error == payload
    ensures r.(loading := s.loading, error := s.error) == s
  {
    s.(loading := false, error := Some(OrElse(payload, LoadFailedMessage)))
  }

  /** `toggleTyreFavorite.pending`. */
  function TogglePending(s: TyreState): (r: TyreState)
    ensures r.favoriteLoading && r.(favoriteLoading := s.favoriteLoading) == s
  {
    s.(favoriteLoading := true)
  }

  /** `toggleTyreFavorite.rejected`: only the spinner flag drops; no error is recorded. */
  function ToggleRejected(s: TyreState): (r: TyreState)
    ensures !r.favoriteLoading && r.(favoriteLoading := s.favoriteLoading) == s
  {
    s.(favoriteLoading := false)
  }

  /**
   * `toggleTyreFavorite.fulfilled`. For a listing never loaded by id only the
   * spinner flag drops. Otherwise its stored copy takes the new flag; adding
   * appends the id and the listing and de-duplicates both lists (keeping
   * first occurrences); removing drops every entry with the id.
   */
  function ToggleFulfilled(s: TyreState, id: string, isFavorite: bool): (r: TyreState)
    ensures !r.favoriteLoading
    ensures id !in s.tyresById ==> r == s.(favoriteLoading := false)
    ensures id in s.tyresById ==>
      r.tyresById == s.tyresById[id := s.tyresById[id].(isFavorite := isFavorite)]
      && FlagAgrees(r, id)
    ensures id in s.tyresById && isFavorite ==>
      (forall x :: x in r.favoritesIds <==> x in s.favoritesIds || x == id)
      && DistinctKeys(Self(), r.favoritesIds)
      && s.tyresById[id].id in IdsOf(r.favorites)
      && (forall x :: x in IdsOf(r.favorites) <==> x in IdsOf(s.favorites) || x == s.tyresById[id].id)
      && DistinctIds(r.favorites)
    ensures id in s.tyresById && !isFavorite ==>
      (forall x :: x in r.favoritesIds <==> x in s.favoritesIds && x != id)
      && (forall t :: t in r.favorites <==> t in s.favorites && t.id != id)
    ensures r.loading == s.loading && r.error == s.error && r.favoriteLoaded == s.favoriteLoaded
    ensures KeysMatch(s) ==> KeysMatch(r)
    ensures KeysMatch(s) && id in s.tyresById && isFavorite ==> id in IdsOf(r.favorites)
  {
    if id !in s.tyresById then s.(favoriteLoading := false)
    else
      var t := s.tyresById[id].(isFavorite := isFavorite);
      var ids := if isFavorite then DedupeBy(Self(), s.favoritesIds + [id])
                 else Filter(IsNot(id), s.favoritesIds);
      var favs := if isFavorite then DedupeBy(TyreId(), s.favorites + [t])
                  else Filter(IdIsNot(id), s.favorites);
      KeysSelf(s.favoritesIds + [id]);
      KeysSelf(ids);
      KeysTyreId(s.favorites + [t]);
      KeysTyreId(favs);
      assert IdsOf(s.favorites + [t]) == IdsOf(s.favorites) + [t.id];
      assert isFavorite ==> DistinctIds(favs) by {
        if isFavorite {
          forall i, j | 0 <= i < j < |favs| ensures favs[i].id != favs[j].id {
            assert TyreId()(favs[i]) != TyreId()(favs[j]);
          }
        }
      }
      s.(favoriteLoading := false, tyresById := s.tyresById[id := t], favoritesIds := ids, favorites := favs)
  }

  /** The listing's id differs from `id`. */
  function IdIsNot(id: string): Tyre -> bool {
    (t: Tyre) => t.id != id
  }

  /**
   * On a duplicate-free id list, adding keeps every other id in place and
   * appends the id once (or leaves the list alone when it was already there).
   */
  lemma ToggleAddIds(s: TyreState, id: string)
    requires id in s.tyresById
    requires DistinctKeys(Self(), s.favoritesIds)
    ensures ToggleFulfilled(s, id, true).favoritesIds ==
      if id in s.favoritesIds then s.favoritesIds else s.favoritesIds + [id]
  {
    DedupeByAppend(Self(), s.favoritesIds, id);
    KeysSelf(s.favoritesIds);
  }

  /** Removing keeps the other ids in their order: it distributes over concatenation. */
  lemma ToggleRemoveKeepsOrder(a: seq<string>, b: seq<string>, id: string)
    ensures Filter(IsNot(id), a + b) == Filter(IsNot(id), a) + Filter(IsNot(id), b)
  {
    FilterConcat(IsNot(id), a, b);
  }

  /** Adding a new favourite and then removing it restores the id list. */
  lemma ToggleAddThenRemove(s: TyreState, id: string)
    requires id in s.tyresById && id !in s.favoritesIds
    requires DistinctKeys(Self(), s.favoritesIds)
    ensures ToggleFulfilled(ToggleFulfilled(s, id, true), id, false).favoritesIds == s.favoritesIds
  {
    var t := ToggleFulfilled(s, id, true);
    ToggleAddIds(s, id);
    ToggleRemoveIds(t, id);
    RemoveAppendedId(s.favoritesIds, id);
  }

  /** Filtering out an id that was appended to a list without it gives the list back. */
  lemma RemoveAppendedId(ids: seq<string>, id: string)
    requires id !in ids
    ensures Filter(IsNot(id), ids + [id]) == ids
  {
    FilterConcat(IsNot(id), ids, [id]);
    FilterKeepsAll(IsNot(id), ids);
    assert Filter(IsNot(id), [id]) == [];
  }

  /** Removing filters the id out of the id list. */
  lemma ToggleRemoveIds(s: TyreState, id: string)
    requires id in s.tyresById
    ensures ToggleFulfilled(s, id, false).favoritesIds == Filter(IsNot(id), s.favoritesIds)
  {
  }
}
