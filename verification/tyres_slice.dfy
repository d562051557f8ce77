/**
 * The listing-feed store (`store/slices/tyres/tyresSlice.ts`): filters, sort,
 * the accumulated pages of listings, and the per-listing status changes.
 * Each reducer case is a pure transition; reducers that write the filter
 * storage return the write as a `StorageEffect`.
 */
module TyresSlice {
  import opened Wrappers
  import opened Seqs
  import opened TyreTypes
  import opened FilterStorage

  /** `PAGE_SIZE` of the feed. */
  const PageSize := 6

  const FetchFailedMessage := "Сервер недоступний. Спробуйте пізніше"
  const DeactivateFailedMessage := "Помилка при видаленні оголошення"

  datatype TyresState = TyresState(
    tyres: seq<Tyre>,
    total: int,
    page: int,
    hasMore: bool,
    loading: bool,
    error: Option<string>,
    sortBy: SortOption,
    filters: Filters)

  /** A reducer's next state together with the filter-storage write it performed. */
  datatype Step = Step(state: TyresState, effect: StorageEffect)

  /** `initialState.filters`: whatever storage held when the module loaded, else all empty. */
  function InitialFilters(persisted: Option<Filters>): Filters {
    persisted.GetOr(EmptyFilters)
  }

  /** `initialState`, given what `loadFiltersFromStorage` returned at module load. */
  function InitialState(persisted: Option<Filters>): (s: TyresState)
    ensures s.tyres == [] && s.page == 1 && s.hasMore && !s.loading && s.error == None
    ensures s.total == 0 && s.sortBy == Newest
    ensures s.filters == if persisted.Some? then persisted.value else EmptyFilters
  {
    TyresState([], 0, 1, true, false, None, Newest, InitialFilters(persisted))
  }

  /** The page counter stays positive: the invariant every reducer keeps. */
  predicate WellFormed(s: TyresState) {
    s.page >= 1
  }

  /** `setSortBy`: new sort, feed back to page 1 with an empty list; nothing else changes. */
  function SetSortBy(s: TyresState, sort: SortOption): (r: TyresState)
    ensures r.sortBy == sort && r.page == 1 && r.tyres == [] && r.hasMore
    ensures r.(sortBy := s.sortBy, page := s.page, tyres := s.tyres, hasMore := s.hasMore) == s
    ensures WellFormed(r)
  {
    s.(sortBy := sort, page := 1, tyres := [], hasMore := true)
  }

  /**
   * `setFilters`: when the field already holds the value, nothing happens and
   * nothing is written; otherwise only that field changes, the feed restarts
   * at page 1, and the whole filter map is persisted.
   */
  function SetFilters(s: TyresState, field: FilterField, value: string): (r: Step)
    ensures Get(s.filters, field) == Some(value) <==> r == Step(s, NoWrite)
    ensures Get(r.state.filters, field) == Some(value)
    ensures forall f :: f != field ==> Get(r.state.filters, f) == Get(s.filters, f)
    ensures r.state.(filters := s.filters, page := s.page, tyres := s.tyres, hasMore := s.hasMore) == s
    ensures r.effect != NoWrite ==>
      r.effect == Persist(r.state.filters) && r.state.page == 1 && r.state.tyres == [] && r.state.hasMore
    ensures WellFormed(s) ==> WellFormed(r.state)
  {
    if Get(s.filters, field) != Some(value) then
      var next := s.(filters := s.filters[field := value], page := 1, tyres := [], hasMore := true);
      Step(next, Persist(next.filters))
    else Step(s, NoWrite)
  }

  /** Setting the same value twice is the same as setting it once, and the second call writes nothing. */
  lemma SetFiltersIdempotent(s: TyresState, field: FilterField, value: string)
    ensures var once := SetFilters(s, field, value).state;
      SetFilters(once, field, value) == Step(once, NoWrite)
  {
  }

  /** After a changing `setFilters`, storage (when it works) holds exactly the new filter map. */
  lemma SetFiltersThenLoad(s: TyresState, st: Storage, field: FilterField, value: string)
    requires Get(s.filters, field) != Some(value)
    requires !st.failing
    ensures var r := SetFilters(s, field, value);
      Load(Apply(st, r.effect)) == Some(r.state.filters)
  {
  }

  /**
   * `resetFilters`: filters back to `initialState.filters` (the persisted-at-load
   * map, not necessarily empty), sort to newest, feed to page 1, storage cleared.
   */
  function ResetFilters(s: TyresState, persisted: Option<Filters>): (r: Step)
    ensures r.state.filters == InitialFilters(persisted) && r.state.sortBy == Newest
    ensures r.state.page == 1 && r.state.tyres == [] && r.state.hasMore
    ensures r.state.total == s.total && r.state.loading == s.loading && r.state.error == s.error
    ensures r.effect == ClearSlot
  {
    Step(s.(filters := InitialFilters(persisted), sortBy := Newest, page := 1, tyres := [], hasMore := true),
      ClearSlot)
  }

  /**
   * The reset keeps the persisted-at-load filters in memory but clears them
   * from storage, so the next start of the app begins with empty filters.
   */
  lemma ResetFiltersForgottenOnReload(s: TyresState, persisted: Option<Filters>, st: Storage)
    ensures var r := ResetFilters(s, persisted);
      r.state.filters == InitialFilters(persisted)
      && InitialState(Load(Apply(st, r.effect))).filters == EmptyFilters
  {
  }

  /** `incrementPage`: the page grows by exactly one and nothing else changes. */
  function IncrementPage(s: TyresState): (r: TyresState)
    ensures r.page == s.page + 1
    ensures r.(page := s.page) == s
    ensures WellFormed(s) ==> WellFormed(r)
  {
    s.(page := s.page + 1)
  }

  /** `resetTyresState`: an empty feed at page 1; filters, sort and error are kept. */
  function ResetTyresState(s: TyresState): (r: TyresState)
    ensures r.tyres == [] && r.page == 1 && r.hasMore && r.total == 0 && !r.loading
    ensures r.(tyres := s.tyres, page := s.page, hasMore := s.hasMore, total := s.total, loading := s.loading) == s
  {
    s.(tyres := [], page := 1, hasMore := true, total := 0, loading := false)
  }

  /** `clearTyresError`. */
  function ClearTyresError(s: TyresState): (r: TyresState)
    ensures r.error == None && r.(error := s.error) == s
  {
    s.(error := None)
  }

  /**
   * Every `.pending` case of the slice (list, remove, remove-from-active,
   * activate, renew). The single-listing slice has a reducer of the same
   * shape, `TyreSlice.Pending`; each slice declares its own, so each is
   * modelled where it is declared.
   */
  function Pending(s: TyresState): (r: TyresState)
    ensures r.loading && r.error == None
    ensures r.(loading := s.loading, error := s.error) == s
  {
    s.(loading := true, error := None)
  }

  /** One page as the server returns it. */
  datatype PageResult = PageResult(tyres: seq<Tyre>, total: int)

  /** The listing is not among `ids`. */
  function IdNotIn(ids: seq<string>): Tyre -> bool {
    (t: Tyre) => t.id !in ids
  }

  /** The listing's id differs from `id`. */
  function IdIsNot(id: string): Tyre -> bool {
    (t: Tyre) => t.id != id
  }

  /**
   * Appending a later page: the old list stays as a prefix, followed by the
   * response items whose id is not already in the old list, in response order.
   */
  function MergePage(existing: seq<Tyre>, incoming: seq<Tyre>): (r: seq<Tyre>)
    ensures |existing| <= |r| <= |existing| + |incoming|
    ensures r[..|existing|] == existing
    ensures forall t :: t in r[|existing|..] <==> t in incoming && t.id !in IdsOf(existing)
  {
    var newOnes := Filter(IdNotIn(IdsOf(existing)), incoming);
    assert (existing + newOnes)[|existing|..] == newOnes;
    existing + newOnes
  }

  /** The appended part follows the response order: merging a split response appends piece by piece. */
  lemma MergePageInResponseOrder(existing: seq<Tyre>, a: seq<Tyre>, b: seq<Tyre>)
    ensures MergePage(existing, a + b) == MergePage(existing, a) + MergePage(existing, b)[|existing|..]
  {
    var p := IdNotIn(IdsOf(existing));
    FilterConcat(p, a, b);
    var fa, fb := Filter(p, a), Filter(p, b);
    calc {
      MergePage(existing, a + b);
      existing + Filter(p, a + b);
      existing + (fa + fb);
      (existing + fa) + fb;
    }
    assert MergePage(existing, a) == existing + fa;
    assert MergePage(existing, b) == existing + fb;
    assert (existing + fb)[|existing|..] == fb;
  }

  /** With a duplicate-free list and a duplicate-free page, the merged list is duplicate-free. */
  lemma MergePagePreservesDistinct(existing: seq<Tyre>, incoming: seq<Tyre>)
    requires DistinctIds(existing) && DistinctIds(incoming)
    ensures DistinctIds(MergePage(existing, incoming))
  {
    var p := IdNotIn(IdsOf(existing));
    var newOnes := Filter(p, incoming);
    FilterDistinct(p, incoming);
    var r := existing + newOnes;
    forall i, j | 0 <= i < j < |r| ensures r[i].id != r[j].id {
      if j >= |existing| && i < |existing| {
        assert r[j] == newOnes[j - |existing|];
        assert p(r[j]);
        assert IdsOf(existing)[i] == r[i].id;
      } else if i >= |existing| {
        assert r[i] == newOnes[i - |existing|] && r[j] == newOnes[j - |existing|];
      }
    }
  }

  /** Filtering a duplicate-free list of listings keeps it duplicate-free. */
  lemma {:induction false} FilterDistinct(p: Tyre -> bool, s: seq<Tyre>)
    requires DistinctIds(s)
    ensures DistinctIds(Filter(p, s))
  {
    if |s| > 0 {
      assert DistinctIds(s[1..]);
      FilterDistinct(p, s[1..]);
      var rest := Filter(p, s[1..]);
      if p(s[0]) {
        var r := [s[0]] + rest;
        forall i, j | 0 <= i < j < |r| ensures r[i].id != r[j].id {
          if i == 0 {
            assert r[j] in s[1..];
            var k :| 0 <= k < |s[1..]| && s[1..][k] == r[j];
            assert s[k + 1] == r[j];
          }
        }
      }
    }
  }

  /**
   * De-duplication is only against the old list: two copies of a new listing
   * in the same page both get appended.
   */
  lemma MergePageKeepsDuplicatesWithinPage(existing: seq<Tyre>, t: Tyre)
    requires t.id !in IdsOf(existing)
    ensures MergePage(existing, [t, t]) == existing + [t, t]
    ensures !DistinctIds(MergePage(existing, [t, t]))
  {
    var r := MergePage(existing, [t, t]);
    assert r[|existing|] == t && r[|existing| + 1] == t;
  }

  /**
   * `fetchTyresList.fulfilled`: page 1 replaces the list, a later page is
   * merged; total and `hasMore = page * 6 < total` follow the response,
   * using whatever page the state holds when the response arrives.
   */
  function FetchFulfilled(s: TyresState, resp: PageResult): (r: TyresState)
    ensures s.page == 1 ==> r.tyres == resp.tyres
    ensures s.page != 1 ==> r.tyres == MergePage(s.tyres, resp.tyres)
    ensures r.total == resp.total
    ensures r.hasMore <==> s.page * PageSize < resp.total
    ensures !r.loading && r.error == None
    ensures r.(tyres := s.tyres, total := s.total, hasMore := s.hasMore, loading := s.loading, error := s.error) == s
  {
    s.(tyres := if s.page == 1 then resp.tyres else MergePage(s.tyres, resp.tyres),
       total := resp.total,
       hasMore := s.page * PageSize < resp.total,
       loading := false,
       error := None)
  }

  /** `fetchTyresList.rejected`: the error's message (`??` the default); the list is kept. */
  function FetchRejected(s: TyresState, message: Option<string>): (r: TyresState)
    ensures !r.loading
    ensures message.Some? ==> r.error == Some(message.value)
    ensures message.None? ==> r.error == Some(FetchFailedMessage)
    ensures r.(loading := s.loading, error := s.error) == s
  {
    s.(loading := false, error := Some(message.GetOr(FetchFailedMessage)))
  }

  /** `findIndex` by id: the first position holding `id`, or -1. */
  function FindIndex(tyres: seq<Tyre>, id: string): (k: int)
    ensures -1 <= k < |tyres|
    ensures k == -1 <==> id !in IdsOf(tyres)
    ensures k >= 0 ==> tyres[k].id == id && forall j :: 0 <= j < k ==> tyres[j].id != id
  {
    if |tyres| == 0 then -1
    else if tyres[0].id == id then 0
    else
      var k := FindIndex(tyres[1..], id);
      assert IdsOf(tyres) == [tyres[0].id] + IdsOf(tyres[1..]);
      if k == -1 then -1 else k + 1
  }

  /** `const t = tyres.find(x => x._id === id); if (t) mutate(t)`: only the first listing with the id changes. */
  function UpdateFirst(tyres: seq<Tyre>, id: string, f: Tyre -> Tyre): (r: seq<Tyre>)
    ensures |r| == |tyres|
    ensures forall i :: 0 <= i < |tyres| ==>
      r[i] == if i == FindIndex(tyres, id) then f(tyres[i]) else tyres[i]
  {
    if |tyres| == 0 then []
    else if tyres[0].id == id then [f(tyres[0])] + tyres[1..]
    else [tyres[0]] + UpdateFirst(tyres[1..], id, f)
  }

  function MarkDeleted(): Tyre -> Tyre {
    (t: Tyre) => t.(isDeleted := true)
  }

  function MarkActive(): Tyre -> Tyre {
    (t: Tyre) => t.(isActive := true, isDeleted := false)
  }

  function MarkRenewed(expiresAt: int, willBeDeletedAt: int): Tyre -> Tyre {
    (t: Tyre) => t.(expiresAt := expiresAt, willBeDeletedAt := willBeDeletedAt,
            isActive := true, isDeleted := false, isExpired := false)
  }

  /** `removeTyreFromActive.fulfilled`: the first listing with the id is flagged deleted. */
  function RemoveFromActiveFulfilled(s: TyresState, id: string): (r: TyresState)
    ensures !r.loading
    ensures |r.tyres| == |s.tyres|
    ensures forall i :: 0 <= i < |s.tyres| ==>
      r.tyres[i] == if i == FindIndex(s.tyres, id) then s.tyres[i].(isDeleted := true) else s.tyres[i]
    ensures r.(tyres := s.tyres, loading := s.loading) == s
  {
    s.(loading := false, tyres := UpdateFirst(s.tyres, id, MarkDeleted()))
  }

  /** `removeTyreFromActive.rejected`: a fixed error message. */
  function RemoveFromActiveRejected(s: TyresState): (r: TyresState)
    ensures !r.loading && r.error == Some(DeactivateFailedMessage)
    ensures r.(loading := s.loading, error := s.error) == s
  {
    s.(loading := false, error := Some(DeactivateFailedMessage))
  }

  /** `removeTyre.fulfilled`: every listing with the id goes; the rest keep their order. */
  function RemoveFulfilled(s: TyresState, id: string): (r: TyresState)
    ensures !r.loading
    ensures forall t :: t in r.tyres <==> t in s.tyres && t.id != id
    ensures id !in IdsOf(r.tyres)
    ensures r.(tyres := s.tyres, loading := s.loading) == s
  {
    s.(tyres := Filter(IdIsNot(id), s.tyres), loading := false)
  }

  /** Removal keeps relative order: removing from a concatenation removes from each part. */
  lemma RemoveKeepsOrder(a: seq<Tyre>, b: seq<Tyre>, id: string)
    ensures Filter(IdIsNot(id), a + b) == Filter(IdIsNot(id), a) + Filter(IdIsNot(id), b)
  {
    FilterConcat(IdIsNot(id), a, b);
  }

  /** `removeTyre`, `activateTyre` and `renewTyreThunk` `.rejected`: loading off, error cleared. */
  function QuietRejected(s: TyresState): (r: TyresState)
    ensures !r.loading && r.error == None
    ensures r.(loading := s.loading, error := s.error) == s
  {
    s.(loading := false, error := None)
  }

  /** `activateTyre.fulfilled`: the first listing with the id becomes active and not deleted. */
  function ActivateFulfilled(s: TyresState, id: string): (r: TyresState)
    ensures !r.loading
    ensures |r.tyres| == |s.tyres|
    ensures forall i :: 0 <= i < |s.tyres| ==>
      r.tyres[i] == if i == FindIndex(s.tyres, id)
                    then s.tyres[i].(isActive := true, isDeleted := false)
                    else s.tyres[i]
    ensures r.(tyres := s.tyres, loading := s.loading) == s
  {
    s.(tyres := UpdateFirst(s.tyres, id, MarkActive()), loading := false)
  }

  /** `renewTyreThunk.fulfilled`: the first listing with the id gets the new dates and is live again. */
  function RenewFulfilled(s: TyresState, id: string, expiresAt: int, willBeDeletedAt: int): (r: TyresState)
    ensures !r.loading
    ensures |r.tyres| == |s.tyres|
    ensures forall i :: 0 <= i < |s.tyres| ==>
      r.tyres[i] == if i == FindIndex(s.tyres, id)
                    then s.tyres[i].(expiresAt := expiresAt, willBeDeletedAt := willBeDeletedAt,
                                     isActive := true, isDeleted := false, isExpired := false)
                    else s.tyres[i]
    ensures r.(tyres := s.tyres, loading := s.loading) == s
  {
    s.(tyres := UpdateFirst(s.tyres, id, MarkRenewed(expiresAt, willBeDeletedAt)), loading := false)
  }

  /** The status reducers never change which listings are in the feed, nor their order. */
  lemma StatusChangesKeepIds(s: TyresState, id: string, e: int, w: int)
    ensures IdsOf(RemoveFromActiveFulfilled(s, id).tyres) == IdsOf(s.tyres)
    ensures IdsOf(ActivateFulfilled(s, id).tyres) == IdsOf(s.tyres)
    ensures IdsOf(RenewFulfilled(s, id, e, w).tyres) == IdsOf(s.tyres)
  {
  }
}
