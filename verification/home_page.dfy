/**
 * The listing page's glue (`pages/HomePage.tsx`): seeding the filters from
 * the query string at startup, mirroring the filters back into the query
 * string, trimming typed filter values, the infinite-scroll trigger, and the
 * "live listings" view.
 */
module HomePage {
  import opened Wrappers
  import opened Strings
  import opened Seqs
  import opened TyreTypes
  import opened FilterStorage
  import opened TyresSlice

  /**
   * A query string as its ordered key/value pairs. Its
   * `application/x-www-form-urlencoded` serialisation is injective, so two
   * queries serialise to the same text exactly when they are equal.
   */
  type Query = seq<(string, string)>

  /** `URLSearchParams.get`: the value of the first pair with the key. */
  function QueryGet(q: Query, key: string): (r: Option<string>)
    ensures r.None? <==> forall i :: 0 <= i < |q| ==> q[i].0 != key
    ensures r.Some? ==> exists i :: 0 <= i < |q| && q[i] == (key, r.value)
  {
    if |q| == 0 then None
    else if q[0].0 == key then Some(q[0].1)
    else
      var r := QueryGet(q[1..], key);
      assert forall i :: 1 <= i < |q| ==> q[i] == q[1..][i - 1];
      r
  }

  /** The query carries a value for the field that differs from the current one. */
  predicate Differs(filters: Filters, q: Query, f: FilterField) {
    var p := QueryGet(q, FieldName(f));
    p.Some? && Get(filters, f) != p
  }

  /** Some field's query value differs from the current one. */
  predicate AnyDiffers(filters: Filters, q: Query) {
    exists f :: Differs(filters, q, f)
  }

  /** The field list names no field twice. */
  predicate DistinctFields(fields: seq<FilterField>) {
    forall i, j :: 0 <= i < j < |fields| ==> fields[i] != fields[j]
  }

  /** The feed state together with the filter storage it writes to. */
  datatype Session = Session(state: TyresState, storage: Storage)

  /** The result of the seeding loop: the session afterwards and whether any field was set. */
  datatype Seeded = Seeded(session: Session, updated: bool)

  /**
   * The startup loop over the filter fields: every field whose query value is
   * present and differs from the current one is dispatched to `setFilters`.
   * Which fields change is stated by `SeedFromUrlFilters`.
   */
  function SeedFromUrl(s: Session, q: Query, fields: seq<FilterField>): (r: Seeded)
    requires DistinctFields(fields)
    ensures !r.updated ==> r.session == s
    ensures r.session.state.sortBy == s.state.sortBy
    ensures r.updated && !s.storage.failing ==> Load(r.session.storage) == Some(r.session.state.filters)
    ensures r.session.storage.failing == s.storage.failing
    decreases |fields|
  {
    if |fields| == 0 then Seeded(s, false)
    else
      var f := fields[0];
      assert DistinctFields(fields[1..]);
      if Differs(s.state.filters, q, f) then
        var step := SetFilters(s.state, f, QueryGet(q, FieldName(f)).value);
        var rest := SeedFromUrl(Session(step.state, Apply(s.storage, step.effect)), q, fields[1..]);
        Seeded(rest.session, true)
      else SeedFromUrl(s, q, fields[1..])
  }

  /** The seeding loop sets exactly the differing fields to their query values and leaves the others. */
  lemma {:induction false} SeedFromUrlFilters(s: Session, q: Query, fields: seq<FilterField>)
    requires DistinctFields(fields)
    ensures var r := SeedFromUrl(s, q, fields);
      (r.updated <==> exists i :: 0 <= i < |fields| && Differs(s.state.filters, q, fields[i]))
      && forall f :: (Get(r.session.state.filters, f) ==
           if f in fields && Differs(s.state.filters, q, f) then QueryGet(q, FieldName(f))
           else Get(s.state.filters, f))
    decreases |fields|
  {
    if |fields| > 0 {
      var f := fields[0];
      assert DistinctFields(fields[1..]);
      assert forall g :: g in fields[1..] ==> g != f;
      assert forall i :: 1 <= i < |fields| ==> fields[i] == fields[1..][i - 1];
      if Differs(s.state.filters, q, f) {
        var step := SetFilters(s.state, f, QueryGet(q, FieldName(f)).value);
        var next := Session(step.state, Apply(s.storage, step.effect));
        assert forall g :: g != f ==> Differs(next.state.filters, q, g) == Differs(s.state.filters, q, g);
        SeedFromUrlFilters(next, q, fields[1..]);
      } else {
        SeedFromUrlFilters(s, q, fields[1..]);
      }
    }
  }

  lemma FieldOrderDistinct()
    ensures DistinctFields(FieldOrder)
  {
  }

  /** The startup loop over all seven filter fields, in their order. */
  function SeedAll(s: Session, q: Query): Seeded {
    FieldOrderDistinct();
    SeedFromUrl(s, q, FieldOrder)
  }

  /** Over all seven fields, the loop seeds something exactly when some field differs. */
  lemma SeedFromAllFields(s: Session, q: Query)
    ensures DistinctFields(FieldOrder)
    ensures SeedAll(s, q).updated <==> AnyDiffers(s.state.filters, q)
    ensures forall f :: f in FieldOrder
    ensures forall f :: (Get(SeedAll(s, q).session.state.filters, f) ==
      if Differs(s.state.filters, q, f) then QueryGet(q, FieldName(f)) else Get(s.state.filters, f))
  {
    forall f ensures f in FieldOrder { FieldOrderComplete(f); }
    SeedFromUrlFilters(s, q, FieldOrder);
    var seeded := SeedFromUrl(s, q, FieldOrder);
    if seeded.updated {
      var i :| 0 <= i < |FieldOrder| && Differs(s.state.filters, q, FieldOrder[i]);
    }
  }

  /** Seeding, or `resetFilters` (with its storage clear) when nothing was seeded. */
  function SeedOrReset(s: Session, q: Query, persisted: Option<Filters>): (r: Session)
    ensures var seeded := AnyDiffers(s.state.filters, q);
      (seeded ==> forall f :: (Get(r.state.filters, f) ==
         if Differs(s.state.filters, q, f) then QueryGet(q, FieldName(f)) else Get(s.state.filters, f)))
      && (seeded ==> r.state.sortBy == s.state.sortBy)
      && (!seeded ==> r.state.filters == InitialFilters(persisted) && r.state.sortBy == Newest)
      && (!seeded ==> Load(r.storage) == None)
  {
    SeedFromAllFields(s, q);
    var seeded := SeedAll(s, q);
    if seeded.updated then seeded.session
    else
      var reset := ResetFilters(s.state, persisted);
      assert Apply(s.storage, reset.effect) == Clear(s.storage);
      LoadAfterClear(s.storage);
      Session(reset.state, Clear(s.storage))
  }

  /**
   * The mount effect: seed the filters from the query, or `resetFilters` when
   * no field was seeded, then `resetTyresState`, then start the first fetch.
   * `persisted` is what storage held when the store was created.
   */
  function Startup(s: Session, q: Query, persisted: Option<Filters>): (r: Session)
    ensures var after := SeedOrReset(s, q, persisted);
      r.state.filters == after.state.filters && r.state.sortBy == after.state.sortBy && r.storage == after.storage
    ensures r.state.tyres == [] && r.state.page == 1 && r.state.hasMore && r.state.total == 0
    ensures r.state.loading && r.state.error == None
  {
    var after := SeedOrReset(s, q, persisted);
    Session(Pending(ResetTyresState(after.state)), after.storage)
  }

  /**
   * A query that agrees with every current filter value seeds nothing, so the
   * startup resets the filters and clears storage, even when those values
   * came from storage in the first place.
   */
  lemma StartupWithMatchingUrlClearsStorage(s: Session, q: Query, persisted: Filters)
    requires s.state.filters == persisted
    requires forall f :: QueryGet(q, FieldName(f)).Some? ==> Get(persisted, f) == QueryGet(q, FieldName(f))
    ensures Startup(s, q, Some(persisted)).state.filters == persisted
    ensures Load(Startup(s, q, Some(persisted)).storage) == None
  {
    assert forall f :: !Differs(s.state.filters, q, f);
  }

  /** The non-empty value of a field, as the query mirror sees it. */
  function Shown(filters: Filters, f: FilterField): Option<string> {
    if f in filters && filters[f] != "" then Some(filters[f]) else None
  }

  /** The pairs `(name, value)` for the non-empty fields, in the given field order. */
  function ProjectFields(filters: Filters, fields: seq<FilterField>): (r: Query)
    ensures |r| <= |fields|
    ensures forall i :: 0 <= i < |r| ==>
      exists f :: f in fields && r[i].0 == FieldName(f) && Shown(filters, f) == Some(r[i].1)
  {
    if |fields| == 0 then []
    else
      var f := fields[0];
      var rest := ProjectFields(filters, fields[1..]);
      if Shown(filters, f).Some? then [(FieldName(f), filters[f])] + rest else rest
  }

  /** The filter-to-query effect's `params`: every non-empty field, and never the sort. */
  function Project(filters: Filters): (r: Query)
    ensures |r| <= 7
    ensures forall i :: 0 <= i < |r| ==> exists f :: r[i].0 == FieldName(f) && Shown(filters, f) == Some(r[i].1)
  {
    ProjectFields(filters, FieldOrder)
  }

  lemma FieldNameInjective(f: FilterField, g: FilterField)
    requires FieldName(f) == FieldName(g)
    ensures f == g
  {
  }

  /** Looking a key up in a query that starts with a given pair. */
  lemma QueryGetCons(pair: (string, string), rest: Query, key: string)
    ensures QueryGet([pair] + rest, key) == if pair.0 == key then Some(pair.1) else QueryGet(rest, key)
  {
    assert ([pair] + rest)[1..] == rest;
  }

  /** Reading a field back from a projection over distinct fields gives its non-empty value. */
  lemma {:induction false} ProjectFieldsGet(filters: Filters, fields: seq<FilterField>, f: FilterField)
    requires DistinctFields(fields)
    ensures QueryGet(ProjectFields(filters, fields), FieldName(f)) == if f in fields then Shown(filters, f) else None
  {
    if |fields| > 0 {
      assert DistinctFields(fields[1..]);
      ProjectFieldsGet(filters, fields[1..], f);
      var g := fields[0];
      if Shown(filters, g).Some? {
        QueryGetCons((FieldName(g), filters[g]), ProjectFields(filters, fields[1..]), FieldName(f));
      }
      if FieldName(g) == FieldName(f) {
        FieldNameInjective(f, g);
        assert f !in fields[1..];
      }
      assert f in fields <==> f == g || f in fields[1..];
    }
  }

  /** The query mirror holds exactly the non-empty fields with their values, and nothing named `sort`. */
  lemma ProjectGet(filters: Filters, f: FilterField)
    ensures QueryGet(Project(filters), FieldName(f)) == Shown(filters, f)
  {
    FieldOrderDistinct();
    FieldOrderComplete(f);
    ProjectFieldsGet(filters, FieldOrder, f);
  }

  lemma FieldNameIsNotSort(f: FilterField)
    ensures FieldName(f) != "sort"
  {
    assert FieldName(f)[0] != 's' || FieldName(f)[1] != 'o';
  }

  /** The sort order never reaches the query string. */
  lemma ProjectHasNoSort(filters: Filters)
    ensures QueryGet(Project(filters), "sort") == None
  {
    var q := Project(filters);
    forall i | 0 <= i < |q| ensures q[i].0 != "sort" {
      var f :| q[i].0 == FieldName(f) && Shown(filters, f) == Some(q[i].1);
      FieldNameIsNotSort(f);
    }
  }

  /** Two filter maps with the same non-empty values project to the same query. */
  lemma {:induction false} ProjectFieldsOnlySeesShown(a: Filters, b: Filters, fields: seq<FilterField>)
    requires forall f :: Shown(a, f) == Shown(b, f)
    ensures ProjectFields(a, fields) == ProjectFields(b, fields)
  {
    if |fields| > 0 {
      ProjectFieldsOnlySeesShown(a, b, fields[1..]);
      var f := fields[0];
      assert Shown(a, f) == Shown(b, f);
    }
  }

  /** The query write of the mirror effect: `None` when the serialisations already agree. */
  function SyncUrl(current: Query, filters: Filters): (w: Option<Query>)
    ensures w.None? <==> current == Project(filters)
    ensures w.Some? ==> w.value == Project(filters)
  {
    var next := Project(filters);
    if current != next then Some(next) else None
  }

  /** The query after the mirror effect has run. */
  function UrlAfterSync(current: Query, filters: Filters): (q: Query)
    ensures q == Project(filters)
  {
    SyncUrl(current, filters).GetOr(current)
  }

  /** Mirroring twice is mirroring once: the second run writes nothing. */
  lemma SyncUrlIdempotent(current: Query, filters: Filters)
    ensures SyncUrl(UrlAfterSync(current, filters), filters) == None
    ensures UrlAfterSync(UrlAfterSync(current, filters), filters) == UrlAfterSync(current, filters)
  {
  }

  /**
   * Query to filters and back: seeding an all-empty filter map from the
   * mirror of `g` and mirroring the result reproduces the same query.
   */
  lemma UrlRoundTrip(s: Session, g: Filters)
    requires s.state.filters == EmptyFilters
    ensures var q := Project(g);
      Project(SeedAll(s, q).session.state.filters) == q
  {
    var q := Project(g);
    SeedFromAllFields(s, q);
    var after := SeedAll(s, q).session.state.filters;
    forall f ensures Shown(after, f) == Shown(g, f) {
      ShownAfterSeedingEmpty(after, g, f);
    }
    ProjectFieldsOnlySeesShown(after, g, FieldOrder);
  }

  /** One field of the round trip: an empty field takes the mirrored value, or stays empty. */
  lemma ShownAfterSeedingEmpty(after: Filters, g: Filters, f: FilterField)
    requires var q := Project(g);
      Get(after, f) == if Differs(EmptyFilters, q, f) then QueryGet(q, FieldName(f)) else Get(EmptyFilters, f)
    ensures Shown(after, f) == Shown(g, f)
  {
    var p := QueryGet(Project(g), FieldName(f));
    ProjectGet(g, f);
    EmptyFiltersGet(f);
    SeededEmptyField(after, f, p);
  }

  lemma EmptyFiltersGet(f: FilterField)
    ensures Get(EmptyFilters, f) == Some("")
  {
  }

  /** A field seeded from an empty one with a query value that is never `""` shows that value. */
  lemma SeededEmptyField(after: Filters, f: FilterField, p: Option<string>)
    requires p.None? || p.value != ""
    requires Get(after, f) == if p.Some? && Some("") != p then p else Some("")
    ensures Shown(after, f) == p
  {
  }

  /** `handleFilterChange`: leading whitespace dropped, trailing kept, then `setFilters`. */
  function HandleFilterChange(s: TyresState, field: FilterField, raw: string): (r: Step)
    ensures var v := TrimStart(raw);
      Get(r.state.filters, field) == Some(v)
      && (v == [] || !IsJsSpace(v[0]))
      && raw == raw[..|raw| - |v|] + v && AllSpaces(raw[..|raw| - |v|])
  {
    TrimStartSplit(raw);
    SetFilters(s, field, TrimStart(raw))
  }

  /** The feed state with the component's `isFetchingRef` flag. */
  datatype Scroll = Scroll(state: TyresState, inFlight: bool)

  /** The observer's guard: the sentinel is visible, nothing loads, more pages exist, no page request is open. */
  predicate MayLoadMore(sc: Scroll, isIntersecting: bool) {
    isIntersecting && !sc.state.loading && sc.state.hasMore && !sc.inFlight
  }

  /** The IntersectionObserver callback: raise the flag and `incrementPage` when the guard holds. */
  function OnIntersect(sc: Scroll, isIntersecting: bool): (r: Scroll)
    ensures MayLoadMore(sc, isIntersecting) ==> r.inFlight && r.state == IncrementPage(sc.state)
    ensures !MayLoadMore(sc, isIntersecting) ==> r == sc
    ensures r.state.page == sc.state.page + 1 <==> MayLoadMore(sc, isIntersecting)
  {
    if MayLoadMore(sc, isIntersecting) then Scroll(IncrementPage(sc.state), true) else sc
  }

  /** The page effect: a page above 1 starts a fetch (its pending case). */
  function OnPageChange(sc: Scroll): (r: Scroll)
    ensures sc.state.page > 1 ==> r.state.loading && r.state.error == None
    ensures sc.state.page <= 1 ==> r == sc
    ensures r.inFlight == sc.inFlight && r.state.page == sc.state.page && r.state.tyres == sc.state.tyres
  {
    if sc.state.page > 1 then sc.(state := Pending(sc.state)) else sc
  }

  /** A page fetch settling: the list reducer's case, and `finally` lowers the flag. */
  function OnPageSettled(sc: Scroll, outcome: Remote<PageResult>): (r: Scroll)
    ensures !r.inFlight && !r.state.loading
    ensures outcome.Resolved? ==> r.state == FetchFulfilled(sc.state, outcome.data)
    ensures outcome.Rejected? ==> r.state == FetchRejected(sc.state, outcome.message)
  {
    match outcome
    case Resolved(page) => Scroll(FetchFulfilled(sc.state, page), false)
    case Rejected(m) => Scroll(FetchRejected(sc.state, m), false)
  }

  /** What can happen to the feed before a page request settles: the observer fires, or the page effect runs. */
  datatype ScrollEvent = Sighted(isIntersecting: bool) | PageEffect

  /** The feed after the events, in order, none of them a settling request. */
  function RunScroll(sc: Scroll, evs: seq<ScrollEvent>): Scroll
    decreases |evs|
  {
    if |evs| == 0 then sc
    else
      var next := match evs[0] case Sighted(b) => OnIntersect(sc, b) case PageEffect => OnPageChange(sc);
      RunScroll(next, evs[1..])
  }

  /** While the flag is up, no event moves the page, and the flag stays up until the request settles. */
  lemma {:induction false} InFlightBlocksRequests(sc: Scroll, evs: seq<ScrollEvent>)
    requires sc.inFlight
    ensures RunScroll(sc, evs).inFlight && RunScroll(sc, evs).state.page == sc.state.page
    decreases |evs|
  {
    if |evs| > 0 {
      var next := match evs[0] case Sighted(b) => OnIntersect(sc, b) case PageEffect => OnPageChange(sc);
      InFlightBlocksRequests(next, evs[1..]);
    }
  }

  /**
   * Between two settlements at most one page is requested: any events move
   * the page by at most one, and once they have, the flag is up.
   */
  lemma {:induction false} OneRequestPerFlag(sc: Scroll, evs: seq<ScrollEvent>)
    ensures RunScroll(sc, evs).state.page <= sc.state.page + 1
    ensures RunScroll(sc, evs).state.page == sc.state.page + 1 ==> RunScroll(sc, evs).inFlight
    ensures RunScroll(sc, evs).state.page >= sc.state.page
    decreases |evs|
  {
    if |evs| > 0 {
      var next := match evs[0] case Sighted(b) => OnIntersect(sc, b) case PageEffect => OnPageChange(sc);
      if next.inFlight && !sc.inFlight {
        InFlightBlocksRequests(next, evs[1..]);
      } else {
        OneRequestPerFlag(next, evs[1..]);
      }
    }
  }

  /**
   * A full scroll cycle (trigger, request, success) at page p asks for page
   * p + 1, leaves the old list as a prefix, and lets the next trigger fire
   * exactly when the server reports more listings.
   */
  lemma ScrollCycle(sc: Scroll, resp: PageResult)
    requires MayLoadMore(sc, true) && WellFormed(sc.state)
    ensures var r := OnPageSettled(OnPageChange(OnIntersect(sc, true)), Resolved(resp));
      r.state.page == sc.state.page + 1
      && r.state.tyres[..|sc.state.tyres|] == sc.state.tyres
      && (MayLoadMore(r, true) <==> (sc.state.page + 1) * PageSize < resp.total)
  {
  }

  /** `new Date(tyre.expiresAt) > now && !tyre.isDeleted`. */
  function IsLive(now: int): Tyre -> bool {
    (t: Tyre) => t.expiresAt > now && !t.isDeleted
  }

  /** `activeTyres`: the listings not yet expired and not deleted, in list order. */
  function ActiveTyres(tyres: seq<Tyre>, now: int): (r: seq<Tyre>)
    ensures forall t :: t in r <==> t in tyres && t.expiresAt > now && !t.isDeleted
    ensures |r| <= |tyres|
  {
    Filter(IsLive(now), tyres)
  }

  /** The live view keeps list order: it distributes over concatenation. */
  lemma ActiveTyresKeepsOrder(a: seq<Tyre>, b: seq<Tyre>, now: int)
    ensures ActiveTyres(a + b, now) == ActiveTyres(a, now) + ActiveTyres(b, now)
  {
    FilterConcat(IsLive(now), a, b);
  }
}
