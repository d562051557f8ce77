/**
 * The incremental loader of the "my listings" page (`hooks/useTyres.ts`):
 * its reset on user or tab change, the load guard, the favourites path,
 * the page merge and the `hasMore` rule. One load is a start step and a
 * settle step taken from the state the load started in.
 */
module UseTyres {
  import opened Wrappers
  import opened Seqs
  import opened TyreTypes
  import Api

  const LoadLimit := 6

  datatype Tab = ActiveTab | ExpiredTab | DeletedTab | FavoritesTab

  datatype Loader = Loader(
    tyres: seq<Tyre>,
    isInitialLoading: bool,
    isFetchingMore: bool,
    page: int,
    hasMore: bool)

  const InitialLoader := Loader([], true, false, 1, true)

  /** The reset effect on a new user or tab: empty list, page 1, more to load. */
  function Reset(l: Loader): (r: Loader)
    ensures r.tyres == [] && r.page == 1 && r.hasMore
    ensures r.isInitialLoading == l.isInitialLoading && r.isFetchingMore == l.isFetchingMore
  {
    l.(tyres := [], page := 1, hasMore := true)
  }

  /** `!userId || !hasMore || isFetchingMore`: the load does nothing. */
  predicate Blocked(l: Loader, userId: Option<string>) {
    userId.None? || userId.value == "" || !l.hasMore || l.isFetchingMore
  }

  /** What a load asks the server for. */
  datatype Request = FavoriteIdsThenListings | MyListings(params: Api.ListParams)

  /** The start of `loadTyres`: `None` when blocked, else the flag it raises and the request it makes. */
  function LoadStart(l: Loader, userId: Option<string>, tab: Tab): (r: Option<(Loader, Request)>)
    ensures r.None? <==> Blocked(l, userId)
    ensures r.Some? && l.page == 1 ==> r.value.0 == l.(isInitialLoading := true)
    ensures r.Some? && l.page != 1 ==> r.value.0 == l.(isFetchingMore := true)
    ensures r.Some? && tab == FavoritesTab ==> r.value.1 == FavoriteIdsThenListings
    ensures r.Some? && tab != FavoritesTab ==> r.value.1 == MyListings(Api.MyTyresParams(l.page, LoadLimit))
  {
    if Blocked(l, userId) then None
    else
      var flagged := if l.page == 1 then l.(isInitialLoading := true) else l.(isFetchingMore := true);
      Some((flagged, if tab == FavoritesTab then FavoriteIdsThenListings
                     else MyListings(Api.MyTyresParams(l.page, LoadLimit))))
  }

  /** `ids.filter(id => typeof id === 'string')`. */
  function StringIds(ids: seq<Api.JsonId>): (r: seq<string>)
    ensures |r| <= |ids|
    ensures forall x :: x in r <==> Api.StrId(x) in ids
  {
    if |ids| == 0 then []
    else
      var rest := StringIds(ids[1..]);
      assert forall x :: Api.StrId(x) in ids <==> ids[0] == Api.StrId(x) || Api.StrId(x) in ids[1..];
      match ids[0]
      case StrId(x) => [x] + rest
      case OtherJson => rest
  }

  /**
   * The server's answers a load may see: the favourite ids (already mapped
   * by `getFavorites`, which never fails), the listings for those ids, and
   * the owner's page. A listing list may come without its `tyres` field.
   */
  datatype Answers = Answers(
    favoriteIds: Remote<seq<Api.JsonId>>,
    byIds: Remote<Option<seq<Tyre>>>,
    mine: Remote<Option<seq<Tyre>>>)

  /** `res.tyres || []` of a settled request; `None` when the request failed. */
  function TyresOrEmpty(res: Remote<Option<seq<Tyre>>>): (r: Option<seq<Tyre>>)
    ensures r.None? <==> res.Rejected?
    ensures res.Resolved? && res.data.Some? ==> r == res.data
    ensures res.Resolved? && res.data.None? ==> r == Some([])
  {
    match res
    case Resolved(d) => Some(d.GetOr([]))
    case Rejected(_) => None
  }

  /** The `data` a load computes, or `None` when a request threw. */
  function FetchData(tab: Tab, answers: Answers): (r: Option<seq<Tyre>>)
    ensures tab == FavoritesTab && StringIds(Api.GetFavorites(answers.favoriteIds)) == [] ==> r == Some([])
    ensures tab == FavoritesTab && StringIds(Api.GetFavorites(answers.favoriteIds)) != [] ==>
      r == TyresOrEmpty(answers.byIds)
    ensures tab != FavoritesTab ==> r == TyresOrEmpty(answers.mine)
  {
    if tab == FavoritesTab then
      var ids := StringIds(Api.GetFavorites(answers.favoriteIds));
      if |ids| > 0 then TyresOrEmpty(answers.byIds) else Some([])
    else TyresOrEmpty(answers.mine)
  }

  /** Favourite ids that are all non-strings (or none at all) give no listings without asking for any. */
  lemma FavoritesWithoutStringIds(answers: Answers)
    requires forall i :: 0 <= i < |Api.GetFavorites(answers.favoriteIds)| ==>
      Api.GetFavorites(answers.favoriteIds)[i].OtherJson?
    ensures FetchData(FavoritesTab, answers) == Some([])
  {
    NoStringIds(Api.GetFavorites(answers.favoriteIds));
  }

  /** A list of non-string ids keeps nothing. */
  lemma {:induction false} NoStringIds(ids: seq<Api.JsonId>)
    requires forall i :: 0 <= i < |ids| ==> ids[i].OtherJson?
    ensures StringIds(ids) == []
  {
    if |ids| > 0 {
      NoStringIds(ids[1..]);
    }
  }

  /** The listing is not among `ids`. */
  function IdNotIn(ids: seq<string>): Tyre -> bool {
    (t: Tyre) => t.id !in ids
  }

  /**
   * The end of `loadTyres`, from the state it started in: on success the new
   * listings not already shown (by id) follow the old list, or replace it on
   * page 1; `hasMore` drops on a short page or the favourites tab; both
   * loading flags drop whatever happened.
   */
  function LoadSettle(l: Loader, tab: Tab, data: Option<seq<Tyre>>): (r: Loader)
    ensures !r.isInitialLoading && !r.isFetchingMore && r.page == l.page
    ensures data.None? ==> r.tyres == l.tyres && r.hasMore == l.hasMore
    ensures data.Some? ==>
      var kept := if l.page == 1 then [] else l.tyres;
      |kept| <= |r.tyres| && r.tyres[..|kept|] == kept
      && (forall t :: t in r.tyres[|kept|..] <==> t in data.value && t.id !in IdsOf(l.tyres))
    ensures data.Some? ==> (r.hasMore <==> l.hasMore && |data.value| >= LoadLimit && tab != FavoritesTab)
  {
    match data
    case None => l.(isInitialLoading := false, isFetchingMore := false)
    case Some(d) =>
      var uniqueNew := Filter(IdNotIn(IdsOf(l.tyres)), d);
      var kept := if l.page == 1 then [] else l.tyres;
      assert (kept + uniqueNew)[..|kept|] == kept && (kept + uniqueNew)[|kept|..] == uniqueNew;
      l.(tyres := kept + uniqueNew,
         hasMore := if |d| < LoadLimit || tab == FavoritesTab then false else l.hasMore,
         isInitialLoading := false, isFetchingMore := false)
  }

  /** What a successful load appends: the fetched listings whose ids are not shown yet, in server order. */
  function NewPart(l: Loader, tab: Tab, d: seq<Tyre>): (r: seq<Tyre>)
    ensures |r| <= |d|
  {
    var kept := if l.page == 1 then [] else l.tyres;
    LoadSettle(l, tab, Some(d)).tyres[|kept|..]
  }

  /** When none of the fetched ids is shown yet, the load appends all of them, in the order sent. */
  lemma LoadSettleAppendsUnseen(l: Loader, tab: Tab, d: seq<Tyre>)
    requires forall i :: 0 <= i < |d| ==> d[i].id !in IdsOf(l.tyres)
    ensures LoadSettle(l, tab, Some(d)).tyres == (if l.page == 1 then [] else l.tyres) + d
  {
    FilterKeepsAll(IdNotIn(IdsOf(l.tyres)), d);
  }

  /**
   * The appended part keeps the server's order and repeats: a reply split
   * in two appends the parts one after the other.
   */
  lemma LoadSettleKeepsOrder(l: Loader, tab: Tab, a: seq<Tyre>, b: seq<Tyre>)
    ensures NewPart(l, tab, a + b) == NewPart(l, tab, a) + NewPart(l, tab, b)
  {
    FilterConcat(IdNotIn(IdsOf(l.tyres)), a, b);
  }

  /** After a reset, the first successful load shows exactly the data the server sent. */
  lemma FirstLoadAfterReset(l: Loader, tab: Tab, d: seq<Tyre>)
    ensures LoadSettle(Reset(l), tab, Some(d)).tyres == d
  {
    FilterKeepsAll(IdNotIn([]), d);
  }

  /** The favourites tab loads once: after any successful load there is nothing more. */
  lemma FavoritesLoadOnce(l: Loader, userId: Option<string>, d: seq<Tyre>)
    ensures LoadStart(LoadSettle(l, FavoritesTab, Some(d)), userId, FavoritesTab) == None
  {
  }
}
