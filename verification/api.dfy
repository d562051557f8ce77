/**
 * The request-shaping and error-mapping logic of the REST gateway
 * (`api/api.ts`). The HTTP calls themselves are inputs: a `Remote` value
 * says how the request settled.
 */
module Api {
  import opened Wrappers
  import opened Strings
  import opened TyreTypes

  const DefaultPage := 1
  const DefaultLimit := 6

  /** The query parameters of a listing request: cleaned filters, the sort key if any, page and limit. */
  datatype ListParams = ListParams(filters: Filters, sort: Option<SortOption>, page: int, limit: int)

  /**
   * `fetchTyresFromAPI`'s parameter cleaning: `{...filters, sort}` with every
   * empty-string value dropped, then `page` and `limit` added.
   */
  function CleanParams(filters: Filters, sortBy: SortOption, page: int, limit: int): (p: ListParams)
    ensures forall f :: f in p.filters <==> f in filters && filters[f] != ""
    ensures forall f :: f in p.filters ==> p.filters[f] == filters[f]
    ensures p.sort.Some? <==> sortBy != Unsorted
    ensures p.sort.Some? ==> p.sort.value == sortBy
    ensures p.page == page && p.limit == limit
  {
    ListParams(
      map f | f in filters && filters[f] != "" :: filters[f],
      if SortValue(sortBy) != "" then Some(sortBy) else None,
      page, limit)
  }

  /** The parameters of a call that passes no filters, page, limit or sort (all defaults). */
  function DefaultParams(): ListParams {
    CleanParams(map[], Unsorted, DefaultPage, DefaultLimit)
  }

  lemma DefaultParamsArePageAndLimitOnly()
    ensures DefaultParams() == ListParams(map[], None, 1, 6)
  {
  }

  /** `fetchMyTyres(page, limit)`: the owner's listings, no filters and no sort. */
  function MyTyresParams(page: int, limit: int): (p: ListParams)
    ensures p.filters == map[] && p.sort == None && p.page == page && p.limit == limit
  {
    CleanParams(map[], Unsorted, page, limit)
  }

  /** An axios failure: either the server answered (maybe with a `message`), or no response arrived. */
  datatype RequestError = ServerAnswered(message: Option<string>) | NoResponse(code: string)

  const TimeoutMessage := "Перевищено час очікування з’єднання"

  /** `handleError`: the backend's message, the timeout text, or the caller's fallback. */
  function HandleError(e: RequestError, customMessage: string): (r: string)
    ensures e.ServerAnswered? ==> r == OrElse(e.message, customMessage)
    ensures e.NoResponse? && e.code == "ECONNABORTED" ==> r == TimeoutMessage
    ensures e.NoResponse? && e.code != "ECONNABORTED" ==> r == customMessage
    ensures customMessage != "" ==> r != ""
  {
    match e
    case ServerAnswered(m) => OrElse(m, customMessage)
    case NoResponse(code) => if code == "ECONNABORTED" then TimeoutMessage else customMessage
  }

  /** How a call that answers with `{ message }` went on the wire: the message, or the failure. */
  datatype HttpReply = Ok(message: string) | Failed(error: RequestError)

  const ConfirmFailedMessage := "Не вдалося підтвердити пошту"
  const ResendFailedMessage := "Не вдалося надіслати підтвердження"

  /**
   * The promise chain of `confirmEmail` and `resendEmailConfirmation`: the
   * reply's message, and on failure `handleError`'s text. The `catch`
   * returns instead of rethrowing, so the promise resolves either way and
   * the caller cannot tell a failure from a reply.
   */
  function CatchToMessage(reply: HttpReply, customMessage: string): (r: Remote<string>)
    ensures r.Resolved?
    ensures reply.Ok? ==> r.data == reply.message
    ensures reply.Failed? ==> r.data == HandleError(reply.error, customMessage)
  {
    match reply
    case Ok(m) => Resolved(m)
    case Failed(e) => Resolved(HandleError(e, customMessage))
  }

  /**
   * The chain with the failure rethrown: the same text, carried by a
   * rejection, so that the caller's `catch` branch is reached.
   */
  function RethrowMessage(reply: HttpReply, customMessage: string): (r: Remote<string>)
    ensures r.Resolved? <==> reply.Ok?
    ensures reply.Ok? ==> r == CatchToMessage(reply, customMessage)
    ensures reply.Failed? ==> r == Rejected(Some(CatchToMessage(reply, customMessage).data))
  {
    match reply
    case Ok(m) => Resolved(m)
    case Failed(e) => Rejected(Some(HandleError(e, customMessage)))
  }

  /** A JSON array element of the favourites-id response: a string id or anything else. */
  datatype JsonId = StrId(id: string) | OtherJson

  /** `getFavorites`: the response body, or `[]` on a 401 and on every other failure. */
  function GetFavorites(response: Remote<seq<JsonId>>): (r: seq<JsonId>)
    ensures response.Resolved? ==> r == response.data
    ensures response.Rejected? ==> r == []
  {
    match response
    case Resolved(ids) => ids
    case Rejected(_) => []
  }

  /** `fetchTyresByIds` settles with the listings, and says whether a request was sent. */
  datatype ByIdsCall = ByIdsCall(requestSent: bool, result: Remote<seq<Tyre>>)

  /** `fetchTyresByIds`: an empty id list answers `[]` without calling the server. */
  function FetchTyresByIds(ids: seq<JsonId>, response: Remote<seq<Tyre>>): (r: ByIdsCall)
    ensures r.requestSent <==> |ids| > 0
    ensures |ids| == 0 ==> r.result == Resolved([])
    ensures |ids| > 0 ==> r.result == response
  {
    if |ids| == 0 then ByIdsCall(false, Resolved([])) else ByIdsCall(true, response)
  }
}
