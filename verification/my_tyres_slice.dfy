/**
 * The owner's-listings store (`store/slices/tyres/myTyresSlice.ts`): one
 * request for the current user's listings with the API defaults.
 */
module MyTyresSlice {
  import opened Wrappers
  import opened Strings
  import opened TyreTypes
  import Api

  const MyTyresFailedMessage := "Помилка завантаження моїх шин"

  datatype MyTyresState = MyTyresState(myTyres: seq<Tyre>, loading: bool, error: Option<string>)

  const InitialMyTyres := MyTyresState([], false, None)

  /** The request the thunk sends: `fetchTyresFromAPI('/api/tyres/my')` with every default, page 1 of 6 unfiltered and unsorted. */
  function Request(): (p: Api.ListParams)
    ensures p == Api.ListParams(map[], None, 1, 6)
  {
    Api.CleanParams(map[], Unsorted, Api.DefaultPage, Api.DefaultLimit)
  }

  /** The store's request is the one the incremental loader of the same page makes for its first page. */
  lemma RequestIsLoaderFirstPage()
    ensures Request() == Api.MyTyresParams(1, 6)
  {
  }

  function Pending(s: MyTyresState): (r: MyTyresState)
    ensures r.loading && r.error == None && r.myTyres == s.myTyres
  {
    s.(loading := true, error := None)
  }

  /** Fulfilled: the list is replaced wholesale; the error is left as it was. */
  function Fulfilled(s: MyTyresState, payload: seq<Tyre>): (r: MyTyresState)
    ensures r.myTyres == payload && !r.loading && r.error == s.error
  {
    s.(myTyres := payload, loading := false)
  }

  /** Rejected: the payload message (when truthy) or the default; the list is kept. */
  function Rejected(s: MyTyresState, payload: Option<string>): (r: MyTyresState)
    ensures !r.loading && r.myTyres == s.myTyres
    ensures r.error.Some? && r.error.value != ""
    ensures payload.Some? && payload.value != "" ==> r.error == payload
  {
    s.(loading := false, error := Some(OrElse(payload, MyTyresFailedMessage)))
  }

  /** A full request cycle: success shows exactly the payload, failure keeps what was shown before. */
  lemma RequestCycle(s: MyTyresState, payload: seq<Tyre>, message: Option<string>)
    ensures Fulfilled(Pending(s), payload).myTyres == payload
    ensures Fulfilled(Pending(s), payload).error == None
    ensures Rejected(Pending(s), message).myTyres == s.myTyres
  {
  }
}
