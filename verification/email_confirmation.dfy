/**
 * The page a confirmation link opens (`pages/EmailConfirmationPage.tsx`):
 * the token check's outcome mapped to a status and message, and the resend
 * button's address. How `confirmEmail` settles is an input.
 */
module EmailConfirmation {
  import opened Wrappers
  import opened Strings
  import Api

  const MissingTokenMessage := "Токен не знайдено. Будь ласка, перевірте посилання."
  const ConfirmedMessage := "Пошта підтверджена!"
  const UnknownErrorMessage := "Сталася невідома помилка"
  const InvalidTokenPhrase := "токен недійсний"
  const ExpiredPhrase := "протермінований"

  datatype Status = Loading | Success | Expired | Error

  /**
   * The page after the token check: status and message, whether the check
   * was requested, and whether the pending email was forgotten (in storage
   * and in the store).
   */
  datatype Confirmation = Confirmation(status: Status, message: string, requestSent: bool, pendingCleared: bool)

  /** The message mentions an expired link, in any letter case. */
  predicate SaysExpired(msg: string) {
    Contains(ToLower(msg), ExpiredPhrase)
  }

  /** The message mentions an invalid token, in any letter case. */
  predicate SaysInvalid(msg: string) {
    Contains(ToLower(msg), InvalidTokenPhrase)
  }

  /**
   * The token check: no token (or an empty one) is an error without a
   * request. A resolved message that mentions an invalid or expired token
   * means the link expired; any other resolved message is success and
   * forgets the pending email. A rejection means expired when its message
   * mentions expiry, and an error otherwise.
   */
  function Confirm(token: Option<string>, response: Remote<string>): (r: Confirmation)
    ensures r.requestSent <==> token.Some? && token.value != ""
    ensures r.status != Loading
    ensures r.pendingCleared <==> r.status == Success
    ensures !r.requestSent ==> r.status == Error && r.message == MissingTokenMessage
    ensures r.requestSent && response.Resolved? ==>
      (r.status == Expired <==> SaysInvalid(response.data) || SaysExpired(response.data))
    ensures r.requestSent && response.Resolved? && r.status == Expired ==> r.message == response.data
    ensures r.requestSent && response.Resolved? && r.status != Expired ==>
      r.status == Success && r.message == OrElse(Some(response.data), ConfirmedMessage)
    ensures r.requestSent && response.Rejected? ==>
      r.message == OrElse(response.message, UnknownErrorMessage)
      && (r.status == Expired <==> SaysExpired(r.message))
      && (r.status != Expired ==> r.status == Error)
  {
    if token.None? || token.value == "" then Confirmation(Error, MissingTokenMessage, false, false)
    else
      match response
      case Resolved(msg) =>
        if SaysInvalid(msg) || SaysExpired(msg) then Confirmation(Expired, msg, true, false)
        else Confirmation(Success, OrElse(Some(msg), ConfirmedMessage), true, true)
      case Rejected(m) =>
        var errMsg := OrElse(m, UnknownErrorMessage);
        Confirmation(if SaysExpired(errMsg) then Expired else Error, errMsg, true, false)
  }

  /** An empty confirmation reply counts as success, shown with the default text. */
  lemma EmptyReplyIsSuccess(token: string)
    requires token != ""
    ensures Confirm(Some(token), Resolved("")) == Confirmation(Success, ConfirmedMessage, true, true)
  {
    assert !Contains("", ExpiredPhrase);
    assert !Contains("", InvalidTokenPhrase);
  }

  /**
   * A message mentioning only an invalid token means "expired" when the
   * check resolves with it, but "error" when the check rejects with it.
   */
  lemma InvalidTokenDependsOnChannel(token: string, msg: string)
    requires token != "" && msg != ""
    requires SaysInvalid(msg) && !SaysExpired(msg)
    ensures Confirm(Some(token), Resolved(msg)).status == Expired
    ensures Confirm(Some(token), Rejected(Some(msg))).status == Error
  {
  }

  /** A text none of whose characters is the `j`-th of `sub` does not contain `sub`. */
  lemma MissingCharNotContained(s: string, sub: string, j: nat)
    requires j < |sub| && sub[j] !in s
    ensures !Contains(s, sub)
  {
    forall k | 0 <= k && k + |sub| <= |s|
      ensures !OccursAt(s, sub, k)
    {
      assert s[k..k + |sub|][j] == s[k + j];
      assert s[k + j] in s;
    }
  }

  /** Lower-casing yields `к` only from `к` and `К`, and `м` only from `м` and `М`. */
  lemma LowerCharPreimages(x: char)
    ensures LowerChar(x) == 'к' ==> x == 'к' || x == 'К'
    ensures LowerChar(x) == 'м' ==> x == 'м' || x == 'М'
  {
  }

  /**
   * A text without `к` or `м` in either case mentions neither an invalid
   * nor an expired token.
   */
  lemma WithoutKAndMSaysNeither(msg: string)
    requires 'к' !in msg && 'К' !in msg && 'м' !in msg && 'М' !in msg
    ensures !SaysInvalid(msg) && !SaysExpired(msg)
  {
    var low := ToLower(msg);
    forall i | 0 <= i < |low|
      ensures low[i] != 'к' && low[i] != 'м'
    {
      LowerCharPreimages(msg[i]);
      assert msg[i] in msg;
    }
    assert InvalidTokenPhrase[2] == 'к';
    assert ExpiredPhrase[6] == 'м';
    MissingCharNotContained(low, InvalidTokenPhrase, 2);
    MissingCharNotContained(low, ExpiredPhrase, 6);
  }

  /**
   * As the code stands the confirmation helper never rejects: when the
   * server cannot be reached, its fallback text arrives as a resolved
   * message, and the page shows it as a success and forgets the pending
   * email, though nothing was confirmed.
   */
  lemma NetworkFailureShownAsSuccess(token: string)
    requires token != ""
    ensures var r := Confirm(Some(token),
      Api.CatchToMessage(Api.Failed(Api.NoResponse("ERR_NETWORK")), Api.ConfirmFailedMessage));
      r.status == Success && r.pendingCleared && r.message == Api.ConfirmFailedMessage
  {
    var reply := Api.CatchToMessage(Api.Failed(Api.NoResponse("ERR_NETWORK")), Api.ConfirmFailedMessage);
    assert reply == Resolved(Api.ConfirmFailedMessage);
    FallbackLacksK();
    FallbackLacksM();
    PlainReplyIsSuccess(token, Api.ConfirmFailedMessage);
  }

  /** A resolved message without `к` or `м` in either case is taken as a successful confirmation. */
  lemma PlainReplyIsSuccess(token: string, msg: string)
    requires token != "" && msg != ""
    requires 'к' !in msg && 'К' !in msg && 'м' !in msg && 'М' !in msg
    ensures Confirm(Some(token), Resolved(msg)) == Confirmation(Success, msg, true, true)
  {
    WithoutKAndMSaysNeither(msg);
  }

  /** The helper's fallback text has no `к` in either case. */
  lemma FallbackLacksK()
    ensures 'к' !in Api.ConfirmFailedMessage && 'К' !in Api.ConfirmFailedMessage
  {
  }

  /** The helper's fallback text has no `м` in either case. */
  lemma FallbackLacksM()
    ensures 'м' !in Api.ConfirmFailedMessage && 'М' !in Api.ConfirmFailedMessage
  {
  }

  /**
   * The token check over the wire outcome, with the helper rethrowing its
   * failures: the page shows success exactly when the server accepted the
   * token with a message that does not mention an invalid or expired one,
   * and the pending email is forgotten only then.
   */
  function CheckLink(token: Option<string>, reply: Api.HttpReply): (r: Confirmation)
    ensures r.status == Success <==>
      token.Some? && token.value != "" && reply.Ok? && !SaysInvalid(reply.message) && !SaysExpired(reply.message)
    ensures r.pendingCleared <==> r.status == Success
    ensures r.requestSent && reply.Failed? ==> r.message == Api.HandleError(reply.error, Api.ConfirmFailedMessage)
  {
    Confirm(token, Api.RethrowMessage(reply, Api.ConfirmFailedMessage))
  }

  /** With the failure rethrown, the unreachable server ends on the error screen and the pending email is kept. */
  lemma NetworkFailureShownAsError(token: string)
    requires token != ""
    ensures var r := CheckLink(Some(token), Api.Failed(Api.NoResponse("ERR_NETWORK")));
      r.status == Error && !r.pendingCleared && r.message == Api.ConfirmFailedMessage
  {
    var reply := Api.RethrowMessage(Api.Failed(Api.NoResponse("ERR_NETWORK")), Api.ConfirmFailedMessage);
    assert reply == Rejected(Some(Api.ConfirmFailedMessage));
    FallbackLacksK();
    FallbackLacksM();
    PlainRejectionIsError(token, Api.ConfirmFailedMessage);
  }

  /** A rejection whose message has no `к` or `м` in either case ends on the error screen. */
  lemma PlainRejectionIsError(token: string, msg: string)
    requires token != "" && msg != ""
    requires 'к' !in msg && 'К' !in msg && 'м' !in msg && 'М' !in msg
    ensures Confirm(Some(token), Rejected(Some(msg))) == Confirmation(Error, msg, true, false)
  {
    WithoutKAndMSaysNeither(msg);
  }

  /**
   * The address the resend button uses: the pending email in the store,
   * else the one in storage; an empty value counts as missing, and with
   * neither the resend is refused.
   */
  function ResendAddress(fromStore: Option<string>, fromStorage: Option<string>): (r: Option<string>)
    ensures r.None? <==> (fromStore.None? || fromStore.value == "") && (fromStorage.None? || fromStorage.value == "")
    ensures r.Some? ==> r.value != ""
    ensures fromStore.Some? && fromStore.value != "" ==> r == fromStore
    ensures (fromStore.None? || fromStore.value == "") ==> r == (if fromStorage == Some("") then None else fromStorage)
  {
    if fromStore.Some? && fromStore.value != "" then fromStore
    else if fromStorage.Some? && fromStorage.value != "" then fromStorage
    else None
  }
}
