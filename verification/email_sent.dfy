/**
 * The "check your inbox" page after registration
 * (`pages/EmailSentConfirmation.tsx`): the 60-second resend cooldown, kept
 * across reloads through the stored start time. The clock, the stored
 * value and the resend call's outcome are inputs.
 */
module EmailSent {
  import opened Wrappers
  import opened Strings
  import Api

  const CooldownSeconds := 60
  const MsPerSecond := 1000

  /** The stored cooldown start: nothing, a time in milliseconds, or text `parseInt` cannot read. */
  datatype StoredStart = NoStart | StartAt(ms: int) | Unparsable

  /** The page's countdown and the stored start. */
  datatype Page = Page(cooldown: int, stored: StoredStart)

  /** What opening the page does: leave for registration, or show the page. */
  datatype Opened = RedirectToRegister | Shown(page: Page)

  /** `Math.floor((now - start) / 1000)`: whole seconds elapsed, rounded down (also when negative). */
  function ElapsedSeconds(now: int, start: int): (e: int)
    ensures MsPerSecond * e <= now - start < MsPerSecond * (e + 1)
  {
    // Dafny's division by a positive divisor rounds down, as Math.floor does.
    (now - start) / MsPerSecond
  }

  /**
   * Opening the page: without a pending email it leaves for registration;
   * otherwise the countdown resumes from the stored start when some of the
   * 60 seconds remain, and is zero otherwise.
   */
  function Open(email: Option<string>, stored: StoredStart, now: int): (r: Opened)
    ensures r.RedirectToRegister? <==> email.None? || email.value == ""
    ensures r.Shown? ==> r.page.stored == stored && r.page.cooldown >= 0
    ensures r.Shown? && stored.StartAt? && CooldownSeconds - ElapsedSeconds(now, stored.ms) > 0
      ==> r.page.cooldown == CooldownSeconds - ElapsedSeconds(now, stored.ms)
    ensures r.Shown? && stored.StartAt? && CooldownSeconds - ElapsedSeconds(now, stored.ms) <= 0 ==> r.page.cooldown == 0
    ensures r.Shown? && !stored.StartAt? ==> r.page.cooldown == 0
  {
    if email.None? || email.value == "" then RedirectToRegister
    else
      var remaining := if stored.StartAt? then CooldownSeconds - ElapsedSeconds(now, stored.ms) else 0;
      Shown(Page(if remaining > 0 then remaining else 0, stored))
  }

  /** With the clock not behind the stored start, a resumed countdown never exceeds 60 seconds. */
  lemma OpenCooldownAtMostSixty(email: Option<string>, start: int, now: int)
    requires start <= now
    ensures var r := Open(email, StartAt(start), now);
      r.Shown? ==> 0 <= r.page.cooldown <= CooldownSeconds
  {
  }

  /** A start stored more than a second in the future gives a countdown above 60 seconds. */
  lemma OpenWithFutureStart(email: Option<string>, start: int, now: int)
    requires email.Some? && email.value != ""
    requires now + MsPerSecond <= start
    ensures Open(email, StartAt(start), now).page.cooldown > CooldownSeconds
  {
  }

  /** One second of countdown: down by one, and at one or below zero with the stored start removed. */
  function Tick(p: Page): (r: Page)
    ensures p.cooldown <= 1 ==> r == Page(0, NoStart)
    ensures p.cooldown > 1 ==> r == p.(cooldown := p.cooldown - 1)
  {
    if p.cooldown <= 1 then Page(0, NoStart) else p.(cooldown := p.cooldown - 1)
  }

  /** The page after `n` seconds; the interval only runs while the countdown is positive. */
  function AfterTicks(p: Page, n: nat): Page
    decreases n
  {
    if n == 0 || p.cooldown <= 0 then p else AfterTicks(Tick(p), n - 1)
  }

  /** A countdown of `c` seconds ends after `c` ticks with nothing left in storage. */
  lemma {:induction false} CountdownEnds(p: Page)
    requires p.cooldown > 0
    ensures AfterTicks(p, p.cooldown) == Page(0, NoStart)
    decreases p.cooldown
  {
    if p.cooldown > 1 {
      CountdownEnds(Tick(p));
    }
  }

  const ResentMessage := "Лист повторно надіслано!"
  const ResendErrorMessage := "Не вдалося надіслати лист."

  /** A notification shown to the user. */
  datatype Toast = SuccessToast(text: string) | ErrorToast(text: string)

  /** The resend handler's result: the page, whether the request went out, and the toast shown. */
  datatype Resent = Resent(page: Page, requestSent: bool, toast: Option<Toast>)

  /**
   * `handleResend`: refused without an email or while counting down;
   * otherwise the request is sent. When it resolves, its message (or a
   * default) is toasted as a success, the start time is stored and the
   * countdown set to 60; when it rejects, its message (or a default) is
   * toasted as an error and the page is unchanged.
   */
  function Resend(email: Option<string>, p: Page, reply: Remote<string>, now: int): (r: Resent)
    ensures r.requestSent <==> email.Some? && email.value != "" && p.cooldown <= 0
    ensures !r.requestSent ==> r.page == p && r.toast.None?
    ensures r.requestSent && reply.Resolved? ==>
      r.page == Page(CooldownSeconds, StartAt(now)) && r.toast == Some(SuccessToast(OrElse(Some(reply.data), ResentMessage)))
    ensures r.requestSent && reply.Rejected? ==>
      r.page == p && r.toast == Some(ErrorToast(OrElse(reply.message, ResendErrorMessage)))
  {
    if email.None? || email.value == "" || p.cooldown > 0 then Resent(p, false, None)
    else
      match reply
      case Resolved(msg) => Resent(Page(CooldownSeconds, StartAt(now)), true, Some(SuccessToast(OrElse(Some(msg), ResentMessage))))
      case Rejected(m) => Resent(p, true, Some(ErrorToast(OrElse(m, ResendErrorMessage))))
  }

  /**
   * As the code stands the resend helper never rejects: a failed resend
   * is toasted as a success, with the failure's text, and still starts the
   * 60-second countdown; the error branch is never taken.
   */
  lemma FailedResendStartsCooldown(email: string, p: Page, e: Api.RequestError, now: int)
    requires email != "" && p.cooldown <= 0
    ensures var r := Resend(Some(email), p, Api.CatchToMessage(Api.Failed(e), Api.ResendFailedMessage), now);
      r.page == Page(CooldownSeconds, StartAt(now))
      && r.toast == Some(SuccessToast(Api.HandleError(e, Api.ResendFailedMessage)))
  {
  }

  /**
   * The handler over the wire outcome, with the helper rethrowing its
   * failures: the countdown starts exactly when the server accepted the
   * resend, and a failure is toasted as an error with the helper's text.
   */
  function ResendOver(email: Option<string>, p: Page, reply: Api.HttpReply, now: int): (r: Resent)
    ensures r.requestSent <==> email.Some? && email.value != "" && p.cooldown <= 0
    ensures !r.requestSent ==> r.page == p
    ensures r.requestSent ==> (r.page == Page(CooldownSeconds, StartAt(now)) <==> reply.Ok?)
    ensures r.requestSent && reply.Failed? ==>
      r.page == p && r.toast == Some(ErrorToast(Api.HandleError(reply.error, Api.ResendFailedMessage)))
  {
    Resend(email, p, Api.RethrowMessage(reply, Api.ResendFailedMessage), now)
  }

  /** The whole seconds of `1000 * k + ms` are `k` when `ms` is below a second. */
  lemma WholeSeconds(e: int, k: nat, ms: nat)
    requires ms < MsPerSecond
    requires MsPerSecond * e <= MsPerSecond * k + ms < MsPerSecond * (e + 1)
    ensures e == k
  {
    assert MsPerSecond * (e - k) <= ms < MsPerSecond * (e - k + 1);
  }

  /**
   * The cooldown survives a reload: reopening the page `k` whole seconds
   * (and some milliseconds) after an accepted resend resumes at `60 - k`,
   * and at zero once the minute is over.
   */
  lemma ReloadResumesCooldown(email: Option<string>, p: Page, sentAt: int, k: nat, ms: nat)
    requires email.Some? && email.value != "" && p.cooldown <= 0
    requires ms < MsPerSecond
    ensures var stored := ResendOver(email, p, Api.Ok(""), sentAt).page.stored;
      var reopened := Open(email, stored, sentAt + MsPerSecond * k + ms);
      reopened.Shown? && reopened.page.cooldown == (if k < CooldownSeconds then CooldownSeconds - k else 0)
  {
    var e := ElapsedSeconds(sentAt + MsPerSecond * k + ms, sentAt);
    WholeSeconds(e, k, ms);
  }
}
