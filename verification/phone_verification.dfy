/**
 * The phone confirmation flow of the profile page
 * (`hooks/usePhoneVerification.ts`): the number pattern, sending a code,
 * the 300-second resend timer and checking the code. How the server calls
 * settle is an input.
 */
module PhoneVerification {
  import opened Strings

  const ResendSeconds := 300

  predicate IsDigit(c: char) { '0' <= c <= '9' }

  /** `0` followed by nine digits. */
  predicate LocalNumber(s: string) {
    |s| == 10 && s[0] == '0' && forall i :: 1 <= i < 10 ==> IsDigit(s[i])
  }

  /** `^(\+?38)?0\d{9}$`: an optional `38` or `+38`, then a local number. */
  predicate PhonePattern(s: string) {
    LocalNumber(s)
    || (|s| >= 2 && s[..2] == "38" && LocalNumber(s[2..]))
    || (|s| >= 3 && s[..3] == "+38" && LocalNumber(s[3..]))
  }

  /** Whether `s[k..]` is all ASCII digits, by a scan. */
  method AllDigitsFrom(s: string, k: nat) returns (ok: bool)
    ensures ok <==> forall i :: k <= i < |s| ==> IsDigit(s[i])
  {
    var i := k;
    while i < |s|
      invariant k <= i || |s| < k
      invariant forall j :: k <= j < i && j < |s| ==> IsDigit(s[j])
    {
      if !IsDigit(s[i]) {
        return false;
      }
      i := i + 1;
    }
    return true;
  }

  /**
   * The matcher: it skips the country prefix the text starts with, then
   * checks for a local number. It accepts exactly the texts of the pattern.
   */
  method MatchPhone(s: string) returns (ok: bool)
    ensures ok <==> PhonePattern(s)
  {
    var start := 0;
    if |s| >= 3 && s[..3] == "+38" {
      start := 3;
    } else if |s| >= 2 && s[..2] == "38" {
      start := 2;
    }
    if |s| - start != 10 || s[start] != '0' {
      return false;
    }
    ok := AllDigitsFrom(s, start + 1);
    assert start == 2 ==> s[2..][0] == s[2];
    assert start == 3 ==> s[3..][0] == s[3];
    assert forall i :: 1 <= i < 10 ==> s[start..][i] == s[start + i];
  }

  /** The state the hook keeps. */
  datatype PhoneState = PhoneState(phone: string, code: string, isVerifying: bool, isEditingPhone: bool, timer: int)

  /** `sendCode` returns the new state and whether a request went out. */
  datatype Sent = Sent(state: PhoneState, requestSent: bool)

  /**
   * `sendCode`: a number that does not match the pattern sends nothing and
   * changes nothing; otherwise the code is requested, and on success the
   * code field opens and the timer starts at 300 seconds.
   */
  function SendCode(s: PhoneState, succeeded: bool): (r: Sent)
    ensures r.requestSent <==> PhonePattern(s.phone)
    ensures !r.requestSent || !succeeded ==> r.state == s
    ensures r.requestSent && succeeded ==> r.state == s.(isVerifying := true, timer := ResendSeconds)
  {
    if !PhonePattern(s.phone) then Sent(s, false)
    else if succeeded then Sent(s.(isVerifying := true, timer := ResendSeconds), true)
    else Sent(s, true)
  }

  /** One tick of the timer: the next value, and whether the interval is cleared. */
  datatype Ticked = Ticked(timer: int, stopped: bool)

  /** A tick counts down by one, and at one or below sets zero and stops the interval. */
  function Tick(prev: int): (r: Ticked)
    ensures r.stopped <==> prev <= 1
    ensures r.stopped ==> r.timer == 0
    ensures !r.stopped ==> r.timer == prev - 1 && r.timer >= 1
  {
    if prev <= 1 then Ticked(0, true) else Ticked(prev - 1, false)
  }

  /** The timer after `n` ticks; the interval only runs while the timer is positive. */
  function AfterTicks(timer: int, n: nat): int
    decreases n
  {
    if n == 0 || timer <= 0 then timer else AfterTicks(Tick(timer).timer, n - 1)
  }

  /** From a positive start, `n` ticks leave `start - n` seconds, never less than zero. */
  lemma {:induction false} AfterTicksCountsDown(start: nat, n: nat)
    ensures AfterTicks(start, n) == if n >= start then 0 else start - n
    decreases n
  {
    if n > 0 && start > 0 {
      AfterTicksCountsDown(Tick(start).timer, n - 1);
    }
  }

  /** The resend timer reaches zero after exactly 300 ticks. */
  lemma ResendTimerRunsFiveMinutes()
    ensures AfterTicks(ResendSeconds, ResendSeconds - 1) == 1
    ensures AfterTicks(ResendSeconds, ResendSeconds) == 0
  {
    AfterTicksCountsDown(ResendSeconds, ResendSeconds - 1);
    AfterTicksCountsDown(ResendSeconds, ResendSeconds);
  }

  /** How `verifyCode`'s two requests settled: the check, then the profile reload. */
  datatype VerifyOutcome = CheckFailed | ReloadFailed | BothSucceeded

  /** `verifyCode` returns the new state and whether the check was requested. */
  datatype Verified = Verified(state: PhoneState, requestSent: bool)

  /**
   * `verifyCode`: a blank code sends nothing; otherwise the code is checked
   * and the profile reloaded, and only when both succeed the flow closes
   * and the code field is cleared.
   */
  function VerifyCode(s: PhoneState, outcome: VerifyOutcome): (r: Verified)
    ensures r.requestSent <==> !AllSpaces(s.code)
    ensures !r.requestSent || outcome != BothSucceeded ==> r.state == s
    ensures r.requestSent && outcome == BothSucceeded ==>
      r.state == s.(isVerifying := false, isEditingPhone := false, code := "")
  {
    if Trim(s.code) == "" then Verified(s, false)
    else if outcome == BothSucceeded then Verified(s.(isVerifying := false, isEditingPhone := false, code := ""), true)
    else Verified(s, true)
  }

  /**
   * A check that succeeds followed by a failed profile reload leaves the
   * flow open, though the server has already accepted the code.
   */
  lemma ReloadFailureKeepsFlowOpen(s: PhoneState)
    requires !AllSpaces(s.code) && s.isVerifying
    ensures VerifyCode(s, ReloadFailed).state.isVerifying
  {
  }

  /** A confirmed number cannot be confirmed again without a new code: the code field is empty afterwards. */
  lemma VerifiedThenBlank(s: PhoneState, outcome: VerifyOutcome)
    requires !AllSpaces(s.code)
    ensures var t := VerifyCode(s, BothSucceeded).state;
      !VerifyCode(t, outcome).requestSent && VerifyCode(t, outcome).state == t
  {
  }
}
