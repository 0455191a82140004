/**
 * The logic of the login page script (`frontend/src/script.js`) that does not
 * depend on the DOM: the password-strength score and its meter, the signup
 * and reset-form validation, the one-time-code format check and the state of
 * the three-step forgot-password dialog.
 */
module LoginPage {
  import opened Wrappers
  import opened Text
  import opened EmailFormat
  import AuthMemory

  // ---------------------------------------------------------------- password strength

  /** The five checks, in the order the page lists them. */
  datatype Check = Length | Upper | Lower | Number | Special
  {
    /** The i18n key of the hint shown when the check fails. */
    function HintKey(): string {
      match this
      case Length => "strength.hint_length"
      case Upper => "strength.hint_upper"
      case Lower => "strength.hint_lower"
      case Number => "strength.hint_number"
      case Special => "strength.hint_special"
    }

    /** The position of the check in the page's list. */
    function Rank(): nat {
      match this
      case Length => 0
      case Upper => 1
      case Lower => 2
      case Number => 3
      case Special => 4
    }
  }

  const CHECKS: seq<Check> := [Length, Upper, Lower, Number, Special]

  /** `/.{8,}/`: eight consecutive characters none of which ends a line. */
  predicate LongEnough(pw: string) {
    exists i: nat | i <= |pw| :: CleanRun(pw, i)
  }

  predicate CleanRun(pw: string, i: nat) {
    i + 8 <= |pw| && NoLineTerminator(pw[i..i + 8])
  }

  predicate IsOther(c: char) { !IsAsciiUpper(c) && !IsAsciiLower(c) && !IsAsciiDigit(c) }

  /** `c.regex.test(password)` */
  predicate Passes(c: Check, pw: string) {
    match c
    case Length => LongEnough(pw)
    case Upper => exists i | 0 <= i < |pw| :: IsAsciiUpper(pw[i])
    case Lower => exists i | 0 <= i < |pw| :: IsAsciiLower(pw[i])
    case Number => exists i | 0 <= i < |pw| :: IsAsciiDigit(pw[i])
    case Special => exists i | 0 <= i < |pw| :: IsOther(pw[i])
  }

  /** `checks.filter(c => c.regex.test(password))` */
  function Passed(cs: seq<Check>, pw: string): (r: seq<Check>)
    ensures forall c :: c in r <==> c in cs && Passes(c, pw)
  {
    if cs == [] then [] else (if Passes(cs[0], pw) then [cs[0]] else []) + Passed(cs[1..], pw)
  }

  /** `checks.filter(c => !c.regex.test(password))` */
  function Failed(cs: seq<Check>, pw: string): (r: seq<Check>)
    ensures forall c :: c in r <==> c in cs && !Passes(c, pw)
  {
    if cs == [] then [] else (if Passes(cs[0], pw) then [] else [cs[0]]) + Failed(cs[1..], pw)
  }

  /** Every check is either passed or failed. */
  lemma {:induction false} PassedPlusFailed(cs: seq<Check>, pw: string)
    ensures |Passed(cs, pw)| + |Failed(cs, pw)| == |cs|
  {
    if cs != [] {
      PassedPlusFailed(cs[1..], pw);
    }
  }

  /** The checks appear in the page's order. */
  predicate InListOrder(cs: seq<Check>) {
    forall i, j | 0 <= i < j < |cs| :: cs[i].Rank() < cs[j].Rank()
  }

  /** The filter keeps the order of the list it filters. */
  lemma {:induction false} FailedKeepsOrder(cs: seq<Check>, pw: string)
    requires InListOrder(cs)
    ensures InListOrder(Failed(cs, pw))
  {
    if cs != [] {
      FailedKeepsOrder(cs[1..], pw);
      var f := Failed(cs, pw);
      var rest := Failed(cs[1..], pw);
      forall k | 0 <= k < |rest|
        ensures cs[0].Rank() < rest[k].Rank()
      {
        assert rest[k] in cs[1..];
        var j :| 0 <= j < |cs[1..]| && cs[1..][j] == rest[k];
        assert cs[j + 1] == rest[k];
      }
      assert InListOrder(rest);
      if !Passes(cs[0], pw) {
        assert f == [cs[0]] + rest;
        forall i, j | 0 <= i < j < |f|
          ensures f[i].Rank() < f[j].Rank()
        {
          assert f[j] == rest[j - 1];
          if i == 0 {
            assert f[0] == cs[0];
            assert cs[0].Rank() < rest[j - 1].Rank();
          } else {
            assert f[i] == rest[i - 1];
            assert rest[i - 1].Rank() < rest[j - 1].Rank();
          }
        }
      }
    }
  }

  datatype Strength = Strength(score: nat, failed: seq<Check>)

  /** `evaluatePasswordStrength`: the score is the number of passed checks, `failed` the rest in list order. */
  function Evaluate(pw: string): (r: Strength)
    ensures r.score + |r.failed| == |CHECKS| == 5
    ensures forall c :: c in r.failed <==> !Passes(c, pw)
    ensures InListOrder(r.failed)
  {
    PassedPlusFailed(CHECKS, pw);
    FailedKeepsOrder(CHECKS, pw);
    AllChecksListed();
    Strength(|Passed(CHECKS, pw)|, Failed(CHECKS, pw))
  }

  lemma AllChecksListed()
    ensures forall c: Check :: c in CHECKS
  {
    forall c: Check
      ensures c in CHECKS
    {
      assert CHECKS[c.Rank()] == c;
    }
  }

  lemma {:induction false} PassingCheckCounts(cs: seq<Check>, pw: string, c: Check)
    requires c in cs && Passes(c, pw)
    ensures |Passed(cs, pw)| >= 1
  {
    if cs[0] != c {
      PassingCheckCounts(cs[1..], pw, c);
    }
  }

  /**
   * Every character is an upper-case letter, a lower-case letter, a digit or
   * "other", so any non-empty password scores at least 1.
   */
  lemma NonEmptyScoresOne(pw: string)
    requires pw != []
    ensures Evaluate(pw).score >= 1
  {
    var c := pw[0];
    var check := if IsAsciiUpper(c) then Upper else if IsAsciiLower(c) then Lower else if IsAsciiDigit(c) then Number else Special;
    assert Passes(check, pw);
    assert CHECKS[check.Rank()] == check;
    PassingCheckCounts(CHECKS, pw, check);
  }

  /** Without line breaks the length check is simply "at least 8 characters". */
  lemma LongEnoughPlain(pw: string)
    requires NoLineTerminator(pw)
    ensures LongEnough(pw) <==> |pw| >= 8
  {
    if |pw| >= 8 {
      assert CleanRun(pw, 0);
    }
  }

  /** A meter level: its i18n key and how many of the four bars it lights. */
  datatype Level = Level(key: string, bars: nat)

  const STRENGTH_CONFIG: seq<Level> := [
    Level("strength.very_weak", 1), Level("strength.weak", 2), Level("strength.fair", 3),
    Level("strength.strong", 4), Level("strength.very_strong", 4)
  ]

  /** `Math.max(0, Math.min(score - 1, 4))` */
  function StrengthIndex(score: int): (idx: nat)
    ensures idx < |STRENGTH_CONFIG|
    ensures 1 <= score <= 5 ==> idx == score - 1
  {
    if score - 1 < 0 then 0 else if score - 1 > 4 then 4 else score - 1
  }

  /** What the meter shows: nothing for an empty password, else the level's key, the lit bars and the failed hints. */
  datatype Meter = Meter(labelKey: string, litBars: nat, hints: seq<string>)

  function HintKeys(cs: seq<Check>): (r: seq<string>)
    ensures |r| == |cs| && forall i | 0 <= i < |cs| :: r[i] == cs[i].HintKey()
  {
    if cs == [] then [] else [cs[0].HintKey()] + HintKeys(cs[1..])
  }

  /** Distinct checks have distinct hints, so a hint is listed exactly when its check is. */
  lemma {:induction false} HintListed(cs: seq<Check>)
    ensures forall c: Check :: c.HintKey() in HintKeys(cs) <==> c in cs
  {
    forall c: Check
      ensures c.HintKey() in HintKeys(cs) <==> c in cs
    {
      var hs := HintKeys(cs);
      if c.HintKey() in hs {
        var i :| 0 <= i < |hs| && hs[i] == c.HintKey();
        assert cs[i].HintKey() == c.HintKey();
        assert cs[i] == c;
      }
      if c in cs {
        var i :| 0 <= i < |cs| && cs[i] == c;
        assert hs[i] == c.HintKey();
      }
    }
  }

  /** `updateStrengthMeter`: hidden for an empty password; otherwise `min(score, 4)` lit bars and one hint per failed check. */
  function StrengthMeter(pw: string): (m: Option<Meter>)
    ensures m.None? <==> pw == []
    ensures m.Some? ==> var s := Evaluate(pw).score;
                        && 1 <= s <= 5
                        && m.value.litBars == (if s < 4 then s else 4)
                        && m.value.labelKey == STRENGTH_CONFIG[s - 1].key
                        && |m.value.hints| == 5 - s
    ensures m.Some? ==> m.value.hints == HintKeys(Evaluate(pw).failed)
  {
    if pw == [] then None
    else
      NonEmptyScoresOne(pw);
      var s := Evaluate(pw);
      var level := STRENGTH_CONFIG[StrengthIndex(s.score)];
      Some(Meter(level.key, level.bars, HintKeys(s.failed)))
  }

  /** The meter shows a check's hint exactly when the password fails that check. */
  lemma MeterHintsFailures(pw: string, c: Check)
    requires pw != []
    ensures c.HintKey() in StrengthMeter(pw).value.hints <==> !Passes(c, pw)
  {
    HintListed(Evaluate(pw).failed);
  }

  // ---------------------------------------------------------------- form validation

  /** The outcome of the signup form's checks, in order, with the i18n key of the message shown. */
  datatype SignupVerdict = Refuse(key: string) | Send(username: string, password: string, fullName: string, email: string)

  /** The signup submit handler before the request: names and e-mail are trimmed, passwords are not. */
  function SignupCheck(fullNameIn: string, emailIn: string, usernameIn: string, password: string, confirm: string): (v: SignupVerdict)
    ensures v.Send? <==>
              && Trim(fullNameIn) != [] && Trim(emailIn) != [] && Trim(usernameIn) != [] && password != [] && confirm != []
              && ValidEmail(Trim(emailIn)) && password == confirm && Evaluate(password).score >= 3
    ensures v.Send? ==> v == Send(Trim(usernameIn), password, Trim(fullNameIn), Trim(emailIn))
    ensures v == Refuse("msg.fill_all") <==>
              Trim(fullNameIn) == [] || Trim(emailIn) == [] || Trim(usernameIn) == [] || password == [] || confirm == []
    ensures v == Refuse("msg.email_invalid") <==>
              && Trim(fullNameIn) != [] && Trim(emailIn) != [] && Trim(usernameIn) != [] && password != [] && confirm != []
              && !ValidEmail(Trim(emailIn))
    ensures v == Refuse("msg.passwords_mismatch") <==>
              && Trim(fullNameIn) != [] && Trim(emailIn) != [] && Trim(usernameIn) != [] && password != [] && confirm != []
              && ValidEmail(Trim(emailIn)) && password != confirm
    ensures v == Refuse("msg.password_weak") <==>
              && Trim(fullNameIn) != [] && Trim(emailIn) != [] && Trim(usernameIn) != [] && password != [] && confirm != []
              && ValidEmail(Trim(emailIn)) && password == confirm && Evaluate(password).score < 3
  {
    var fullName, email, username := Trim(fullNameIn), Trim(emailIn), Trim(usernameIn);
    if fullName == [] || email == [] || username == [] || password == [] || confirm == [] then Refuse("msg.fill_all")
    else if !ValidEmail(email) then Refuse("msg.email_invalid")
    else if password != confirm then Refuse("msg.passwords_mismatch")
    else if Evaluate(password).score < 3 then Refuse("msg.password_weak")
    else Send(username, password, fullName, email)
  }

  /** `!otp || otp.length !== 6 || !/^\d{6}$/.test(otp)` on the trimmed input, negated. */
  predicate OtpAccepted(raw: string) {
    var otp := Trim(raw);
    |otp| == 6 && AllDigits(otp)
  }

  lemma TrimDigits(s: string)
    requires s != [] && AllDigits(s)
    ensures Trim(s) == s
  {
    assert !IsJsSpace(s[0]);
    assert TrimStart(s) == s;
    assert !IsJsSpace(s[|s| - 1]);
  }

  /** Every code the server generates passes the page's format check. */
  lemma GeneratedCodeAccepted(draw: nat)
    requires draw < 900000
    ensures OtpAccepted(AuthMemory.OtpCode(draw))
  {
    TrimDigits(AuthMemory.OtpCode(draw));
  }

  /** Padding around the code is forgiven; anything else in it is refused. */
  lemma OtpWithLetterRefused(raw: string, i: nat)
    requires i < |Trim(raw)| && !IsAsciiDigit(Trim(raw)[i])
    ensures !OtpAccepted(raw)
  {
  }

  // ---------------------------------------------------------------- the forgot-password dialog

  datatype Dot = Done | Current | Pending

  /** `forgotSetStep`: dot `i` (from 0) is done before the step, current at it, pending after. */
  function DotState(i: nat, step: int): (d: Dot)
    ensures d == Done <==> i + 1 < step
    ensures d == Current <==> i + 1 == step
  {
    if i + 1 < step then Done else if i + 1 == step then Current else Pending
  }

  predicate PanelVisible(i: nat, step: int) { i + 1 == step }

  /** Progress bar `k` (1 or 2) is filled once the step is past it. */
  predicate BarFilled(k: nat, step: int) { step > k }

  /** For each of the three steps exactly one panel shows, its dot is the current one, and a bar is filled iff the dot before it is done. */
  lemma StepViewConsistent(step: int)
    requires 1 <= step <= 3
    ensures forall i: nat | i < 3 :: PanelVisible(i, step) <==> i == step - 1
    ensures forall i: nat | i < 3 :: PanelVisible(i, step) <==> DotState(i, step) == Current
    ensures forall k: nat | 1 <= k <= 2 :: BarFilled(k, step) <==> DotState(k - 1, step) == Done
  {
  }

  /** What a dialog button did: refused locally with a message key, showed the server's message, or moved on. */
  datatype Outcome = Refused(key: string) | ServerSaid(message: string) | Advanced(shown: string)

  /** The step-3 submit checks: no reset token first, then the same form rules as signup. */
  function ResetFormCheck(token: Option<string>, newPassword: string, confirm: string): (v: Result<(string, string)>)
    ensures v.Ok? <==> token.Some? && token.value != [] && newPassword != [] && confirm != []
                       && newPassword == confirm && Evaluate(newPassword).score >= 3
    ensures v.Ok? ==> v.value == (token.value, newPassword)
    ensures v == Fail(0, "msg.session_expired") <==> token.None? || token.value == []
  {
    if token.None? || token.value == [] then Fail(0, "msg.session_expired")
    else if newPassword == [] || confirm == [] then Fail(0, "msg.fill_all")
    else if newPassword != confirm then Fail(0, "msg.passwords_mismatch")
    else if Evaluate(newPassword).score < 3 then Fail(0, "msg.password_weak")
    else Ok((token.value, newPassword))
  }

  /**
   * The module variables `forgotEmail` and `forgotResetToken` and the step
   * the dialog shows. Server replies are parameters: the answer to
   * `check-username` and to `verify-otp`.
   */
  class ForgotFlow {
    var email: Option<string>
    var resetToken: Option<string>
    var step: nat

    /** Step 2 is only shown with an e-mail stored, step 3 only with a reset token, and a token only comes after an e-mail. */
    ghost predicate Valid()
      reads this
    {
      && 1 <= step <= 3
      && (step >= 2 ==> email.Some?)
      && (step == 3 ==> resetToken.Some?)
      && (resetToken.Some? ==> email.Some?)
    }

    constructor ()
      ensures Valid() && email.None? && resetToken.None? && step == 1
    {
      email, resetToken, step := None, None, 1;
    }

    /** `forgotResetToStep1`, run on opening and on closing the dialog. */
    method ResetToStep1()
      modifies this
      ensures Valid() && email.None? && resetToken.None? && step == 1
    {
      email, resetToken, step := None, None, 1;
    }

    /** The back button of step 2: back to step 1, nothing forgotten. */
    method BackToStep1()
      requires Valid()
      modifies this`step
      ensures Valid() && step == 1
    {
      step := 1;
    }

    /** The back button of step 3, only on screen at step 3. */
    method BackToStep2()
      requires Valid() && step == 3
      modifies this`step
      ensures Valid() && step == 2
    {
      step := 2;
    }

    /** Step 1's button: the trimmed e-mail is checked, then sent; only a success stores it and moves to step 2. */
    method SendOtp(raw: string, reply: Result<string>) returns (o: Outcome)
      requires Valid()
      modifies this`email, this`step
      ensures Valid()
      ensures Trim(raw) == [] ==> o == Refused("msg.enter_email")
      ensures Trim(raw) != [] && !ValidEmail(Trim(raw)) ==> o == Refused("msg.enter_valid_email")
      ensures o.Advanced? <==> Trim(raw) != [] && ValidEmail(Trim(raw)) && reply.Ok?
      ensures o.Advanced? ==> email == Some(Trim(raw)) && step == 2 && o.shown == reply.value
      ensures !o.Advanced? ==> email == old(email) && step == old(step)
    {
      var e := Trim(raw);
      if e == [] {
        return Refused("msg.enter_email");
      }
      if !ValidEmail(e) {
        return Refused("msg.enter_valid_email");
      }
      if reply.Fail? {
        return ServerSaid(reply.message);
      }
      email := Some(e);
      step := 2;
      o := Advanced(reply.value);
    }

    /**
     * Step 2's button: the code must be six digits; a success stores the
     * reset token and moves to step 3. The server refuses a request without
     * an e-mail, so no token arrives while none is stored.
     */
    method VerifyOtp(raw: string, reply: Result<string>) returns (o: Outcome)
      requires Valid()
      requires email.None? ==> reply.Fail?
      modifies this`resetToken, this`step
      ensures Valid()
      ensures !OtpAccepted(raw) ==> o == Refused("msg.enter_otp")
      ensures o.Advanced? <==> OtpAccepted(raw) && reply.Ok?
      ensures o.Advanced? ==> resetToken == Some(reply.value) && step == 3
      ensures !o.Advanced? ==> resetToken == old(resetToken) && step == old(step)
    {
      if !OtpAccepted(raw) {
        return Refused("msg.enter_otp");
      }
      if reply.Fail? {
        return ServerSaid(reply.message);
      }
      resetToken := Some(reply.value);
      step := 3;
      o := Advanced(email.value);
    }

    /** Step 3's submit: what would be sent to `reset-password`, if anything. */
    function Submit(newPassword: string, confirm: string): (v: Result<(string, string)>)
      reads this
      ensures v.Ok? ==> resetToken.Some? && v.value.0 == resetToken.value && v.value.1 == newPassword
    {
      ResetFormCheck(resetToken, newPassword, confirm)
    }
  }

  /** Going through the dialog from the start: the e-mail, then a six-digit code, then a token that submit sends. */
  method ForgotHappyPath(rawEmail: string, draw: nat, token: string, pw: string) returns (sent: Result<(string, string)>)
    requires ValidEmail(Trim(rawEmail)) && Trim(rawEmail) != [] && draw < 900000 && token != []
    requires pw != [] && Evaluate(pw).score >= 3
    ensures sent == Ok((token, pw))
  {
    var flow := new ForgotFlow();
    var o1 := flow.SendOtp(rawEmail, Ok("OTP sent"));
    assert o1.Advanced? && flow.email.Some? && flow.step == 2;
    var code := AuthMemory.OtpCode(draw);
    GeneratedCodeAccepted(draw);
    assert OtpAccepted(code);
    var o2 := flow.VerifyOtp(code, Ok(token));
    assert o2.Advanced? && flow.resetToken == Some(token);
    sent := flow.Submit(pw, pw);
    assert sent == ResetFormCheck(Some(token), pw, pw);
  }
}
