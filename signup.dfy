/**
 * The sign-up form of src/components/SignupModal/SignupModal.js,
 * src/pages/SignUp/SignupModal.js and src/components/SignupModal.js: the
 * five password rules shown under the field, and the order in which the
 * submit handler checks the email, the rules and the confirmation before it
 * sends anything.
 */
module Signup {
  import opened JsText

  // ---------------------------------------------------------------------------
  // Password rules

  /** The object `validatePassword(password)` returns. */
  datatype PasswordChecks = PasswordChecks(
    isLongEnough: bool, hasUpperCase: bool, hasLowerCase: bool, hasNumber: bool, hasSpecialChar: bool)

  /** The class `[!@#$%^&*(),.?":{}|<>]`. */
  const SpecialChars := "!@#$%^&*(),.?\":{}|<>"

  /** `/[lo-hi]/.test(s)`: some character of `s` lies in the range. */
  function HasCharIn(s: string, lo: char, hi: char): (b: bool)
    ensures b <==> exists i :: 0 <= i < |s| && lo <= s[i] <= hi
  {
    if s == [] then false
    else if lo <= s[0] <= hi then true
    else
      assert forall i :: 1 <= i < |s| ==> s[i] == s[1..][i - 1];
      HasCharIn(s[1..], lo, hi)
  }

  /** `/[chars]/.test(s)`: some character of `s` is in `chars`. */
  function HasCharOf(s: string, chars: string): (b: bool)
    ensures b <==> exists i :: 0 <= i < |s| && s[i] in chars
  {
    if s == [] then false
    else if s[0] in chars then true
    else
      assert forall i :: 1 <= i < |s| ==> s[i] == s[1..][i - 1];
      HasCharOf(s[1..], chars)
  }

  /** `validatePassword(password)`; `password.length` counts UTF-16 code
      units. */
  function ValidatePassword(password: string): (v: PasswordChecks)
    ensures v.isLongEnough <==> Utf16Length(password) >= 8
    ensures v.hasUpperCase <==> exists i :: 0 <= i < |password| && 'A' <= password[i] <= 'Z'
    ensures v.hasLowerCase <==> exists i :: 0 <= i < |password| && 'a' <= password[i] <= 'z'
    ensures v.hasNumber <==> exists i :: 0 <= i < |password| && '0' <= password[i] <= '9'
    ensures v.hasSpecialChar <==> exists i :: 0 <= i < |password| && password[i] in SpecialChars
  {
    PasswordChecks(
      Utf16Length(password) >= 8,
      HasCharIn(password, 'A', 'Z'),
      HasCharIn(password, 'a', 'z'),
      HasCharIn(password, '0', '9'),
      HasCharOf(password, SpecialChars))
  }

  /** The explicit guard of the two component copies: every flag holds. */
  predicate AllRulesMet(v: PasswordChecks) {
    v.isLongEnough && v.hasUpperCase && v.hasLowerCase && v.hasNumber && v.hasSpecialChar
  }

  /** `Object.values(checks)`, in declaration order. */
  function FlagValues(v: PasswordChecks): seq<bool> {
    [v.isLongEnough, v.hasUpperCase, v.hasLowerCase, v.hasNumber, v.hasSpecialChar]
  }

  /** `values.every(Boolean)` */
  function Every(values: seq<bool>): (b: bool)
    ensures b <==> forall i :: 0 <= i < |values| ==> values[i]
  {
    if values == [] then true
    else
      assert forall i :: 1 <= i < |values| ==> values[i] == values[1..][i - 1];
      values[0] && Every(values[1..])
  }

  /** The guard of src/pages/SignUp/SignupModal.js,
      `Object.values(passwordValidation).every(Boolean)`, is the same
      conjunction the other copies spell out. */
  lemma EveryIsConjunction(v: PasswordChecks)
    ensures Every(FlagValues(v)) <==> AllRulesMet(v)
  {
    var f := FlagValues(v);
    assert f[0] == v.isLongEnough && f[1] == v.hasUpperCase && f[2] == v.hasLowerCase;
    assert f[3] == v.hasNumber && f[4] == v.hasSpecialChar;
  }

  /** A password `length` check of 8 units leaves at least 4 characters. */
  lemma PasswordLengthFloor(password: string)
    requires ValidatePassword(password).isLongEnough
    ensures |password| >= 4
  {
    assert Utf16Length(password) <= 2 * |password|;
  }

  /** A password that meets every rule is at least 8 UTF-16 units long
      (so at least 4 characters), and one of its characters is not a letter
      or a digit. */
  lemma {:induction false} StrongPasswordShape(password: string)
    requires AllRulesMet(ValidatePassword(password))
    ensures Utf16Length(password) >= 8 && |password| >= 4
    ensures exists i :: 0 <= i < |password| && !('A' <= password[i] <= 'Z') && !('a' <= password[i] <= 'z')
                        && !('0' <= password[i] <= '9')
  {
    PasswordLengthFloor(password);
    SpecialIsNotAlphanumeric(password);
  }

  /** Every special character lies outside the letter and digit ranges. */
  lemma SpecialIsNotAlphanumeric(password: string)
    requires exists i :: 0 <= i < |password| && password[i] in SpecialChars
    ensures exists i :: 0 <= i < |password| && !('A' <= password[i] <= 'Z') && !('a' <= password[i] <= 'z')
                        && !('0' <= password[i] <= '9')
  {
    var i :| 0 <= i < |password| && password[i] in SpecialChars;
    assert forall k :: 0 <= k < |SpecialChars| ==>
      (SpecialChars[k] < '0' || ('9' < SpecialChars[k] < 'A') || ('Z' < SpecialChars[k] < 'a') || 'z' < SpecialChars[k]);
  }

  // ---------------------------------------------------------------------------
  // The submit guards

  const EmailMissing := "이메일을 입력하세요."
  const RulesNotMet := "비밀번호가 모든 조건을 만족해야 합니다."
  const Mismatch := "비밀번호가 일치하지 않습니다."
  const UnknownError := "알 수 없는 오류가 발생했습니다."

  /** The message the submit handler stops with, or `None` when it goes on
      to send the request. */
  function SignupGuard(email: string, password: string, confirmPassword: string): (r: Option<string>)
    ensures r == Some(EmailMissing) <==> email == []
    ensures r == Some(RulesNotMet) <==> email != [] && !AllRulesMet(ValidatePassword(password))
    ensures r == Some(Mismatch) <==>
              email != [] && AllRulesMet(ValidatePassword(password)) && password != confirmPassword
    ensures r.None? <==> email != [] && AllRulesMet(ValidatePassword(password)) && password == confirmPassword
  {
    if email == [] then Some(EmailMissing)
    else if !AllRulesMet(ValidatePassword(password)) then Some(RulesNotMet)
    else if password != confirmPassword then Some(Mismatch)
    else None
  }

  /** Passing the guard means the password is strong and confirmed. */
  lemma GuardPassed(email: string, password: string, confirmPassword: string)
    requires SignupGuard(email, password, confirmPassword).None?
    ensures Utf16Length(password) >= 8 && password == confirmPassword && email != []
  {
  }

  /** Length is counted in UTF-16 units: six characters, two of them emoji
      outside the Basic Multilingual Plane, make a long enough password, and
      this one meets every rule. */
  lemma EmojiPasswordLongEnough()
    ensures var p := "\U{1F600}\U{1F600}Aa1!";
            |p| == 6 && ValidatePassword(p).isLongEnough && AllRulesMet(ValidatePassword(p))
  {
    var e := "\U{1F600}\U{1F600}";
    var t := "Aa1!";
    var p := "\U{1F600}\U{1F600}Aa1!";
    assert p == e + t;
    Utf16LengthOfPair('\U{1F600}', '\U{1F600}');
    Utf16LengthOfBmp(t);
    Utf16LengthAppend(e, t);
    assert p[2] == 'A' && p[3] == 'a' && p[4] == '1' && p[5] == '!';
    assert SpecialChars[0] == '!';
  }

  /** How a request ended. A failure carries `e.response.data.detail`,
      `e.response.data.message` and `e.message`, each the empty string when
      absent. */
  datatype Outcome = Succeeded | Failed(detail: string, message: string, errorMessage: string)

  /** `detail || message || e.message || '알 수 없는 오류가 발생했습니다.'` */
  function FailureText(detail: string, message: string, errorMessage: string): (t: string)
    ensures t != []
    ensures detail != [] ==> t == detail
    ensures detail == [] && message != [] ==> t == message
    ensures detail == [] && message == [] && errorMessage != [] ==> t == errorMessage
  {
    if detail != [] then detail
    else if message != [] then message
    else if errorMessage != [] then errorMessage
    else UnknownError
  }

  /** A request the form sent. */
  datatype Request =
    | SignupRequest(email: string, password: string, passwordConfirm: string)
    | ConfirmRequest(email: string, code: string)

  /**
   * The form's state in src/components/SignupModal/SignupModal.js and
   * src/pages/SignUp/SignupModal.js. `sent` records the requests made, so
   * that "no request" can be stated; the network's answer is a parameter.
   */
  class SignupModal {
    var email: string
    var password: string
    var confirmPassword: string
    var confirmCode: string
    var error: string
    var isLoading: bool
    var showConfirm: bool
    var confirmError: string
    var confirmSuccess: bool
    var sent: seq<Request>

    /** The `useState` initial values. */
    constructor ()
      ensures email == [] && password == [] && confirmPassword == [] && confirmCode == []
      ensures error == [] && !isLoading && !showConfirm && confirmError == [] && !confirmSuccess
      ensures sent == []
    {
      email, password, confirmPassword, confirmCode := [], [], [], [];
      error, isLoading, showConfirm := [], false, false;
      confirmError, confirmSuccess := [], false;
      sent := [];
    }

    /** The `onChange` handlers of the three fields. */
    method Edit(newEmail: string, newPassword: string, newConfirm: string)
      modifies this
      ensures email == newEmail && password == newPassword && confirmPassword == newConfirm
      ensures confirmCode == old(confirmCode) && error == old(error) && isLoading == old(isLoading)
      ensures showConfirm == old(showConfirm) && confirmError == old(confirmError)
      ensures confirmSuccess == old(confirmSuccess) && sent == old(sent)
    {
      email, password, confirmPassword := newEmail, newPassword, newConfirm;
    }

    /** The `onChange` handler of the confirmation-code field. */
    method EditCode(code: string)
      modifies this
      ensures confirmCode == code
      ensures email == old(email) && password == old(password) && confirmPassword == old(confirmPassword)
      ensures error == old(error) && isLoading == old(isLoading) && showConfirm == old(showConfirm)
      ensures confirmError == old(confirmError) && confirmSuccess == old(confirmSuccess) && sent == old(sent)
    {
      confirmCode := code;
    }

    /** `handleSignup`: the error is cleared; the first failing guard sets
        its message and nothing is sent; otherwise the sign-up request goes
        out, success opens the confirmation step and failure reports the
        reason; `finally` clears the loading flag. */
    method HandleSignup(outcome: Outcome)
      modifies this
      ensures email == old(email) && password == old(password) && confirmPassword == old(confirmPassword)
      ensures confirmCode == old(confirmCode) && confirmError == old(confirmError)
      ensures confirmSuccess == old(confirmSuccess)
      ensures var g := SignupGuard(email, password, confirmPassword);
              match g
              case Some(msg) =>
                error == msg && sent == old(sent) && isLoading == old(isLoading) && showConfirm == old(showConfirm)
              case None =>
                && sent == old(sent) + [SignupRequest(email, password, confirmPassword)]
                && !isLoading
                && (outcome.Succeeded? ==> showConfirm && error == [])
                && (outcome.Failed? ==>
                      showConfirm == old(showConfirm)
                      && error == "회원가입 실패: " + FailureText(outcome.detail, outcome.message, outcome.errorMessage))
    {
      error := "";
      if email == [] {
        error := EmailMissing;
        return;
      }
      var v := ValidatePassword(password);
      if !v.isLongEnough || !v.hasUpperCase || !v.hasLowerCase || !v.hasNumber || !v.hasSpecialChar {
        error := RulesNotMet;
        return;
      }
      if password != confirmPassword {
        error := Mismatch;
        return;
      }
      isLoading := true;
      sent := sent + [SignupRequest(email, password, confirmPassword)];
      match outcome {
        case Succeeded =>
          showConfirm := true;
        case Failed(detail, message, errorMessage) =>
          error := "회원가입 실패: " + FailureText(detail, message, errorMessage);
      }
      isLoading := false;
    }

    /** `handleConfirm`: the confirmation code is sent unconditionally;
        success marks the account confirmed, failure reports the reason. */
    method HandleConfirm(outcome: Outcome)
      modifies this
      ensures email == old(email) && password == old(password) && confirmPassword == old(confirmPassword)
      ensures confirmCode == old(confirmCode) && error == old(error) && showConfirm == old(showConfirm)
      ensures sent == old(sent) + [ConfirmRequest(email, confirmCode)]
      ensures !isLoading
      ensures outcome.Succeeded? ==> confirmSuccess && confirmError == []
      ensures outcome.Failed? ==>
                confirmSuccess == old(confirmSuccess)
                && confirmError == "인증 실패: " + FailureText(outcome.detail, outcome.message, outcome.errorMessage)
    {
      confirmError := "";
      isLoading := true;
      sent := sent + [ConfirmRequest(email, confirmCode)];
      match outcome {
        case Succeeded =>
          confirmSuccess := true;
        case Failed(detail, message, errorMessage) =>
          confirmError := "인증 실패: " + FailureText(detail, message, errorMessage);
      }
      isLoading := false;
    }
  }

  /**
   * src/components/SignupModal.js: the same guards, but no request. When
   * they pass the form shows the loading state, and a 1.2 s timer (the
   * separate `TimerFires` step) clears it and closes the modal.
   */
  class LocalSignupModal {
    var email: string
    var password: string
    var confirmPassword: string
    var error: string
    var isLoading: bool
    var closed: bool

    constructor ()
      ensures email == [] && password == [] && confirmPassword == []
      ensures error == [] && !isLoading && !closed
    {
      email, password, confirmPassword := [], [], [];
      error, isLoading, closed := [], false, false;
    }

    /** `handleSignup`; returns whether the timer was started. */
    method HandleSignup() returns (timerStarted: bool)
      modifies this
      ensures email == old(email) && password == old(password) && confirmPassword == old(confirmPassword)
      ensures closed == old(closed)
      ensures timerStarted <==> SignupGuard(email, password, confirmPassword).None?
      ensures timerStarted ==> isLoading && error == []
      ensures !timerStarted ==> error == SignupGuard(email, password, confirmPassword).value
                                && isLoading == old(isLoading)
    {
      error := "";
      if email == [] {
        error := EmailMissing;
        return false;
      }
      var v := ValidatePassword(password);
      if !v.isLongEnough || !v.hasUpperCase || !v.hasLowerCase || !v.hasNumber || !v.hasSpecialChar {
        error := RulesNotMet;
        return false;
      }
      if password != confirmPassword {
        error := Mismatch;
        return false;
      }
      isLoading := true;
      return true;
    }

    /** The timer callback: loading ends and the modal closes. */
    method TimerFires()
      modifies this
      ensures email == old(email) && password == old(password) && confirmPassword == old(confirmPassword)
      ensures error == old(error)
      ensures !isLoading && closed
    {
      isLoading := false;
      closed := true;
    }
  }
}
