/**
 * The login form of src/components/LoginModal/LoginModal.js,
 * src/pages/Login/LoginModal.js and src/components/LoginModal.js (three
 * identical copies): the email pattern, the input guard, and the rule that
 * tokens are stored only when the answer carries both of them.
 */
module Login {
  import opened JsText

  // ---------------------------------------------------------------------------
  // The email pattern

  /** `[^\s@]` */
  predicate EmailChar(c: char) {
    !IsSpace(c) && c != '@'
  }

  predicate EmailChars(s: string) {
    forall i :: 0 <= i < |s| ==> EmailChar(s[i])
  }

  /** `/^[^\s@]+@[^\s@]+\.[^\s@]+$/` read as positions: an `@` at `i` and a
      `.` at `j` with at least one character before the `@`, between them
      and after the dot, and every other character outside `\s` and `@`
      (the dot itself is such a character). */
  predicate MatchesEmailPattern(s: string) {
    exists i, j :: 0 < i && i + 1 < j && j + 1 < |s| && s[i] == '@' && s[j] == '.'
                   && forall k :: 0 <= k < |s| && k != i ==> EmailChar(s[k])
  }

  /** A `.` strictly inside `r`, so that text remains on both sides. */
  predicate HasInnerDot(r: string) {
    |r| >= 3 && '.' in r[1..|r| - 1]
  }

  /** `isValidEmail`, decided by the first `@`. */
  function IsValidEmail(email: string): (b: bool)
    ensures b ==> NoSpace(email)
  {
    var at := IndexOf(email, '@');
    if 0 < at < |email| && EmailChars(email[..at]) && EmailChars(email[at + 1..])
       && HasInnerDot(email[at + 1..]) then
      assert forall k :: 0 <= k < |email| && k != at ==> EmailChar(email[k]) by {
        forall k | 0 <= k < |email| && k != at ensures EmailChar(email[k]) {
          if k < at { assert email[k] == email[..at][k]; }
          else { assert email[k] == email[at + 1..][k - at - 1]; }
        }
      }
      true
    else false
  }

  /** The decision procedure accepts exactly the strings the pattern
      matches. */
  lemma EmailPattern(email: string)
    ensures IsValidEmail(email) <==> MatchesEmailPattern(email)
  {
    var at := IndexOf(email, '@');
    if IsValidEmail(email) {
      var r := email[at + 1..];
      var d :| 0 <= d < |r[1..|r| - 1]| && r[1..|r| - 1][d] == '.';
      var j := at + 2 + d;
      assert email[j] == '.';
      forall k | 0 <= k < |email| && k != at ensures EmailChar(email[k]) {
        if k < at { assert email[k] == email[..at][k]; }
        else { assert email[k] == r[k - at - 1]; }
      }
    }
    if MatchesEmailPattern(email) {
      var i, j :| 0 < i && i + 1 < j && j + 1 < |email| && email[i] == '@' && email[j] == '.'
                  && forall k :: 0 <= k < |email| && k != i ==> EmailChar(email[k]);
      assert at == i;
      var r := email[at + 1..];
      assert r[1..|r| - 1][j - at - 2] == '.';
    }
  }

  /** A valid email has exactly one `@` and no white space. */
  lemma ValidEmailShape(email: string)
    requires IsValidEmail(email)
    ensures exists i :: 0 <= i < |email| && email[i] == '@'
    ensures forall i, j :: 0 <= i < |email| && 0 <= j < |email| && email[i] == '@' && email[j] == '@' ==> i == j
    ensures NoSpace(email)
  {
    EmailPattern(email);
  }

  // ---------------------------------------------------------------------------
  // The login handler

  const InputMissing := "이메일과 비밀번호를 모두 입력해주세요."
  const NoToken := "로그인 실패: 토큰이 없습니다."
  const FailurePrefix := "로그인 실패: "
  const AccessKey := "access_token"
  const IdKey := "id_token"

  /** The answer to the login request: the body's `access_token` and
      `id_token` (the empty string when absent or falsy), or an error with
      `error.response.data.detail` (empty when absent) and `error.message`. */
  datatype LoginResponse = Answered(accessToken: string, idToken: string) | Rejected(detail: string, message: string)

  datatype LoginRequest = LoginRequest(email: string, password: string)

  datatype Tokens = Tokens(accessToken: string, idToken: string)

  /**
   * The form's state. `storage` is the part of `localStorage` the form
   * writes, `sent` the requests made, and `loggedIn` the tokens passed to
   * `onLoginSuccess`. `jwtDecode` is outside the model: whether it throws,
   * and with which message, is a parameter of `HandleLogin`.
   */
  class LoginModal {
    var email: string
    var password: string
    var warn: string
    var storage: map<string, string>
    var sent: seq<LoginRequest>
    var loggedIn: Option<Tokens>

    /** The `useState` initial values; `warn` starts as the
        `warningMessage` prop. */
    constructor (warningMessage: string, initialStorage: map<string, string>)
      ensures email == [] && password == [] && warn == warningMessage
      ensures storage == initialStorage && sent == [] && loggedIn.None?
    {
      email, password, warn := [], [], warningMessage;
      storage, sent, loggedIn := initialStorage, [], None;
    }

    /** The `onChange` handlers of the two fields. */
    method Edit(newEmail: string, newPassword: string)
      modifies this
      ensures email == newEmail && password == newPassword
      ensures warn == old(warn) && storage == old(storage) && sent == old(sent) && loggedIn == old(loggedIn)
    {
      email, password := newEmail, newPassword;
    }

    /** `handleLogin`: an invalid email or empty password only sets the
        warning; otherwise the warning is cleared and the request sent. A
        missing token, a token `jwtDecode` rejects or a failed request sets a
        warning and stores nothing; only with both tokens decoded are both
        stored and passed on. */
    method HandleLogin(response: LoginResponse, decodeError: Option<string>)
      modifies this
      ensures email == old(email) && password == old(password)
      ensures !IsValidEmail(email) || password == [] ==>
                warn == InputMissing && sent == old(sent) && storage == old(storage) && loggedIn == old(loggedIn)
      ensures IsValidEmail(email) && password != [] ==> sent == old(sent) + [LoginRequest(email, password)]
      ensures IsValidEmail(email) && password != [] ==>
                match response
                case Answered(a, t) =>
                  if a == [] || t == [] then
                    warn == NoToken && storage == old(storage) && loggedIn == old(loggedIn)
                  else if decodeError.Some? then
                    warn == FailurePrefix + decodeError.value && storage == old(storage) && loggedIn == old(loggedIn)
                  else
                    warn == [] && storage == old(storage)[AccessKey := a][IdKey := t] && loggedIn == Some(Tokens(a, t))
                case Rejected(detail, message) =>
                  warn == FailurePrefix + (if detail != [] then detail else message)
                  && storage == old(storage) && loggedIn == old(loggedIn)
    {
      if !IsValidEmail(email) || password == [] {
        warn := InputMissing;
        return;
      }
      warn := "";
      sent := sent + [LoginRequest(email, password)];
      match response {
        case Answered(accessToken, idToken) =>
          if accessToken == [] || idToken == [] {
            warn := NoToken;
            return;
          }
          if decodeError.Some? {
            // jwtDecode threw: the error has no `response`, so its message is shown.
            warn := FailurePrefix + decodeError.value;
            return;
          }
          storage := storage[AccessKey := accessToken];
          storage := storage[IdKey := idToken];
          loggedIn := Some(Tokens(accessToken, idToken));
        case Rejected(detail, message) =>
          warn := FailurePrefix + (if detail != [] then detail else message);
      }
    }
  }
}
