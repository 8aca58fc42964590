/** The registration form: the password rules, the email check, when the
    Register button is enabled, and the message a registration attempt
    leaves behind. */
module Register {
  import opened Common
  import opened Text
  import Email

  const MinPasswordLength: nat := 8
  const CreatedStatus: int := 201
  const FailureText: string := "Registration failed. Please try again."
  const FailureMarker: string := "failed"
  const LoginPath: string := "/login"

  /** Which of the four password rules the last checked password met. */
  datatype PasswordRules = PasswordRules(length: bool, number: bool, specialChar: bool, capitalLetter: bool)
  {
    predicate AllHold() {
      length && number && specialChar && capitalLetter
    }
  }

  const NoRulesMet: PasswordRules := PasswordRules(false, false, false, false)

  /** The rule flags that checking password `p` records. */
  function RulesOf(p: string): (r: PasswordRules)
    ensures r.length <==> Utf16Length(p) >= 8
    ensures r.number <==> exists i :: 0 <= i < |p| && '0' <= p[i] <= '9'
    ensures r.specialChar <==> exists i :: 0 <= i < |p| && p[i] in "!@#$%^&*(),.?\":{}|<>"
    ensures r.capitalLetter <==> exists i :: 0 <= i < |p| && 'A' <= p[i] <= 'Z'
  {
    PasswordRules(Utf16Length(p) >= MinPasswordLength, Contains(p, Digit), Contains(p, Special), Contains(p, Capital))
  }

  /** A password is accepted exactly when it meets all four rules. */
  function IsStrongPassword(p: string): (ok: bool)
    ensures ok <==>
      Utf16Length(p) >= 8 &&
      (exists i :: 0 <= i < |p| && '0' <= p[i] <= '9') &&
      (exists i :: 0 <= i < |p| && p[i] in "!@#$%^&*(),.?\":{}|<>") &&
      (exists i :: 0 <= i < |p| && 'A' <= p[i] <= 'Z')
  {
    RulesOf(p).AllHold()
  }

  /** Characters outside the Basic Multilingual Plane count twice towards
      the length rule: seven characters can make a valid password. */
  lemma AstralPasswordAccepted()
    ensures IsStrongPassword("Aa1!\U{1F600}\U{1F600}\U{1F600}")
  {
    var p := "Aa1!\U{1F600}\U{1F600}\U{1F600}";
    assert p[..6] == "Aa1!\U{1F600}\U{1F600}" && p[..5] == "Aa1!\U{1F600}" && p[..4] == "Aa1!";
    assert Utf16Length(p) == 10;
    assert p[0] == 'A' && p[2] == '1' && p[3] == '!';
  }

  /** The body of the registration request. */
  datatype RegisterRequest = RegisterRequest(username: string, email: string, password: string)

  /** How the registration request ended. */
  datatype RegisterReply =
    | Response(status: int, message: Option<string>)   // it resolved; the body's `message`
    | Thrown(error: Option<string>)                    // it threw; the error response body's `error`, None if any link is missing

  /** A 201 response carrying a non-empty message is the only success. */
  predicate Succeeded(reply: RegisterReply) {
    reply.Response? && reply.status == CreatedStatus && Truthy(reply.message)
  }

  /** The message a finished registration attempt shows. */
  function RegisterMessage(reply: RegisterReply): (m: string)
    ensures m != ""
    ensures Succeeded(reply) ==> m == reply.message.value
    ensures reply.Response? && !Succeeded(reply) ==> m == FailureText
    ensures reply.Thrown? ==> m == if Truthy(reply.error) then reply.error.value else FailureText
  {
    match reply
    case Response(status, message) =>
      if status == CreatedStatus && Truthy(message) then message.value else FailureText
    case Thrown(error) =>
      if Truthy(error) then error.value else FailureText
  }

  /** The message is shown in red exactly when it contains "failed". */
  function MessageColor(m: string): (c: string)
    ensures c == "red" || c == "green"
    ensures c == "red" <==> exists i :: OccursAt(m, "failed", i)
  {
    if Includes(m, FailureMarker) then "red" else "green"
  }

  /** The fallback text is shown in red. It is what every path ends in
      that has no message of its own: a non-201 or message-less response,
      and a thrown error without an `error` body. */
  lemma FallbackShownRed()
    ensures MessageColor(FailureText) == "red"
  {
    var before, after := "Registration ", ". Please try again.";
    assert FailureText == before + FailureMarker + after;
    assert (before + FailureMarker + after)[|before|..|before| + |FailureMarker|] == FailureMarker;
    assert OccursAt(FailureText, FailureMarker, |before|);
  }

  class RegisterForm {
    var username: string
    var email: string
    var password: string
    var message: string
    var passwordError: bool
    var passwordRules: PasswordRules
    /** The routes passed to `navigate`, oldest first. */
    var navigations: seq<string>

    constructor ()
      ensures username == "" && email == "" && password == "" && message == ""
      ensures !passwordError && passwordRules == NoRulesMet && navigations == []
    {
      username, email, password, message := "", "", "", "";
      passwordError, passwordRules, navigations := false, NoRulesMet, [];
    }

    method HandleUsernameChange(value: string)
      modifies this`username
      ensures username == value
    {
      username := value;
    }

    method HandleEmailChange(value: string)
      modifies this`email
      ensures email == value
    {
      email := value;
    }

    /** Records the four rule flags for `p` and reports whether all hold. */
    method ValidatePassword(p: string) returns (valid: bool)
      modifies this`passwordRules
      ensures passwordRules == RulesOf(p)
      ensures valid == passwordRules.AllHold()
      ensures valid <==> IsStrongPassword(p)
    {
      var lengthValid := Utf16Length(p) >= MinPasswordLength;
      var numberValid := Contains(p, Digit);
      var specialCharValid := Contains(p, Special);
      var capitalLetterValid := Contains(p, Capital);
      passwordRules := PasswordRules(lengthValid, numberValid, specialCharValid, capitalLetterValid);
      valid := lengthValid && numberValid && specialCharValid && capitalLetterValid;
    }

    /** The password is always stored; an empty one leaves the error flag and
        the rule flags as they were. */
    method HandlePasswordChange(value: string)
      modifies this`password, this`passwordRules, this`passwordError
      ensures password == value
      ensures value == "" ==> passwordError == old(passwordError) && passwordRules == old(passwordRules)
      ensures value != "" ==> passwordRules == RulesOf(value) && (passwordError <==> !IsStrongPassword(value))
    {
      password := value;
      if value != "" {
        var isValid := ValidatePassword(value);
        passwordError := !isValid;
      }
    }

    /** The Register button is enabled iff the email is valid and the
        password error flag is off. */
    function SubmitDisabled(): (disabled: bool)
      reads this
      ensures !disabled <==> Email.MatchesPattern(email) && !passwordError
    {
      !Email.IsValid(email) || passwordError
    }

    /** The part of a submission before the request is awaited: the message
        is cleared and the request body is the form's three fields. */
    method BeginRegister() returns (request: RegisterRequest)
      modifies this`message
      ensures message == ""
      ensures request == RegisterRequest(username, email, password)
    {
      message := "";
      request := RegisterRequest(username, email, password);
    }

    /** The part after the request settles: the message is set, and only a
        success navigates to the login page. */
    method FinishRegister(reply: RegisterReply)
      modifies this`message, this`navigations
      ensures message == RegisterMessage(reply)
      ensures navigations == old(navigations) + if Succeeded(reply) then [LoginPath] else []
    {
      match reply {
        case Response(status, m) =>
          if status == CreatedStatus && Truthy(m) {
            message := m.value;
            navigations := navigations + [LoginPath];
          } else {
            message := FailureText;
          }
        case Thrown(error) =>
          if Truthy(error) {
            message := error.value;
          } else {
            message := FailureText;
          }
      }
    }
  }
}
