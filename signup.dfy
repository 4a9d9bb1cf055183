/**
 * The sign-up page: the form schema, the live password checklist, what a
 * server answer does to the page, and where a server error is shown.
 */
module SignUpPage {
  import opened Wrappers
  import opened Text
  import opened Http
  import UserController
  import UserModel

  const UsernameTooShort := "Username must be at least 3 characters"
  const PasswordTooShort := "Password must be at least 8 characters"
  const PasswordNoUppercase := "Password must include at least one uppercase letter"
  const PasswordNoNumber := "Password must include at least one number"
  const PasswordsMustMatch := "Passwords must match"
  const SignupFailed := "Signup failed"

  /** `/[lo-hi]/.test(s)`: a scan for a character in the range. */
  function TestRange(s: string, lo: char, hi: char): bool
  {
    if s == [] then false else (lo <= s[0] <= hi) || TestRange(s[1..], lo, hi)
  }

  /** The scan succeeds exactly when some position holds a character in the range. */
  lemma {:induction false} TestRangeMeans(s: string, lo: char, hi: char)
    ensures TestRange(s, lo, hi) <==> exists i :: 0 <= i < |s| && lo <= s[i] <= hi
  {
    if s != [] {
      TestRangeMeans(s[1..], lo, hi);
      if TestRange(s[1..], lo, hi) {
        var i :| 0 <= i < |s[1..]| && lo <= s[1..][i] <= hi;
        assert lo <= s[i + 1] <= hi;
      }
      if exists i :: 0 <= i < |s| && lo <= s[i] <= hi {
        var i :| 0 <= i < |s| && lo <= s[i] <= hi;
        if i > 0 {
          assert lo <= s[1..][i - 1] <= hi;
        }
      }
    }
  }

  predicate HasUppercase(p: string)
  {
    exists i :: 0 <= i < |p| && 'A' <= p[i] <= 'Z'
  }

  predicate HasNumber(p: string)
  {
    exists i :: 0 <= i < |p| && '0' <= p[i] <= '9'
  }

  /** The password rule: at least 8 characters, an A-Z letter and a 0-9 digit. */
  predicate PasswordOk(p: string)
  {
    |p| >= 8 && HasUppercase(p) && HasNumber(p)
  }

  datatype SignupForm = SignupForm(username: string, password: string, confirmPassword: string)

  /** The message shown under each field; `None` when the field passes. */
  datatype FormErrors = FormErrors(username: Option<string>, password: Option<string>, confirmPassword: Option<string>)

  const NoErrors := FormErrors(None, None, None)

  /** The password field's checks in schema order; the first that fails supplies the message. */
  function PasswordError(p: string): (r: Option<string>)
    ensures r.None? <==> PasswordOk(p)
    ensures |p| < 8 ==> r == Some(PasswordTooShort)
    ensures |p| >= 8 && !HasUppercase(p) ==> r == Some(PasswordNoUppercase)
    ensures |p| >= 8 && HasUppercase(p) && !HasNumber(p) ==> r == Some(PasswordNoNumber)
  {
    TestRangeMeans(p, 'A', 'Z');
    TestRangeMeans(p, '0', '9');
    if |p| < 8 then Some(PasswordTooShort)
    else if !TestRange(p, 'A', 'Z') then Some(PasswordNoUppercase)
    else if !TestRange(p, '0', '9') then Some(PasswordNoNumber)
    else None
  }

  /**
   * The schema with its refinement. The refinement still runs when a field
   * check has failed, since failed length and pattern checks do not abort
   * the object, so the confirmation error is reported independently.
   */
  function Validate(form: SignupForm): (r: FormErrors)
    ensures r.username.None? <==> |form.username| >= 3
    ensures r.password.None? <==> PasswordOk(form.password)
    ensures r.confirmPassword.None? <==> form.password == form.confirmPassword
    ensures r == NoErrors <==> |form.username| >= 3 && PasswordOk(form.password) && form.password == form.confirmPassword
  {
    FormErrors(
      if |form.username| < 3 then Some(UsernameTooShort) else None,
      PasswordError(form.password),
      if form.password != form.confirmPassword then Some(PasswordsMustMatch) else None)
  }

  /** The live checklist under the password field. */
  datatype Requirements = Requirements(minLength: bool, hasUppercase: bool, hasNumber: bool)

  function PasswordRequirements(password: string): (r: Requirements)
    ensures r.minLength <==> |password| >= 8
    ensures r.hasUppercase <==> HasUppercase(password)
    ensures r.hasNumber <==> HasNumber(password)
    ensures (r.minLength && r.hasUppercase && r.hasNumber) <==> PasswordError(password).None?
  {
    TestRangeMeans(password, 'A', 'Z');
    TestRangeMeans(password, '0', '9');
    Requirements(|password| >= 8, TestRange(password, 'A', 'Z'), TestRange(password, '0', '9'))
  }

  /** The checklist appears with a password error, and then it always shows a failed item. */
  lemma ChecklistShowsFailure(form: SignupForm)
    requires Validate(form).password.Some?
    ensures var r := PasswordRequirements(form.password); !r.minLength || !r.hasUppercase || !r.hasNumber
  {
  }

  /** What `signupUser` resolves to: the reply body for a 2xx status, otherwise a failure. */
  datatype ApiResult = ApiResult(success: bool, msg: string)

  function SignupResponse<T>(reply: Reply<T>): (r: ApiResult)
    ensures 200 <= reply.status < 300 ==> r == ApiResult(reply.success, reply.msg)
    ensures !(200 <= reply.status < 300) ==> !r.success && r.msg != ""
    ensures !(200 <= reply.status < 300) && reply.msg != "" ==> r.msg == reply.msg
  {
    if 200 <= reply.status < 300 then ApiResult(reply.success, reply.msg)
    else ApiResult(false, if reply.msg != "" then reply.msg else SignupFailed)
  }

  datatype Effect = Navigate(path: string) | ShowServerError(text: string)

  /** `onSubmit` once the request has resolved. */
  function OnSubmit(res: ApiResult): (r: Effect)
    ensures res.success <==> r == Navigate("/login")
    ensures !res.success ==> r.ShowServerError? && r.text != ""
    ensures !res.success && res.msg != "" ==> r == ShowServerError(res.msg)
  {
    if res.success then Navigate("/login")
    else ShowServerError(if res.msg != "" then res.msg else SignupFailed)
  }

  /** The banner above the form. */
  predicate ShownAtTop(serverError: string)
  {
    serverError != "" && !Contains(ToLower(serverError), "username")
  }

  /** The line under the username field. */
  predicate ShownUnderUsername(serverError: string)
  {
    Contains(ToLower(serverError), "username")
  }

  lemma {:induction false} NotInEmpty(s: string, sub: string)
    requires s == [] && sub != []
    ensures !Contains(s, sub)
  {
  }

  /** A server error appears in exactly one of the two places, and no error in neither. */
  lemma ErrorShownOnce(serverError: string)
    ensures !(ShownAtTop(serverError) && ShownUnderUsername(serverError))
    ensures serverError != "" ==> ShownAtTop(serverError) || ShownUnderUsername(serverError)
    ensures serverError == "" ==> !ShownAtTop(serverError) && !ShownUnderUsername(serverError)
  {
    if serverError == "" {
      NotInEmpty(ToLower(serverError), "username");
    }
  }

  /** A message that begins with the word "Username" names the username field. */
  lemma StartsWithUsername(text: string)
    requires |text| >= 8 && text[..8] == "Username"
    ensures ShownUnderUsername(text)
  {
    var lower := ToLower(text);
    forall i | 0 <= i < 8
      ensures lower[i] == "username"[i]
    {
      assert text[i] == "Username"[i];
    }
    assert lower[..8] == "username";
    ContainsAt(lower, "username", 0);
  }

  /** Signing up under a taken name ends with the conflict message under the username field. */
  lemma DuplicateShownUnderUsername()
    ensures var reply := UserController.SignupReply(Failure(UserModel.AlreadyRegistered)).reply;
      var effect := OnSubmit(SignupResponse(reply));
      && effect == ShowServerError("Username already registered")
      && ShownUnderUsername(effect.text) && !ShownAtTop(effect.text)
  {
    UserController.AlreadyRegisteredIsConflict();
    StartsWithUsername("Username already registered");
  }
}
