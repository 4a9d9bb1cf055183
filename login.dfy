/**
 * The log-in page: the form schema, and what a server answer does to the
 * page's error line, to browser storage and to navigation.
 */
module LogInPage {
  import opened Wrappers
  import UserController

  const UsernameRequired := "Username is required"
  const PasswordRequired := "Password is required"
  const LoginFailed := "Login failed"
  const StorageKey := "username"

  /** The form's values; the schema lets the checkbox be absent. */
  datatype LoginForm = LoginForm(username: string, password: string, remember: Option<bool>)

  datatype FormErrors = FormErrors(username: Option<string>, password: Option<string>)

  /** The schema: both text fields non-empty, `remember` never an error. */
  function Validate(form: LoginForm): (r: FormErrors)
    ensures r.username.None? <==> form.username != ""
    ensures r.password.None? <==> form.password != ""
  {
    FormErrors(
      if |form.username| < 1 then Some(UsernameRequired) else None,
      if |form.password| < 1 then Some(PasswordRequired) else None)
  }

  /** `data.remember` is truthy: checked. Unchecked and absent both mean "not remembered". */
  predicate Remembered(remember: Option<bool>)
  {
    remember == Some(true)
  }

  /** What `loginUser` resolves to; on success, the username from the reply's payload. */
  datatype LoginResult = LoginResult(success: bool, username: string, msg: string)

  /** The page state the submit handler touches. */
  class LoginPage {
    var loginError: string
    var localStorage: map<string, string>
    var sessionStorage: map<string, string>
    var navigatedTo: Option<string>

    constructor (local: map<string, string>, session: map<string, string>)
      ensures loginError == "" && localStorage == local && sessionStorage == session && navigatedTo == None
    {
      loginError, localStorage, sessionStorage, navigatedTo := "", local, session, None;
    }

    /**
     * `onSubmit` once the request has resolved: on success the error line is
     * cleared, the username is stored in exactly one of the two storages and
     * the page moves to the main menu; on failure only the error line changes.
     */
    method OnSubmit(form: LoginForm, res: LoginResult)
      modifies this
      ensures res.success ==>
        && loginError == ""
        && navigatedTo == Some("/main")
        && (Remembered(form.remember) ==>
              localStorage == old(localStorage)[StorageKey := res.username] && sessionStorage == old(sessionStorage))
        && (!Remembered(form.remember) ==>
              sessionStorage == old(sessionStorage)[StorageKey := res.username] && localStorage == old(localStorage))
      ensures !res.success ==>
        && loginError == (if res.msg != "" then res.msg else LoginFailed)
        && loginError != ""
        && localStorage == old(localStorage) && sessionStorage == old(sessionStorage)
        && navigatedTo == old(navigatedTo)
    {
      if res.success {
        loginError := "";
        if Remembered(form.remember) {
          localStorage := localStorage[StorageKey := res.username];
        } else {
          sessionStorage := sessionStorage[StorageKey := res.username];
        }
        navigatedTo := Some("/main");
      } else {
        loginError := if res.msg != "" then res.msg else LoginFailed;
      }
    }
  }

  /**
   * The page keeps the username across browser sessions exactly when the
   * server issues the week-long cookie: both follow the same `remember` value.
   */
  lemma StorageMatchesCookie(remember: Option<bool>)
    ensures Remembered(remember) <==> UserController.MaxAge(remember) == UserController.Week
    ensures !Remembered(remember) <==> UserController.MaxAge(remember) == UserController.Hour
  {
  }
}
