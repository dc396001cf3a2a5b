/**
 * The login and registration dialog (`AuthModal`): the input checks made
 * before any request, the outcome of the request, the mode switch and the
 * demo accounts.
 *
 * What the client API resolved to, or the message of what it threw, is an
 * input of `HandleAuth`.
 */
module AuthModal {
  import opened Wrappers
  import Text
  import opened ClientTypes

  datatype Mode = LoginMode | RegisterMode

  datatype DemoRole = DemoAdmin | DemoUser

  /** What the awaited API call did: resolved to a user, or threw an error with this message. */
  datatype Outcome = Resolved(user: User) | Threw(message: string)

  /** The request the dialog sends, if any. */
  datatype Request =
    | NoRequest
    | LoginRequest(email: string, password: string)
    | RegisterRequest(email: string, password: string, name: string, avatarUrl: string)

  const MissingCredentials := "Vui lòng điền đầy đủ email và mật khẩu."
  const MissingName := "Vui lòng nhập họ tên."
  const GenericError := "Có lỗi xảy ra"

  /** The checks made before a request: blank credentials, then a blank name when registering. */
  function Validate(mode: Mode, email: string, password: string, name: string): (r: Option<string>)
    ensures r == None <==>
      Text.Trim(email) != "" && Text.Trim(password) != "" && (mode == RegisterMode ==> Text.Trim(name) != "")
    ensures Text.Trim(email) == "" || Text.Trim(password) == "" ==> r == Some(MissingCredentials)
  {
    if Text.Trim(email) == "" || Text.Trim(password) == "" then Some(MissingCredentials)
    else if mode == RegisterMode && Text.Trim(name) == "" then Some(MissingName)
    else None
  }

  /** A request that passes the checks carries a non-empty email and password (and name when registering). */
  lemma ValidatedFieldsPresent(mode: Mode, email: string, password: string, name: string)
    requires Validate(mode, email, password, name) == None
    ensures email != "" && password != "" && (mode == RegisterMode ==> name != "")
  {
  }

  class AuthForm {
    var mode: Mode
    var email: string
    var password: string
    var name: string
    var selectedAvatar: string
    var error: string
    var loading: bool
    /** The user handed to `onLogin`, if it has been called. */
    var loggedIn: Option<User>
    /** Whether `onClose` has been called. */
    var closed: bool

    constructor(selectedAvatar: string)
      ensures mode == LoginMode && email == "" && password == "" && name == ""
      ensures this.selectedAvatar == selectedAvatar && error == "" && !loading
      ensures loggedIn.None? && !closed
    {
      mode := LoginMode;
      email := "";
      password := "";
      name := "";
      this.selectedAvatar := selectedAvatar;
      error := "";
      loading := false;
      loggedIn := None;
      closed := false;
    }

    /**
     * `handleAuth`: a failed check shows its message and sends nothing; a
     * sent request logs in and closes on success or shows the error's
     * message (or a generic one) on failure. A registration refused for its
     * name, and every sent request, end with `loading` false; blank
     * credentials leave `loading` as it was.
     */
    method HandleAuth(outcome: Outcome) returns (request: Request)
      modifies this`error, this`loading, this`loggedIn, this`closed
      ensures request.NoRequest? <==> Validate(mode, email, password, name).Some?
      ensures request.NoRequest? ==>
        && error == Validate(mode, email, password, name).value
        && loggedIn == old(loggedIn) && closed == old(closed)
        && loading == (if error == MissingCredentials then old(loading) else false)
      ensures request.LoginRequest? ==> mode == LoginMode && request == LoginRequest(email, password)
      ensures request.RegisterRequest? ==> mode == RegisterMode && request == RegisterRequest(email, password, name, selectedAvatar)
      ensures !request.NoRequest? && outcome.Resolved? ==> loggedIn == Some(outcome.user) && closed && error == "" && !loading
      ensures !request.NoRequest? && outcome.Threw? ==>
        && error == (if outcome.message != "" then outcome.message else GenericError)
        && loggedIn == old(loggedIn) && closed == old(closed) && !loading
    {
      error := "";
      if Text.Trim(email) == "" || Text.Trim(password) == "" {
        error := MissingCredentials;
        return NoRequest;
      }
      loading := true;
      if mode == LoginMode {
        request := LoginRequest(email, password);
      } else {
        if Text.Trim(name) == "" {
          error := MissingName;
          loading := false;
          return NoRequest;
        }
        request := RegisterRequest(email, password, name, selectedAvatar);
      }
      match outcome {
        case Resolved(user) =>
          loggedIn := Some(user);
          closed := true;
        case Threw(message) =>
          error := if message != "" then message else GenericError;
      }
      loading := false;
    }

    /** The mode tabs: switching mode clears the error. */
    method SetMode(m: Mode)
      modifies this`mode, this`error
      ensures mode == m && error == ""
    {
      mode := m;
      error := "";
    }

    /** `fillDemoAccount`: fixed credentials of the admin or the user demo account. */
    method FillDemoAccount(role: DemoRole)
      modifies this`email, this`password
      ensures role == DemoAdmin ==> email == "admin@vietnovel.com"
      ensures role == DemoUser ==> email == "user@example.com"
      ensures password == "password"
    {
      if role == DemoAdmin {
        email := "admin@vietnovel.com";
        password := "password";
      } else {
        email := "user@example.com";
        password := "password";
      }
    }
  }
}
