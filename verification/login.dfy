/** The login screen (`app/login.tsx`): `handleLogin` refuses a blank email
    or an empty password, then asks the store for the row with exactly that
    email and password and, when there is one, saves it as the session. */
module Login {
  import opened Wrappers
  import opened Strings
  import opened Database
  import opened Session

  /** `!email.trim() || !password` is false: the email has a non-space
      character and the password is not empty. */
  function LoginFieldsFilled(email: string, password: string): (ok: bool)
    ensures ok <==> !IsBlank(email) && password != ""
  {
    Trim(email) != "" && password != ""
  }

  datatype LoginOutcome =
    | MissingFields
    | WrongCredentials
    | StorageFailure
    | LoggedIn(user: UserRow)

  class LoginScreen {
    var loading: bool

    constructor()
      ensures !loading
    {
      loading := false;
    }

    /** `handleLogin`. The session is written exactly when the store returns
        a row, and that row is the one saved; the email and password are
        passed to the store as typed, without trimming. */
    method HandleLogin(db: Store, session: SessionStorage, email: string, password: string)
      returns (outcome: LoginOutcome)
      requires db.Valid()
      modifies this, session
      ensures if outcome.MissingFields? then loading == old(loading) else !loading
      ensures !LoginFieldsFilled(email, password) ==>
        outcome == MissingFields && unchanged(session)
      ensures LoginFieldsFilled(email, password) ==>
        match db.AuthenticateUser(email, password)
        case Failure(_) => outcome == StorageFailure && unchanged(session)
        case Success(None) => outcome == WrongCredentials && unchanged(session)
        case Success(Some(u)) => outcome == LoggedIn(u) && session.currentUser == Some(u)
      ensures outcome.LoggedIn? ==>
        && outcome.user in db.users
        && outcome.user.email == email
        && outcome.user.password == password
    {
      if !LoginFieldsFilled(email, password) {
        return MissingFields;
      }
      loading := true;
      var found := db.AuthenticateUser(email, password);
      match found {
        case Failure(_) =>
          outcome := StorageFailure;
        case Success(None) =>
          outcome := WrongCredentials;
        case Success(Some(u)) =>
          session.SetCurrentUser(u);
          outcome := LoggedIn(u);
      }
      loading := false;
    }
  }
}
