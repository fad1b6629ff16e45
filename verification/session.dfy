/** The AsyncStorage slot under the key `'currentUser'` that the screens share:
    the login screen saves the user row there, the other screens read it, and
    logging out removes it. The JSON round trip through the slot is taken to
    return the row unchanged. */
module Session {
  import opened Wrappers
  import opened Database

  class SessionStorage {
    var currentUser: Option<UserRow>

    /** A device with no saved session. */
    constructor()
      ensures currentUser == None
    {
      currentUser := None;
    }

    /** `AsyncStorage.setItem('currentUser', JSON.stringify(user))`. */
    method SetCurrentUser(user: UserRow)
      modifies this
      ensures currentUser == Some(user)
    {
      currentUser := Some(user);
    }

    /** `AsyncStorage.removeItem('currentUser')`. */
    method RemoveCurrentUser()
      modifies this
      ensures currentUser == None
    {
      currentUser := None;
    }
  }

  /** `sessionUser?.email` used as a condition: the saved email, when there is
      a session and its email is not empty. */
  function SessionEmail(session: Option<UserRow>): (r: Option<string>)
    ensures r.Some? <==> session.Some? && session.value.email != ""
    ensures r.Some? ==> r.value == session.value.email
  {
    match session
    case Some(user) => if user.email == "" then None else Some(user.email)
    case None => None
  }

  /** `profile_image || null`: an empty image reference counts as none. */
  function DisplayImage(image: Option<string>): (r: Option<string>)
    ensures r.Some? ==> r == image && r.value != ""
    ensures r.None? <==> image.None? || image == Some("")
  {
    match image
    case Some(uri) => if uri == "" then None else Some(uri)
    case None => None
  }
}
