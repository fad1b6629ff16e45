/** The top bar shared by the drawer screens (`components/DashboardLayout.tsx`):
    on focus it reads the session's email and refreshes the name and photo
    from the database; logging out clears the session. Its `getInitials` is
    `Initials.GetInitials`. */
module Dashboard {
  import opened Wrappers
  import opened Database
  import opened Session
  import opened Initials

  class DashboardScreen {
    var userName: string
    var userImage: Option<string>
    var isImageLoading: bool
    var isDropdownOpen: bool

    constructor()
      ensures userName == DefaultUserName && userImage == None
      ensures isImageLoading && !isDropdownOpen
    {
      userName := DefaultUserName;
      userImage := None;
      isImageLoading := true;
      isDropdownOpen := false;
    }

    /** `loadUserData`. Without a session email nothing changes, so the name
        stays `'Usuário'` on a fresh screen. With one, the row stored under
        that email supplies the name and the photo (none when its
        `profile_image` is empty); when there is no such row the name and
        photo are kept. Either way the photo stops loading. */
    method LoadUserData(db: Store, session: SessionStorage)
      requires db.Valid()
      modifies this`userName, this`userImage, this`isImageLoading
      ensures SessionEmail(session.currentUser).None? ==>
        userName == old(userName) && userImage == old(userImage) &&
        isImageLoading == old(isImageLoading)
      ensures SessionEmail(session.currentUser).Some? ==>
        && !isImageLoading
        && match db.GetUserByEmail(SessionEmail(session.currentUser).value)
           case Some(row) =>
             && row in db.users
             && row.email == session.currentUser.value.email
             && userName == row.nome
             && userImage == DisplayImage(row.profileImage)
           case None =>
             userName == old(userName) && userImage == old(userImage)
    {
      var email := SessionEmail(session.currentUser);
      if email.Some? {
        var row := db.GetUserByEmail(email.value);
        if row.Some? {
          userName := row.value.nome;
          userImage := DisplayImage(row.value.profileImage);
        }
        isImageLoading := false;
      }
    }

    /** `handleLogout`: only the confirming button of the dialog removes the
        session and closes the dropdown; cancelling changes nothing. */
    method HandleLogout(session: SessionStorage, confirmed: bool)
      modifies session, this`isDropdownOpen
      ensures confirmed ==> session.currentUser == None && !isDropdownOpen
      ensures !confirmed ==>
        session.currentUser == old(session.currentUser) && isDropdownOpen == old(isDropdownOpen)
    {
      if confirmed {
        session.RemoveCurrentUser();
        isDropdownOpen := false;
      }
    }
  }
}
