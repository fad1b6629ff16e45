/** The side drawer (`components/CustomDrawerContent.tsx`): a visitor card
    until a session is found, then the stored user's name, email, initials
    and photo; logging out clears the session. */
module Drawer {
  import opened Wrappers
  import opened Strings
  import opened Database
  import opened Session
  import opened Initials

  datatype DrawerUser = DrawerUser(name: string, email: string, initials: string, image: Option<string>)

  /** The card shown before any session is loaded. */
  const Visitor := DrawerUser("Visitante", "Faça login para acessar", "VI", None)

  /** The card for a stored session: `nome || "Usuário"`, `email || ""`,
      the trimming `getInitials` of `nome || "U"`, `profile_image || null`. */
  function ShownUser(stored: UserRow): (u: DrawerUser)
    ensures u.name != "" && u.email == stored.email
    ensures u.name == stored.nome || (stored.nome == "" && u.name == DefaultUserName)
    ensures u.initials == GetInitialsTrimmed(if stored.nome == "" then "U" else stored.nome)
    ensures |u.initials| <= 2 && forall i :: 0 <= i < |u.initials| ==> !IsLower(u.initials[i])
    ensures u.image == DisplayImage(stored.profileImage)
  {
    DrawerUser(
      if stored.nome == "" then DefaultUserName else stored.nome,
      stored.email,
      GetInitialsTrimmed(if stored.nome == "" then "U" else stored.nome),
      DisplayImage(stored.profileImage))
  }

  /** The card's initials are empty exactly when the stored name is made of
      spaces only: an empty name falls back to "U". */
  lemma ShownInitialsEmpty(stored: UserRow)
    ensures ShownUser(stored).initials == "" <==> stored.nome != "" && IsBlank(stored.nome)
    ensures stored.nome == "" ==> ShownUser(stored).initials == "U"
  {
    var u := ShownUser(stored);
    if stored.nome == "" {
      var fallback := "U";
      assert !IsSpace(fallback[0]) && ' ' !in fallback;
      TrimmedAgreesOnTrimmedNames(fallback);
      assert GetInitials(fallback) == [UpperChar(fallback[0])];
      assert u.initials == GetInitialsTrimmed(fallback);
    } else {
      assert u.initials == GetInitialsTrimmed(stored.nome);
    }
  }

  class DrawerScreen {
    var user: DrawerUser

    constructor()
      ensures user == Visitor
    {
      user := Visitor;
    }

    /** `loadUser`: a stored session replaces the card; without one the card
        is kept (the visitor card on a fresh drawer). */
    method LoadUser(session: SessionStorage)
      modifies this
      ensures session.currentUser.None? ==> user == old(user)
      ensures session.currentUser.Some? ==> user == ShownUser(session.currentUser.value)
    {
      if session.currentUser.Some? {
        user := ShownUser(session.currentUser.value);
      }
    }

    /** `handleLogout`: the session slot is cleared; the card itself is only
        reset by the next `loadUser` of a fresh drawer. */
    method HandleLogout(session: SessionStorage)
      modifies session
      ensures session.currentUser == None
    {
      session.RemoveCurrentUser();
    }
  }
}
