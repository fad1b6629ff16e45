/** The package-limitations screen (`app/limitations.tsx`): the `nome` route
    parameter names the user, whose email is looked up among the in-memory
    users. Its `getInitials` is `Initials.GetInitials`. */
module Limitations {
  import opened Wrappers
  import opened Collections
  import opened UserStore
  import opened Initials

  /** `users.find((u) => u.nome === nome)?.email`: the email of the first
      user with exactly that name. */
  function FindEmailByNome(users: seq<User>, nome: string): (r: Option<string>)
    ensures r.None? <==> forall i :: 0 <= i < |users| ==> users[i].nome != nome
    ensures r.Some? ==>
      exists i :: 0 <= i < |users| && users[i].nome == nome && users[i].email == r.value &&
                  (forall k :: 0 <= k < i ==> users[k].nome != nome)
  {
    match FindFirst(users, (u: User) => u.nome == nome)
    case Some(i) => Some(users[i].email)
    case None => None
  }

  class LimitationsScreen {
    var userName: string
    var userEmail: string

    constructor()
      ensures userName == DefaultUserName && userEmail == ""
    {
      userName := DefaultUserName;
      userEmail := "";
    }

    /** The `useEffect` on `params.nome`. An absent or empty parameter changes
        nothing. Otherwise the decoded name is shown, and the email becomes
        that of the first user with that name, or is kept when none has it.
        `decode` is `decodeURIComponent`. */
    method ApplyNomeParam(registry: Registry, nomeParam: Option<string>, decode: string -> string)
      modifies this
      ensures nomeParam.None? || nomeParam == Some("") ==>
        userName == old(userName) && userEmail == old(userEmail)
      ensures nomeParam.Some? && nomeParam.value != "" ==>
        && userName == decode(nomeParam.value)
        && userEmail == FindEmailByNome(registry.users, decode(nomeParam.value)).GetOr(old(userEmail))
    {
      if nomeParam.Some? && nomeParam.value != "" {
        userName := decode(nomeParam.value);
        var users := registry.GetUsers();
        var found := FindEmailByNome(users[..], decode(nomeParam.value));
        if found.Some? {
          userEmail := found.value;
        }
      }
    }
  }
}
