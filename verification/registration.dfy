/** The registration screen (`app/cadastro.tsx`): `handleRegister` checks
    the form in a fixed order and returns at the first failure, then asks the
    store whether the email is taken and only otherwise inserts the user. */
module Registration {
  import opened Wrappers
  import opened Strings
  import opened Database

  /** `[^\s@]+`: at least one character, none of them whitespace or '@'. */
  predicate IsEmailAtom(s: string)
  {
    |s| > 0 && forall k :: 0 <= k < |s| ==> !IsSpace(s[k]) && s[k] != '@'
  }

  /** `^[^\s@]+@[^\s@]+\.[^\s@]+$`, read as the regular expression defines it:
      some '@' and some later '.' cut the string into three atoms. */
  ghost predicate MatchesEmailPattern(s: string)
  {
    exists i, j :: 0 < i < j < |s| && s[i] == '@' && s[j] == '.' &&
      IsEmailAtom(s[..i]) && IsEmailAtom(s[i + 1..j]) && IsEmailAtom(s[j + 1..])
  }

  /** The same test by position: no whitespace, one '@' that is not first, and
      a '.' after it with at least one character on each side. */
  function PositionalEmailTest(s: string): bool
  {
    var at := IndexOf(s, '@');
    && 0 < at < |s|
    && (forall k :: 0 <= k < |s| ==> !IsSpace(s[k]))
    && '@' !in s[at + 1..]
    && at + 2 < |s|
    && '.' in s[at + 2..|s| - 1]
  }

  lemma PositionalTestMatches(s: string)
    requires PositionalEmailTest(s)
    ensures MatchesEmailPattern(s)
  {
    var at := IndexOf(s, '@');
    var tail := s[at + 2..|s| - 1];
    var d := IndexOf(tail, '.');
    var j := at + 2 + d;
    assert s[j] == tail[d];
    forall k | at + 1 <= k < |s| ensures s[k] != '@' {
      assert s[k] == s[at + 1..][k - at - 1];
    }
    assert IsEmailAtom(s[..at]);
    assert IsEmailAtom(s[at + 1..j]);
    assert IsEmailAtom(s[j + 1..]);
  }

  lemma PatternPassesPositionalTest(s: string)
    requires MatchesEmailPattern(s)
    ensures PositionalEmailTest(s)
  {
    var i, j :| 0 < i < j < |s| && s[i] == '@' && s[j] == '.' &&
      IsEmailAtom(s[..i]) && IsEmailAtom(s[i + 1..j]) && IsEmailAtom(s[j + 1..]);
    AtomsHaveNoSpaceAndOneAt(s, i, j);
    OnlyAtIsFound(s, i);
    assert s[i + 2..|s| - 1][j - i - 2] == '.';
  }

  /** When `s[i]` is the only '@', `indexOf('@')` finds it and none follows. */
  lemma OnlyAtIsFound(s: string, i: nat)
    requires i < |s| && s[i] == '@'
    requires forall k :: 0 <= k < |s| && k != i ==> s[k] != '@'
    ensures IndexOf(s, '@') == i && '@' !in s[i + 1..]
  {
    var at := IndexOf(s, '@');
    assert forall k :: 0 <= k < at ==> s[..at][k] == s[k];
    var rest := s[i + 1..];
    forall k | 0 <= k < |rest| ensures rest[k] != '@' {
      assert rest[k] == s[i + 1 + k];
    }
  }

  /** The characters of a string cut into three atoms around `s[i] == '@'`
      and `s[j] == '.'`: no whitespace, and no '@' except at `i`. */
  lemma AtomsHaveNoSpaceAndOneAt(s: string, i: nat, j: nat)
    requires 0 < i < j < |s| && s[i] == '@' && s[j] == '.'
    requires IsEmailAtom(s[..i]) && IsEmailAtom(s[i + 1..j]) && IsEmailAtom(s[j + 1..])
    ensures forall k :: 0 <= k < |s| ==> !IsSpace(s[k]) && (k != i ==> s[k] != '@')
  {
    forall k | 0 <= k < |s| ensures !IsSpace(s[k]) && (k != i ==> s[k] != '@') {
      if k < i {
        assert s[k] == s[..i][k];
      } else if i < k < j {
        assert s[k] == s[i + 1..j][k - i - 1];
      } else if j < k {
        assert s[k] == s[j + 1..][k - j - 1];
      }
    }
  }

  /** The positional test accepts exactly the strings the regular expression matches. */
  lemma PositionalTestIffPattern(s: string)
    ensures PositionalEmailTest(s) <==> MatchesEmailPattern(s)
  {
    if PositionalEmailTest(s) {
      PositionalTestMatches(s);
    }
    if MatchesEmailPattern(s) {
      PatternPassesPositionalTest(s);
    }
  }

  /** `emailRegex.test(email)`: true exactly for the strings the regular
      expression matches, computed by the positional test. */
  function EmailLooksValid(s: string): (ok: bool)
    ensures ok <==> MatchesEmailPattern(s)
  {
    PositionalTestIffPattern(s);
    PositionalEmailTest(s)
  }

  datatype RegisterError = MissingFields | InvalidEmail | PasswordMismatch

  /** The early-return checks of `handleRegister`: required fields first
      (name and email may not be blank, the two passwords may not be empty),
      then the email format on the untrimmed input, then the password match. */
  function ValidateRegistration(nome: string, email: string, password: string, confirmPassword: string)
    : (r: Option<RegisterError>)
    ensures r == Some(MissingFields) <==>
      IsBlank(nome) || IsBlank(email) || password == "" || confirmPassword == ""
    ensures r == Some(InvalidEmail) <==>
      !IsBlank(nome) && !IsBlank(email) && password != "" && confirmPassword != "" &&
      !MatchesEmailPattern(email)
    ensures r == Some(PasswordMismatch) <==>
      !IsBlank(nome) && !IsBlank(email) && password != "" && confirmPassword != "" &&
      MatchesEmailPattern(email) && password != confirmPassword
    ensures r == None ==> MatchesEmailPattern(email) && password == confirmPassword && password != ""
  {
    if Trim(nome) == "" || Trim(email) == "" || password == "" || confirmPassword == "" then
      Some(MissingFields)
    else if !EmailLooksValid(email) then Some(InvalidEmail)
    else if password != confirmPassword then Some(PasswordMismatch)
    else None
  }

  datatype RegisterOutcome =
    | Rejected(reason: RegisterError)
    | EmailInUse
    | StorageFailure
    | Registered(id: nat)

  class RegisterScreen {
    var loading: bool

    constructor()
      ensures !loading
    {
      loading := false;
    }

    /** The `try` block of `handleRegister`: check the email, then insert. */
    method SaveAccount(db: Store, nome: string, apelido: string, email: string, password: string)
      returns (outcome: RegisterOutcome)
      requires db.Valid()
      modifies db`users, db`nextUserId
      ensures db.Valid()
      ensures old(db.CheckEmailExists(email)).Failure? ==>
        outcome == StorageFailure && unchanged(db)
      ensures old(db.CheckEmailExists(email)) == Success(true) ==>
        outcome == EmailInUse && unchanged(db)
      ensures old(db.CheckEmailExists(email)) == Success(false) &&
              InsertUserError(old(db.schema), old(db.users), email).Some? ==>
        outcome == StorageFailure && unchanged(db)
      ensures old(db.CheckEmailExists(email)) == Success(false) &&
              InsertUserError(old(db.schema), old(db.users), email).None? ==>
        && outcome == Registered(old(db.nextUserId))
        && db.nextUserId == old(db.nextUserId) + 1
        && db.users == old(db.users) + [UserRow(old(db.nextUserId), nome, apelido, email,
                                                password, "", DefaultBio, None)]
    {
      var taken := db.CheckEmailExists(email);
      if taken.Failure? {
        return StorageFailure;
      } else if taken.value {
        return EmailInUse;
      }
      var added := db.AddUser(NewUser(nome, apelido, email, password));
      if added.Success? {
        outcome := Registered(added.value);
      } else {
        outcome := StorageFailure;
      }
    }

    /** `handleRegister`. The store is not touched unless every check passes;
        an email already stored is reported without calling `addUser`;
        otherwise `addUser` gets the fields exactly as typed. `loading` is
        false again after any attempt that got past validation. */
    method HandleRegister(db: Store, nome: string, apelido: string, email: string,
                          password: string, confirmPassword: string)
      returns (outcome: RegisterOutcome)
      requires db.Valid()
      modifies this, db`users, db`nextUserId
      ensures db.Valid()
      ensures if outcome.Rejected? then loading == old(loading) else !loading
      ensures ValidateRegistration(nome, email, password, confirmPassword).Some? ==>
        outcome == Rejected(ValidateRegistration(nome, email, password, confirmPassword).value) &&
        unchanged(db)
      ensures ValidateRegistration(nome, email, password, confirmPassword).None? ==>
        && !outcome.Rejected?
        && (old(db.CheckEmailExists(email)).Failure? ==>
              outcome == StorageFailure && unchanged(db))
        && (old(db.CheckEmailExists(email)) == Success(true) ==>
              outcome == EmailInUse && unchanged(db))
        && (old(db.CheckEmailExists(email)) == Success(false) &&
            InsertUserError(old(db.schema), old(db.users), email).Some? ==>
              outcome == StorageFailure && unchanged(db))
        && (old(db.CheckEmailExists(email)) == Success(false) &&
            InsertUserError(old(db.schema), old(db.users), email).None? ==>
              && outcome == Registered(old(db.nextUserId))
              && db.nextUserId == old(db.nextUserId) + 1
              && db.users == old(db.users) + [UserRow(old(db.nextUserId), nome, apelido, email,
                                                      password, "", DefaultBio, None)])
    {
      var invalid := ValidateRegistration(nome, email, password, confirmPassword);
      if invalid.Some? {
        return Rejected(invalid.value);
      }
      loading := true;
      outcome := SaveAccount(db, nome, apelido, email, password);
      assert db.Valid();
      loading := false;
    }
  }
}
