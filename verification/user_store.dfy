/** The in-memory user registry of `lib/userStore.ts`: a module-level array
    that `addUser` pushes onto and the other functions search. Queries are
    normalised with `trim().toLowerCase()`; the stored emails are not. */
module UserStore {
  import opened Wrappers
  import opened Strings
  import opened Collections

  datatype PackageType = Trial | Basico | Premium | Enterprise

  datatype User = User(
    nome: string, apelido: string, email: string, password: string,
    package: Option<PackageType>)

  /** `email.trim().toLowerCase()`: no upper-case letter and no surrounding
      whitespace remain. */
  function NormalizeEmail(raw: string): (r: string)
    ensures |r| <= |raw|
    ensures forall i :: 0 <= i < |r| ==> !IsUpper(r[i])
    ensures r != "" ==> !IsSpace(r[0]) && !IsSpace(r[|r| - 1])
    ensures r == "" <==> IsBlank(raw)
  {
    ToLower(Trim(raw))
  }

  /** An email as `normalizeEmail` leaves it: no upper-case letter and no
      blank at either end. */
  predicate IsNormalEmail(e: string)
  {
    && (forall i :: 0 <= i < |e| ==> !IsUpper(e[i]))
    && (e == "" || (!IsSpace(e[0]) && !IsSpace(e[|e| - 1])))
  }

  /** `w` spells `e` up to the case of its letters. */
  predicate SameUpToCase(w: string, e: string)
  {
    |w| == |e| && forall i :: 0 <= i < |w| ==> LowerChar(w[i]) == e[i]
  }

  /** Normalising is the identity on a normalised email. */
  lemma NormalizeEmailKeepsNormal(e: string)
    requires IsNormalEmail(e)
    ensures NormalizeEmail(e) == e
  {
    TrimOfTrimmed(e);
    ToLowerOfLower(e);
  }

  /** Normalising twice is normalising once. */
  lemma NormalizeEmailIdempotent(raw: string)
    ensures NormalizeEmail(NormalizeEmail(raw)) == NormalizeEmail(raw)
  {
    NormalizeEmailKeepsNormal(NormalizeEmail(raw));
  }

  /** Any variant of a normalised email that differs in letter case and is
      padded with blanks normalises back to it. */
  lemma NormalizeEmailOfVariant(e: string, pre: string, w: string, post: string)
    requires IsNormalEmail(e) && SameUpToCase(w, e)
    requires IsBlank(pre) && IsBlank(post)
    ensures NormalizeEmail(pre + w + post) == e
  {
    if w != [] {
      assert LowerChar(w[0]) == e[0] && LowerChar(w[|w| - 1]) == e[|e| - 1];
    }
    TrimPadded(pre, w, post);
    ToLowerCharwise(w, e);
  }

  /** A stored email holding an upper-case letter is never equal to a
      normalised query, whatever the query. */
  lemma UpperCaseEmailNeverMatches(stored: string, raw: string, k: nat)
    requires k < |stored| && IsUpper(stored[k])
    ensures NormalizeEmail(raw) != stored
  {
  }

  class Registry {
    var users: seq<User>

    /** The module starts with `const users: User[] = []`. */
    constructor()
      ensures users == []
    {
      users := [];
    }

    /** `addUser`: appends, with no duplicate check. */
    method AddUser(user: User)
      modifies this
      ensures users == old(users) + [user]
    {
      users := users + [user];
    }

    /** `emailExists`: some stored email is exactly the normalised query. */
    function EmailExists(rawEmail: string): (b: bool)
      reads this
      ensures b <==> exists i :: 0 <= i < |users| && users[i].email == NormalizeEmail(rawEmail)
    {
      var normalized := NormalizeEmail(rawEmail);
      FindFirst(users, (u: User) => u.email == normalized).Some?
    }

    /** `authenticate`: the first user whose email is the normalised query and
        whose password is exactly `password`; none when there is no such user. */
    function Authenticate(email: string, password: string): (r: Option<User>)
      reads this
      ensures r.Some? ==>
        exists i :: (
          && 0 <= i < |users| && users[i] == r.value
          && users[i].email == NormalizeEmail(email) && users[i].password == password
          && forall j :: 0 <= j < i ==>
               !(users[j].email == NormalizeEmail(email) && users[j].password == password))
      ensures r.None? <==> forall i :: 0 <= i < |users| ==>
        !(users[i].email == NormalizeEmail(email) && users[i].password == password)
    {
      var normalized := NormalizeEmail(email);
      match FindFirst(users, (u: User) => u.email == normalized && u.password == password)
      case Some(i) => Some(users[i])
      case None => None
    }

    /** `getUsers`: a new array with the same users in the same order; the
        array is fresh, so storing into its slots leaves the registry's own
        sequence alone. */
    method GetUsers() returns (copy: array<User>)
      ensures fresh(copy)
      ensures copy[..] == users
    {
      copy := new User[|users|](i requires 0 <= i < |users| reads this => users[i]);
    }

    /** `getUserPackage`: the package of the first user with the normalised
        email, or `'trial'` when there is no such user or it has no package. */
    function GetUserPackage(email: string): (p: PackageType)
      reads this
      ensures (forall i :: 0 <= i < |users| ==> users[i].email != NormalizeEmail(email)) ==> p == Trial
      ensures forall i ::
        (&& 0 <= i < |users| && users[i].email == NormalizeEmail(email)
         && forall j :: 0 <= j < i ==> users[j].email != NormalizeEmail(email))
        ==> p == users[i].package.GetOr(Trial)
    {
      var normalized := NormalizeEmail(email);
      match FindFirst(users, (u: User) => u.email == normalized)
      case Some(i) =>
        FirstWithEmailUnique(users, normalized, i);
        users[i].package.GetOr(Trial)
      case None => Trial
    }
  }

  /** At most one index is the first one holding a given email. */
  lemma FirstWithEmailUnique(users: seq<User>, email: string, k: nat)
    requires k < |users| && users[k].email == email
    requires forall j :: 0 <= j < k ==> users[j].email != email
    ensures forall i ::
      (&& 0 <= i < |users| && users[i].email == email
       && forall j :: 0 <= j < i ==> users[j].email != email)
      ==> i == k
  {
  }

  /** The positive half of the lookup: a stored normalised email is found by
      any blank-padded, differently-cased variant of itself. */
  lemma EmailExistsForVariant(registry: Registry, k: nat, pre: string, w: string, post: string)
    requires k < |registry.users| && IsNormalEmail(registry.users[k].email)
    requires SameUpToCase(w, registry.users[k].email)
    requires IsBlank(pre) && IsBlank(post)
    ensures registry.EmailExists(pre + w + post)
  {
    NormalizeEmailOfVariant(registry.users[k].email, pre, w, post);
  }

  /** Whoever `authenticate` lets in, `emailExists` reports as registered. */
  lemma AuthenticatedEmailExists(registry: Registry, email: string, password: string)
    ensures registry.Authenticate(email, password).Some? ==> registry.EmailExists(email)
  {
  }

  datatype FeatureValue = Text(text: string) | Amount(amount: nat)

  datatype Feature = Feature(caption: string, value: FeatureValue, unlimited: bool)

  datatype PackageLimitations = PackageLimitations(
    name: string, description: string, features: seq<Feature>)

  /** The six feature rows every package lists, in display order. */
  const FeatureLabels: seq<string> :=
    ["Duração", "Anúncios por mês", "Campanhas simultâneas",
     "Armazenamento de ficheiros", "Suporte", "Relatórios"]

  /** The values of the six features of a package, in `FeatureLabels` order. */
  function FeatureValues(packageType: PackageType): (values: seq<FeatureValue>)
    ensures |values| == |FeatureLabels|
  {
    match packageType
    case Trial =>
      [Text("60 dias"), Amount(5), Amount(2), Text("100 MB"), Text("Email"), Text("Básicos")]
    case Basico =>
      [Text("Mensal"), Amount(20), Amount(5), Text("1 GB"), Text("Email + Chat"), Text("Completos")]
    case Premium =>
      [Text("Mensal"), Amount(100), Amount(20), Text("10 GB"), Text("Prioritário 24/7"),
       Text("Avançados + Analytics")]
    case Enterprise =>
      [Text("Personalizado"), Text("Ilimitado"), Text("Ilimitado"), Text("Ilimitado"),
       Text("Dedicado + Gerente de conta"), Text("Customizados + API")]
  }

  /** The six features of a package, labelled in `FeatureLabels` order; the
      enterprise package marks the ads, campaigns and storage rows unlimited. */
  function PackageFeatures(packageType: PackageType): (features: seq<Feature>)
    ensures |features| == |FeatureLabels|
    ensures forall i :: 0 <= i < |features| ==> features[i].caption == FeatureLabels[i]
    ensures forall i :: 0 <= i < |features| ==> features[i].value == FeatureValues(packageType)[i]
    ensures forall i :: 0 <= i < |features| ==>
      features[i].unlimited == (packageType == Enterprise && 1 <= i <= 3)
  {
    var values := FeatureValues(packageType);
    seq(|FeatureLabels|, i requires 0 <= i < |FeatureLabels| =>
      Feature(FeatureLabels[i], values[i], packageType == Enterprise && 1 <= i <= 3))
  }

  /** The name and description of each package: both shown, neither empty. */
  function PackageTitle(packageType: PackageType): (title: (string, string))
    ensures title.0 != "" && title.1 != ""
  {
    match packageType
    case Trial => ("Modo de Teste Gratuito",
      "Pacote de teste com limitações básicas para experimentar a plataforma")
    case Basico => ("Pacote Básico",
      "Ideal para pequenas empresas que estão começando")
    case Premium => ("Pacote Premium",
      "Para empresas que precisam de mais recursos e alcance")
    case Enterprise => ("Pacote Enterprise",
      "Solução completa para grandes empresas com necessidades específicas")
  }

  /** `getPackageLimitations`: a total lookup over the four packages; each
      entry lists the same six features in the same order, and only the
      enterprise entry marks any of them unlimited. */
  function GetPackageLimitations(packageType: PackageType): (r: PackageLimitations)
    ensures |r.features| == |FeatureLabels|
    ensures forall i :: 0 <= i < |r.features| ==> r.features[i].caption == FeatureLabels[i]
    ensures forall i :: 0 <= i < |r.features| ==> r.features[i].value == FeatureValues(packageType)[i]
    ensures (exists i :: 0 <= i < |r.features| && r.features[i].unlimited) <==> packageType == Enterprise
    ensures (r.name, r.description) == PackageTitle(packageType)
  {
    var features := PackageFeatures(packageType);
    assert packageType == Enterprise ==> features[1].unlimited;
    var (name, description) := PackageTitle(packageType);
    PackageLimitations(name, description, features)
  }

  /** The monthly ad allowance grows 5, 20, 100 from trial to premium and is
      unlimited for enterprise; the allowance of simultaneous campaigns grows
      with it, 2, 5, 20, and is unlimited for enterprise too. */
  lemma AdsPerMonthByPackage()
    ensures GetPackageLimitations(Trial).features[1].value == Amount(5)
    ensures GetPackageLimitations(Basico).features[1].value == Amount(20)
    ensures GetPackageLimitations(Premium).features[1].value == Amount(100)
    ensures GetPackageLimitations(Enterprise).features[1].unlimited
    ensures GetPackageLimitations(Trial).features[2].value == Amount(2)
    ensures GetPackageLimitations(Basico).features[2].value == Amount(5)
    ensures GetPackageLimitations(Premium).features[2].value == Amount(20)
    ensures GetPackageLimitations(Enterprise).features[2].unlimited
  {
    var trial, basico, premium := FeatureValues(Trial), FeatureValues(Basico), FeatureValues(Premium);
    assert trial[1] == Amount(5) && trial[2] == Amount(2);
    assert basico[1] == Amount(20) && basico[2] == Amount(5);
    assert premium[1] == Amount(100) && premium[2] == Amount(20);
  }
}
