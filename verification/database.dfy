/** The on-device store behind `app/lib/database.ts`: the `users` and
    `anuncios` tables as sequences of rows in insertion (rowid) order, the
    schema as a map from table name to its column list, the AUTOINCREMENT
    counters, and a logical clock standing for `CURRENT_TIMESTAMP`.

    A statement fails the way the engine fails it: a missing table, a column
    the statement names that the table lacks, or a second row with an email
    already stored (the UNIQUE constraint on `users.email`). */
module Database {
  import opened Wrappers
  import opened Collections

  datatype Column = Column(name: string, sqlType: string)

  type Schema = map<string, seq<Column>>

  const UsersTable := "users"
  const AnunciosTable := "anuncios"

  /** Columns of `CREATE TABLE IF NOT EXISTS users`. */
  const UsersCreateColumns: seq<Column> :=
    [Column("id", "INTEGER"), Column("nome", "TEXT"), Column("apelido", "TEXT"),
     Column("email", "TEXT"), Column("password", "TEXT")]

  /** Columns of `CREATE TABLE IF NOT EXISTS anuncios`. */
  const AnunciosCreateColumns: seq<Column> :=
    [Column("id", "INTEGER"), Column("user_email", "TEXT"), Column("titulo", "TEXT"),
     Column("descricao", "TEXT"), Column("tipo_produto", "TEXT"), Column("capa", "TEXT"),
     Column("arquivo_url", "TEXT"), Column("demo_link", "TEXT"), Column("status", "TEXT"),
     Column("views", "INTEGER"), Column("created_at", "DATETIME")]

  /** The columns `initDatabase` adds to `users` with `safeAddColumn`, in call order. */
  const UserMigrations: seq<Column> :=
    [Column("telefone", "TEXT"), Column("bio", "TEXT"), Column("profile_image", "TEXT")]

  /** Columns named by the INSERT of `addUser` and the UPDATE of `updateUserProfile`. */
  const InsertUserColumns: seq<string> :=
    ["nome", "apelido", "email", "password", "telefone", "bio", "profile_image"]
  const UpdateProfileColumns: seq<string> :=
    ["nome", "telefone", "bio", "profile_image", "email"]

  /** The bio every new account starts with. */
  const DefaultBio := "Administrador."

  predicate HasColumn(cols: seq<Column>, name: string)
  {
    exists i :: 0 <= i < |cols| && cols[i].name == name
  }

  // ---------------------------------------------------------------- schema

  /** The two `CREATE TABLE IF NOT EXISTS` statements: a table already present
      is left exactly as it is. */
  function CreateTablesIfNotExist(s: Schema): (r: Schema)
    ensures r.Keys == s.Keys + {UsersTable, AnunciosTable}
    ensures forall t :: t in s ==> r[t] == s[t]
    ensures UsersTable !in s ==> r[UsersTable] == UsersCreateColumns
    ensures AnunciosTable !in s ==> r[AnunciosTable] == AnunciosCreateColumns
  {
    var withUsers := if UsersTable in s then s else s[UsersTable := UsersCreateColumns];
    if AnunciosTable in withUsers then withUsers else withUsers[AnunciosTable := AnunciosCreateColumns]
  }

  /** `safeAddColumn(table, column, type)`: `ALTER TABLE ... ADD COLUMN` whose
      failure (no such table, duplicate column) is swallowed, so the schema is
      then unchanged. It only ever appends a column. */
  function AddColumnIfAbsent(s: Schema, table: string, col: Column): (r: Schema)
    ensures r.Keys == s.Keys
    ensures forall t :: t in s && t != table ==> r[t] == s[t]
    ensures table in s ==> HasColumn(r[table], col.name)
    ensures table in s ==> |s[table]| <= |r[table]| && r[table][..|s[table]|] == s[table]
    ensures table !in s || HasColumn(s[table], col.name) ==> r == s
    ensures table in s && !HasColumn(s[table], col.name) ==> r[table] == s[table] + [col]
  {
    if table in s && !HasColumn(s[table], col.name) then
      var cols := s[table] + [col];
      assert cols[|cols| - 1].name == col.name;
      s[table := cols]
    else s
  }

  /** A column list that starts with `cols` keeps every column of `cols`. */
  lemma ExtendedKeepsColumn(cols: seq<Column>, more: seq<Column>, name: string)
    requires |cols| <= |more| && more[..|cols|] == cols
    requires HasColumn(cols, name)
    ensures HasColumn(more, name)
  {
    var i :| 0 <= i < |cols| && cols[i].name == name;
    assert more[i] == cols[i];
  }

  /** The schema `initDatabase` leaves behind, from any schema found on disk. */
  function InitSchema(s: Schema): Schema
  {
    var s0 := CreateTablesIfNotExist(s);
    var s1 := AddColumnIfAbsent(s0, UsersTable, UserMigrations[0]);
    var s2 := AddColumnIfAbsent(s1, UsersTable, UserMigrations[1]);
    AddColumnIfAbsent(s2, UsersTable, UserMigrations[2])
  }

  /** After `initDatabase` both tables exist and `users` has the three
      migrated columns. */
  lemma InitSchemaComplete(s: Schema)
    ensures UsersTable in InitSchema(s) && AnunciosTable in InitSchema(s)
    ensures forall k :: 0 <= k < |UserMigrations| ==>
      HasColumn(InitSchema(s)[UsersTable], UserMigrations[k].name)
  {
    var s0 := CreateTablesIfNotExist(s);
    var s1 := AddColumnIfAbsent(s0, UsersTable, UserMigrations[0]);
    var s2 := AddColumnIfAbsent(s1, UsersTable, UserMigrations[1]);
    var s3 := AddColumnIfAbsent(s2, UsersTable, UserMigrations[2]);
    assert s3 == InitSchema(s);
    assert UsersTable in s0 && UsersTable in s1 && UsersTable in s2;
    var c0, c1, c2 := UserMigrations[0].name, UserMigrations[1].name, UserMigrations[2].name;
    assert HasColumn(s1[UsersTable], c0);
    assert HasColumn(s2[UsersTable], c1);
    assert HasColumn(s3[UsersTable], c2);
    ExtendedKeepsColumn(s1[UsersTable], s2[UsersTable], c0);
    ExtendedKeepsColumn(s2[UsersTable], s3[UsersTable], c0);
    ExtendedKeepsColumn(s2[UsersTable], s3[UsersTable], c1);
    forall k | 0 <= k < |UserMigrations| ensures HasColumn(s3[UsersTable], UserMigrations[k].name) {
      assert k == 0 || k == 1 || k == 2;
    }
  }

  /** Every table already on disk keeps its columns, in order, at the front:
      `initDatabase` only ever adds columns. */
  lemma InitSchemaAdditive(s: Schema, t: string)
    requires t in s
    ensures t in InitSchema(s)
    ensures |s[t]| <= |InitSchema(s)[t]| && InitSchema(s)[t][..|s[t]|] == s[t]
  {
    var s0 := CreateTablesIfNotExist(s);
    var s1 := AddColumnIfAbsent(s0, UsersTable, UserMigrations[0]);
    var s2 := AddColumnIfAbsent(s1, UsersTable, UserMigrations[1]);
    var s3 := AddColumnIfAbsent(s2, UsersTable, UserMigrations[2]);
    assert s3 == InitSchema(s);
    assert s0[t] == s[t];
    if t == UsersTable {
      assert s3[t][..|s[t]|] == s2[t][..|s[t]|];
      assert s2[t][..|s[t]|] == s1[t][..|s[t]|];
    } else {
      assert s3[t] == s[t];
    }
  }

  /** Running `initDatabase` on a schema it produced changes nothing. */
  lemma InitSchemaIdempotent(s: Schema)
    ensures InitSchema(InitSchema(s)) == InitSchema(s)
  {
    var r := InitSchema(s);
    InitSchemaComplete(s);
    assert CreateTablesIfNotExist(r) == r;
    assert AddColumnIfAbsent(r, UsersTable, UserMigrations[0]) == r;
    assert AddColumnIfAbsent(r, UsersTable, UserMigrations[1]) == r;
    assert AddColumnIfAbsent(r, UsersTable, UserMigrations[2]) == r;
  }

  /** `initDatabase` called `n` times in a row. */
  function InitSchemaTimes(s: Schema, n: nat): Schema
    decreases n
  {
    if n == 0 then s else InitSchemaTimes(InitSchema(s), n - 1)
  }

  /** Calling `initDatabase` on every start leaves the schema of the first call. */
  lemma {:induction false} InitSchemaRepeated(s: Schema, n: nat)
    requires n >= 1
    ensures InitSchemaTimes(s, n) == InitSchema(s)
    decreases n
  {
    if n > 1 {
      InitSchemaRepeated(InitSchema(s), n - 1);
      InitSchemaIdempotent(s);
    }
  }

  /** A `users` column list as `CREATE TABLE` made it, possibly followed by
      migrated columns. */
  ghost predicate StartsWithCreateColumns(cols: seq<Column>)
  {
    |UsersCreateColumns| <= |cols| && cols[..|UsersCreateColumns|] == UsersCreateColumns
  }

  /** Adding a column keeps a `users` table that starts with its CREATE columns so. */
  lemma AddColumnKeepsCreateColumns(s: Schema, table: string, col: Column)
    requires UsersTable in s ==> StartsWithCreateColumns(s[UsersTable])
    ensures UsersTable in AddColumnIfAbsent(s, table, col) ==>
      StartsWithCreateColumns(AddColumnIfAbsent(s, table, col)[UsersTable])
  {
    var r := AddColumnIfAbsent(s, table, col);
    if UsersTable in s && table == UsersTable {
      var n := |UsersCreateColumns|;
      assert r[table][..n] == r[table][..|s[table]|][..n];
    }
  }

  /** On a `users` table that has its CREATE columns, the columns `checkEmailExists`,
      `authenticateUser` and `getUserByEmail` name are all there. */
  lemma CreateColumnsServeQueries(cols: seq<Column>)
    requires StartsWithCreateColumns(cols)
    ensures HasColumn(cols, "email") && HasColumn(cols, "password")
  {
    assert cols[3] == UsersCreateColumns[3];
    assert cols[4] == UsersCreateColumns[4];
  }

  // ---------------------------------------------------------------- rows

  datatype UserRow = UserRow(
    id: nat, nome: string, apelido: string, email: string, password: string,
    telefone: string, bio: string, profileImage: Option<string>)

  /** What the registration screen hands to `addUser`. */
  datatype NewUser = NewUser(nome: string, apelido: string, email: string, password: string)

  /** The `data` argument of `updateUserProfile`. */
  datatype ProfileUpdate = ProfileUpdate(
    nome: string, telefone: string, bio: string, profileImage: Option<string>)

  /** The `data` argument of `createAnuncio`. */
  datatype AnuncioInput = AnuncioInput(
    userEmail: string, titulo: string, descricao: string, tipoProduto: string,
    capa: string, arquivoUrl: string, demoLink: string)

  datatype AnuncioStatus = Pendente | Ativo

  datatype AnuncioRow = AnuncioRow(
    id: nat, userEmail: string, titulo: string, descricao: string, tipoProduto: string,
    capa: string, arquivoUrl: string, demoLink: string,
    status: AnuncioStatus, views: nat, createdAt: nat)

  datatype DbError =
    | NoSuchTable(table: string)
    | NoSuchColumn(table: string, column: string)
    | UniqueViolation(table: string, column: string)

  function CreatedAt(a: AnuncioRow): int { a.createdAt }

  /** The `WHERE user_email = ?` filter of `getUserAnuncios`. */
  function AuthoredBy(email: string): AnuncioRow -> bool
  {
    (a: AnuncioRow) => a.userEmail == email
  }

  /** The rows `DELETE FROM anuncios WHERE id = ?` keeps. */
  function IdOtherThan(id: int): AnuncioRow -> bool
  {
    (a: AnuncioRow) => a.id != id
  }

  function AnuncioId(a: AnuncioRow): int { a.id }

  /** The first of `names` the column list lacks. */
  function MissingColumn(cols: seq<Column>, names: seq<string>): (r: Option<string>)
    ensures r.None? <==> forall k :: 0 <= k < |names| ==> HasColumn(cols, names[k])
    ensures r.Some? ==> r.value in names && !HasColumn(cols, r.value)
  {
    if |names| == 0 then None
    else if !HasColumn(cols, names[0]) then Some(names[0])
    else MissingColumn(cols, names[1..])
  }

  /** Why a statement on `table` naming the columns `names` cannot run, if it cannot. */
  function StatementError(s: Schema, table: string, names: seq<string>): (r: Option<DbError>)
    ensures r.None? <==> table in s && forall k :: 0 <= k < |names| ==> HasColumn(s[table], names[k])
    ensures table !in s ==> r == Some(NoSuchTable(table))
  {
    if table !in s then Some(NoSuchTable(table))
    else match MissingColumn(s[table], names)
      case Some(c) => Some(NoSuchColumn(table, c))
      case None => None
  }

  /** Why the INSERT of `addUser` fails, if it does: the schema first, then
      the UNIQUE constraint on `email`. */
  function InsertUserError(s: Schema, users: seq<UserRow>, email: string): (r: Option<DbError>)
    ensures r.None? <==>
      StatementError(s, UsersTable, InsertUserColumns).None? &&
      forall i :: 0 <= i < |users| ==> users[i].email != email
    ensures (StatementError(s, UsersTable, InsertUserColumns).None? &&
             exists i :: 0 <= i < |users| && users[i].email == email) ==>
            r == Some(UniqueViolation(UsersTable, "email"))
  {
    var schemaError := StatementError(s, UsersTable, InsertUserColumns);
    if schemaError.Some? then schemaError
    else match FindFirst(users, (u: UserRow) => u.email == email)
      case Some(_) => Some(UniqueViolation(UsersTable, "email"))
      case None => None
  }

  /** `SELECT * FROM users WHERE email = ?`, first row. */
  function FindUserByEmail(users: seq<UserRow>, email: string): (r: Option<UserRow>)
    ensures r.Some? ==> r.value in users && r.value.email == email
    ensures r.None? <==> forall i :: 0 <= i < |users| ==> users[i].email != email
  {
    match FindFirst(users, (u: UserRow) => u.email == email)
    case Some(i) => Some(users[i])
    case None => None
  }

  /** `SELECT * FROM users WHERE email = ? AND password = ?`, first row. */
  function FindByCredentials(users: seq<UserRow>, email: string, password: string): (r: Option<UserRow>)
    ensures r.Some? ==> r.value in users && r.value.email == email && r.value.password == password
    ensures r.None? <==>
      forall i :: 0 <= i < |users| ==> !(users[i].email == email && users[i].password == password)
  {
    match FindFirst(users, (u: UserRow) => u.email == email && u.password == password)
    case Some(i) => Some(users[i])
    case None => None
  }

  /** `UPDATE users SET nome, telefone, bio, profile_image WHERE email = ?`:
      every row with that email gets the four new values; its id, apelido,
      email and password, and every other row, are kept. */
  function UpdateProfiles(users: seq<UserRow>, email: string, data: ProfileUpdate): (r: seq<UserRow>)
    ensures |r| == |users|
    ensures forall i :: 0 <= i < |users| ==>
      r[i].id == users[i].id && r[i].apelido == users[i].apelido &&
      r[i].email == users[i].email && r[i].password == users[i].password
    ensures forall i :: 0 <= i < |users| && users[i].email == email ==>
      r[i].nome == data.nome && r[i].telefone == data.telefone &&
      r[i].bio == data.bio && r[i].profileImage == data.profileImage
    ensures forall i :: 0 <= i < |users| && users[i].email != email ==> r[i] == users[i]
  {
    seq(|users|, i requires 0 <= i < |users| =>
      if users[i].email == email then
        users[i].(nome := data.nome, telefone := data.telefone, bio := data.bio,
                  profileImage := data.profileImage)
      else users[i])
  }

  /** Reading a profile back after updating it gives the new values with the
      old id, apelido, email and password; an unknown email stays unknown. */
  lemma UpdateThenFind(users: seq<UserRow>, email: string, data: ProfileUpdate)
    ensures var after := FindUserByEmail(UpdateProfiles(users, email, data), email);
      match FindUserByEmail(users, email)
      case None => after.None?
      case Some(row) => after == Some(row.(nome := data.nome, telefone := data.telefone,
                                           bio := data.bio, profileImage := data.profileImage))
  {
    var updated := UpdateProfiles(users, email, data);
    var p := (u: UserRow) => u.email == email;
    match FindFirst(users, p)
    case None =>
    case Some(i) =>
      var row := users[i];
      assert updated[i] == row.(nome := data.nome, telefone := data.telefone,
                                bio := data.bio, profileImage := data.profileImage);
      assert forall j :: 0 <= j < i ==> !p(updated[j]);
      FindFirstAt(updated, p, i);
  }

  /** An ad appended to the table comes first in its author's newest-first listing. */
  lemma AppendedHeadsListing(ads: seq<AnuncioRow>, row: AnuncioRow)
    ensures var listing := Reverse(Filter(ads + [row], AuthoredBy(row.userEmail)));
      |listing| > 0 && listing[0] == row
  {
    FilterAppend(ads, row, AuthoredBy(row.userEmail));
  }

  /** Users rows: ids handed out in increasing order below the AUTOINCREMENT
      counter, and no email twice (the UNIQUE constraint). */
  ghost predicate UsersWellFormed(users: seq<UserRow>, nextId: nat)
  {
    && 1 <= nextId
    && (forall i :: 0 <= i < |users| ==> 1 <= users[i].id < nextId)
    && (forall i, j :: 0 <= i < j < |users| ==> users[i].id < users[j].id)
    && (forall i, j :: 0 <= i < j < |users| ==> users[i].email != users[j].email)
  }

  /** Ads rows: ids and creation times increase with table order and stay
      below the counter and the clock; no operation ever moves an ad out of
      'pendente' or counts a view. */
  ghost predicate AnunciosWellFormed(ads: seq<AnuncioRow>, nextId: nat, clock: nat)
  {
    && 1 <= nextId
    && (forall i :: 0 <= i < |ads| ==> 1 <= ads[i].id < nextId && ads[i].createdAt < clock)
    && (forall i :: 0 <= i < |ads| ==> ads[i].status == Pendente && ads[i].views == 0)
    && StrictlyIncreasing(ads, AnuncioId)
    && StrictlyIncreasing(ads, CreatedAt)
  }

  lemma AppendUserWellFormed(users: seq<UserRow>, nextId: nat, row: UserRow)
    requires UsersWellFormed(users, nextId)
    requires row.id == nextId
    requires forall i :: 0 <= i < |users| ==> users[i].email != row.email
    ensures UsersWellFormed(users + [row], nextId + 1)
  {
    var t := users + [row];
    forall i | 0 <= i < |t| ensures 1 <= t[i].id < nextId + 1 {
      if i < |users| {
        assert t[i] == users[i];
      }
    }
    forall i, j | 0 <= i < j < |t|
      ensures t[i].id < t[j].id && t[i].email != t[j].email
    {
      assert t[i] == users[i];
      if j < |users| {
        assert t[j] == users[j];
      }
    }
  }

  lemma AppendAnuncioWellFormed(ads: seq<AnuncioRow>, nextId: nat, clock: nat, row: AnuncioRow)
    requires AnunciosWellFormed(ads, nextId, clock)
    requires row.id == nextId && row.createdAt == clock && row.status == Pendente && row.views == 0
    ensures AnunciosWellFormed(ads + [row], nextId + 1, clock + 1)
  {
    AppendKeepsIncreasing(ads, row, AnuncioId);
    AppendKeepsIncreasing(ads, row, CreatedAt);
  }

  lemma FilterAnunciosWellFormed(ads: seq<AnuncioRow>, nextId: nat, clock: nat, p: AnuncioRow -> bool)
    requires AnunciosWellFormed(ads, nextId, clock)
    ensures AnunciosWellFormed(Filter(ads, p), nextId, clock)
  {
    FilterKeepsIncreasing(ads, p, AnuncioId);
    FilterKeepsIncreasing(ads, p, CreatedAt);
  }

  /** Ids are unique, so deleting by id drops at most one row, the one with
      that id, and keeps the rest in order. */
  lemma DeleteByIdEffect(ads: seq<AnuncioRow>, id: int)
    requires StrictlyIncreasing(ads, AnuncioId)
    ensures forall k :: 0 <= k < |ads| && ads[k].id == id ==>
      Filter(ads, IdOtherThan(id)) == ads[..k] + ads[k + 1..]
    ensures (forall k :: 0 <= k < |ads| ==> ads[k].id != id) ==> Filter(ads, IdOtherThan(id)) == ads
  {
    var p := IdOtherThan(id);
    forall k | 0 <= k < |ads| && ads[k].id == id
      ensures Filter(ads, p) == ads[..k] + ads[k + 1..]
    {
      forall j | 0 <= j < |ads| && j != k ensures p(ads[j]) {
        assert AnuncioId(ads[j]) != AnuncioId(ads[k]);
      }
      FilterDropsOne(ads, p, k);
    }
    if forall k :: 0 <= k < |ads| ==> ads[k].id != id {
      FilterKeepsAll(ads, p);
    }
  }

  /** What `DELETE FROM anuncios WHERE id = ?` leaves: a well-formed table
      without that id, every other row kept. */
  lemma DeleteAnuncioEffect(ads: seq<AnuncioRow>, after: seq<AnuncioRow>, nextId: nat, clock: nat, id: int)
    requires AnunciosWellFormed(ads, nextId, clock)
    requires after == Filter(ads, IdOtherThan(id))
    ensures AnunciosWellFormed(after, nextId, clock)
    ensures forall i :: 0 <= i < |after| ==> after[i] in ads && after[i].id != id
    ensures forall i :: 0 <= i < |ads| && ads[i].id != id ==> ads[i] in after
    ensures forall k :: 0 <= k < |ads| && ads[k].id == id ==> after == ads[..k] + ads[k + 1..]
    ensures (forall k :: 0 <= k < |ads| ==> ads[k].id != id) ==> after == ads
  {
    FilterAnunciosWellFormed(ads, nextId, clock, IdOtherThan(id));
    DeleteByIdEffect(ads, id);
  }

  // ---------------------------------------------------------------- store

  class Store {
    var schema: Schema
    var users: seq<UserRow>
    var anuncios: seq<AnuncioRow>
    /** The AUTOINCREMENT sequences: the next id each table hands out. */
    var nextUserId: nat
    var nextAnuncioId: nat
    /** Logical `CURRENT_TIMESTAMP`: the `created_at` the next ad receives. */
    var clock: nat

    /** What every reachable state of the database satisfies. */
    ghost predicate Valid()
      reads this
    {
      && (UsersTable in schema ==> StartsWithCreateColumns(schema[UsersTable]))
      && (users != [] ==> UsersTable in schema)
      && (anuncios != [] ==> AnunciosTable in schema)
      && UsersWellFormed(users, nextUserId)
      && AnunciosWellFormed(anuncios, nextAnuncioId, clock)
    }

    /** `openDatabaseSync('midiatopo.db')` on a device with no database yet. */
    constructor Open()
      ensures Valid()
      ensures schema == map[] && users == [] && anuncios == []
    {
      schema := map[];
      users := [];
      anuncios := [];
      nextUserId := 1;
      nextAnuncioId := 1;
      clock := 0;
    }

    method SafeAddColumn(table: string, col: Column)
      requires Valid()
      modifies this`schema
      ensures Valid()
      ensures schema == AddColumnIfAbsent(old(schema), table, col)
    {
      AddColumnKeepsCreateColumns(schema, table, col);
      schema := AddColumnIfAbsent(schema, table, col);
    }

    /** `initDatabase`: create the tables if absent, then add the three
        migrated columns, each only if absent. Rows are untouched. */
    method InitDatabase()
      requires Valid()
      modifies this`schema
      ensures Valid()
      ensures schema == InitSchema(old(schema))
    {
      schema := CreateTablesIfNotExist(schema);
      assert schema[UsersTable][..|UsersCreateColumns|] == UsersCreateColumns;
      SafeAddColumn(UsersTable, UserMigrations[0]);
      SafeAddColumn(UsersTable, UserMigrations[1]);
      SafeAddColumn(UsersTable, UserMigrations[2]);
    }

    /** `checkEmailExists`: fails without the `users` table, otherwise true iff
        some row's email is exactly `email`. */
    function CheckEmailExists(email: string): (r: Result<bool, DbError>)
      requires Valid()
      reads this
      ensures r.Failure? <==> UsersTable !in schema
      ensures r.Success? ==> (r.value <==> exists i :: 0 <= i < |users| && users[i].email == email)
    {
      if UsersTable !in schema then Failure(NoSuchTable(UsersTable))
      else Success(FindUserByEmail(users, email).Some?)
    }

    /** `authenticateUser`: the row whose email and password are exactly the
        given ones, compared without any normalisation. */
    function AuthenticateUser(email: string, password: string): (r: Result<Option<UserRow>, DbError>)
      requires Valid()
      reads this
      ensures r.Failure? <==> UsersTable !in schema
      ensures r.Success? && r.value.Some? ==>
        r.value.value in users && r.value.value.email == email && r.value.value.password == password
      ensures r.Success? && r.value.None? ==>
        forall i :: 0 <= i < |users| ==> !(users[i].email == email && users[i].password == password)
    {
      if UsersTable !in schema then Failure(NoSuchTable(UsersTable))
      else Success(FindByCredentials(users, email, password))
    }

    /** `getUserByEmail`: the row with that email, or null when there is none
        or the query fails. */
    function GetUserByEmail(email: string): (r: Option<UserRow>)
      requires Valid()
      reads this
      ensures r.Some? ==> r.value in users && r.value.email == email
      ensures r.None? <==>
        UsersTable !in schema || forall i :: 0 <= i < |users| ==> users[i].email != email
    {
      if UsersTable !in schema then None else FindUserByEmail(users, email)
    }

    /** `getUserAnuncios`: exactly the ads of `email`, newest first (`[]` when
        the query fails). */
    function GetUserAnuncios(email: string): (r: seq<AnuncioRow>)
      requires Valid()
      reads this
      ensures forall i :: 0 <= i < |r| ==> r[i] in anuncios && r[i].userEmail == email
      ensures AnunciosTable in schema ==>
        forall i :: 0 <= i < |anuncios| && anuncios[i].userEmail == email ==> anuncios[i] in r
      ensures StrictlyDecreasing(r, CreatedAt)
    {
      if AnunciosTable !in schema then []
      else
        var p := AuthoredBy(email);
        FilterKeepsIncreasing(anuncios, p, CreatedAt);
        ReverseOfIncreasingDecreases(Filter(anuncios, p), CreatedAt);
        Reverse(Filter(anuncios, p))
    }

    /** `addUser`: one new row with the given name, nickname, email and
        password and the defaults telefone = '', bio = 'Administrador.',
        profile_image = null; on any failure nothing is inserted. */
    method AddUser(u: NewUser) returns (r: Result<nat, DbError>)
      requires Valid()
      modifies this`users, this`nextUserId
      ensures Valid()
      ensures var err := InsertUserError(old(schema), old(users), u.email);
        && (err.Some? ==> r == Failure(err.value) && users == old(users) && nextUserId == old(nextUserId))
        && (err.None? ==>
              && r == Success(old(nextUserId))
              && nextUserId == old(nextUserId) + 1
              && users == old(users) +
                   [UserRow(old(nextUserId), u.nome, u.apelido, u.email, u.password, "", DefaultBio, None)])
      ensures r.Success? ==> CheckEmailExists(u.email) == Success(true)
    {
      var err := InsertUserError(schema, users, u.email);
      if err.Some? {
        return Failure(err.value);
      }
      var row := UserRow(nextUserId, u.nome, u.apelido, u.email, u.password, "", DefaultBio, None);
      AppendUserWellFormed(users, nextUserId, row);
      users := users + [row];
      r := Success(nextUserId);
      nextUserId := nextUserId + 1;
      assert users[|users| - 1].email == u.email;
    }

    /** `updateUserProfile`: overwrites nome, telefone, bio and profile_image
        of the rows with that email and reports success even when no row
        matched. */
    method UpdateUserProfile(email: string, data: ProfileUpdate) returns (r: Result<bool, DbError>)
      requires Valid()
      modifies this`users
      ensures Valid()
      ensures var err := StatementError(old(schema), UsersTable, UpdateProfileColumns);
        && (err.Some? ==> r == Failure(err.value) && users == old(users))
        && (err.None? ==> r == Success(true) && users == UpdateProfiles(old(users), email, data))
    {
      var err := StatementError(schema, UsersTable, UpdateProfileColumns);
      if err.Some? {
        return Failure(err.value);
      }
      users := UpdateProfiles(users, email, data);
      r := Success(true);
    }

    /** `createAnuncio`: a new row with status 'pendente', 0 views and the
        current time, whatever the input; returns the new id, which then heads
        its author's listing. */
    method CreateAnuncio(data: AnuncioInput) returns (r: Result<nat, DbError>)
      requires Valid()
      modifies this`anuncios, this`nextAnuncioId, this`clock
      ensures Valid()
      ensures AnunciosTable !in old(schema) ==>
        r == Failure(NoSuchTable(AnunciosTable)) && anuncios == old(anuncios) &&
        nextAnuncioId == old(nextAnuncioId) && clock == old(clock)
      ensures AnunciosTable in old(schema) ==>
        r == Success(old(nextAnuncioId)) &&
        nextAnuncioId == old(nextAnuncioId) + 1 && clock == old(clock) + 1 &&
        anuncios == old(anuncios) + [AnuncioRow(old(nextAnuncioId), data.userEmail, data.titulo,
          data.descricao, data.tipoProduto, data.capa, data.arquivoUrl, data.demoLink,
          Pendente, 0, old(clock))]
    {
      if AnunciosTable !in schema {
        return Failure(NoSuchTable(AnunciosTable));
      }
      var row := AnuncioRow(nextAnuncioId, data.userEmail, data.titulo, data.descricao,
        data.tipoProduto, data.capa, data.arquivoUrl, data.demoLink, Pendente, 0, clock);
      ghost var before := anuncios;
      AppendAnuncioWellFormed(before, nextAnuncioId, clock, row);
      anuncios := anuncios + [row];
      r := Success(nextAnuncioId);
      nextAnuncioId := nextAnuncioId + 1;
      clock := clock + 1;
    }

    /** `deleteAnuncio`: removes the row with that id, keeps every other row in
        order, and reports success even when no row had that id. */
    method DeleteAnuncio(id: int) returns (r: Result<bool, DbError>)
      requires Valid()
      modifies this`anuncios
      ensures Valid()
      ensures AnunciosTable !in schema ==>
        r == Failure(NoSuchTable(AnunciosTable)) && anuncios == old(anuncios)
      ensures AnunciosTable in schema ==>
        r == Success(true) &&
        (forall i :: 0 <= i < |anuncios| ==> anuncios[i] in old(anuncios) && anuncios[i].id != id) &&
        (forall i :: 0 <= i < |old(anuncios)| && old(anuncios)[i].id != id ==> old(anuncios)[i] in anuncios)
      ensures forall k :: 0 <= k < |old(anuncios)| && old(anuncios)[k].id == id ==>
        anuncios == old(anuncios)[..k] + old(anuncios)[k + 1..]
      ensures (forall k :: 0 <= k < |old(anuncios)| ==> old(anuncios)[k].id != id) ==>
        anuncios == old(anuncios)
    {
      if AnunciosTable !in schema {
        return Failure(NoSuchTable(AnunciosTable));
      }
      var after := Filter(anuncios, IdOtherThan(id));
      DeleteAnuncioEffect(anuncios, after, nextAnuncioId, clock, id);
      anuncios := after;
      r := Success(true);
    }
  }

  /** The ad `createAnuncio` has just appended is the first one its author's
      listing shows. */
  lemma NewAdHeadsListing(db: Store, before: seq<AnuncioRow>, row: AnuncioRow)
    requires db.Valid() && AnunciosTable in db.schema
    requires db.anuncios == before + [row]
    ensures |db.GetUserAnuncios(row.userEmail)| > 0 && db.GetUserAnuncios(row.userEmail)[0] == row
  {
    AppendedHeadsListing(before, row);
  }

  /** In every valid state the SELECTs on `users` can fail only for a missing
      table: the columns they name are present whenever the table is. */
  lemma UserQueriesNeedOnlyTable(db: Store)
    requires db.Valid() && UsersTable in db.schema
    ensures StatementError(db.schema, UsersTable, ["email", "password"]).None?
  {
    CreateColumnsServeQueries(db.schema[UsersTable]);
    var names := ["email", "password"];
    assert forall k :: 0 <= k < |names| ==> names[k] == "email" || names[k] == "password";
  }
}
