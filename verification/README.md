# MídiaTopo data layer and screen flows, in Dafny

MídiaTopo is a React Native (Expo) app for publishing ads. This project models
its data layer and the screen handlers that drive it:

- the SQLite store of `app/lib/database.ts`: the schema set up by
  `initDatabase`, the `users` and `anuncios` tables and their queries;
- the in-memory user registry and package limits of `lib/userStore.ts`;
- the registration, login and ad-creation handlers;
- the session reads of the dashboard bar and the drawer, and the limitations
  screen's lookup of its `nome` parameter among the in-memory users;
- the three variants of `getInitials`.

The modules follow the source files:

| module | file | what it holds |
|---|---|---|
| `Wrappers` | | `Option` and `Result` |
| `Collections` | | first-match search, filtering and reversal of sequences, and their lemmas |
| `Strings` | | ASCII `trim`, `toLowerCase`/`toUpperCase`, `split(' ')`, `charAt(0)` |
| `Database` | `app/lib/database.ts` | the schema as a map from table name to columns, row datatypes, and the class `Store` with the two tables as sequence fields |
| `UserStore` | `lib/userStore.ts` | the class `Registry` around the module-level `users` array; package limitations |
| `Session` | the AsyncStorage slot `'currentUser'` | the class `SessionStorage`, `sessionUser?.email`, `profile_image \|\| null` |
| `Initials` | `getInitials` in three components | the plain variant and the trimming variant |
| `Registration` | `app/cadastro.tsx` | the email pattern, the validation chain, `handleRegister` |
| `Login` | `app/login.tsx` | `handleLogin` |
| `CreateAd` | `app/criar-anuncio.tsx` | the upload slots, the payload, `handleFinalizar` |
| `Dashboard` | `components/DashboardLayout.tsx` | `loadUserData`, `handleLogout` |
| `Drawer` | `components/CustomDrawerContent.tsx` | `loadUser`, the visitor card, `handleLogout` |
| `Limitations` | `app/limitations.tsx` | the `nome` parameter lookup |

## How the store is modelled

Database failures come only from the schema the statement runs against:

- a missing table gives `NoSuchTable`;
- a missing column gives `NoSuchColumn`;
- a second row with an existing email gives `UniqueViolation` (the UNIQUE
  constraint on `users.email`).

The functions that rethrow return `Failure`. `getUserByEmail` and
`getUserAnuncios` swallow their errors, so they return `None` and `[]`.

The AUTOINCREMENT ids are counters. They start at 1 and are not consumed by a
failed insert.

`CURRENT_TIMESTAMP` is a logical clock that advances by one per ad. Ads
therefore never tie on `created_at`, and "newest first" is the reverse of
table order.

`Store.Valid` is the invariant every operation keeps:

- an existing `users` table starts with the columns of its CREATE statement,
  so `email` and `password` are always there once the table is;
- user ids are increasing and emails unique;
- ad ids and creation times are strictly increasing;
- every ad is `'pendente'` with 0 views, because no operation of the core
  changes either.

The session slot holds a `UserRow` or nothing; the JSON round trip through
AsyncStorage is taken to return the row unchanged.

Two consequences of the code are stated as lemmas rather than treated as
defects:

- The registry compares normalised queries with stored emails that are not
  normalised, so an email stored with an upper-case letter is never found
  (`UserStore.UpperCaseEmailNeverMatches`).
- The drawer's `getInitials` trims before splitting and has no fallback, so
  a name made only of spaces shows empty initials
  (`Drawer.ShownInitialsEmpty`).

## Model

| member | source | states |
|---|---|---|
| Database.CreateTablesIfNotExist | app/lib/database.ts:11-33 | both tables exist afterwards; a table already present keeps its columns exactly; a missing one gets the columns of its CREATE statement |
| Database.AddColumnIfAbsent | app/lib/database.ts:49-56 | the column is present afterwards when the table exists; a column not yet there is appended at the end, after the existing columns kept in order; a missing table or a column already there leaves the schema unchanged (the swallowed error); other tables are untouched |
| Database.InitSchemaComplete | app/lib/database.ts:6-40 | after `initDatabase` both tables exist and `users` has `telefone`, `bio` and `profile_image` |
| Database.InitSchemaAdditive | app/lib/database.ts:36-40 | every table already on disk keeps its columns, in order, as a prefix: `initDatabase` only adds |
| Database.InitSchemaIdempotent | app/lib/database.ts:6-56 | `initDatabase` on a schema it produced changes nothing |
| Database.InitSchemaRepeated | app/lib/database.ts:6-56 | calling `initDatabase` n ≥ 1 times leaves the schema of the first call |
| Database.StatementError | app/lib/database.ts:62-65 | a statement fails exactly when its table or one of its named columns is missing, and reports the table first |
| Database.InsertUserError | app/lib/database.ts:16 | the INSERT of `addUser` succeeds iff the schema has the columns and no row has that email; a taken email gives the UNIQUE violation |
| Database.FindUserByEmail | app/lib/database.ts:96-104 | a row with exactly that email, and none only when no row has it |
| Database.FindByCredentials | app/lib/database.ts:73-84 | a row with exactly that email and password, and none only when no row has both |
| Database.UpdateProfiles | app/lib/database.ts:107-118 | rows with the email get the new nome, telefone, bio and profile_image; their id, apelido, email and password and all other rows are kept; the length is kept |
| Database.UpdateThenFind | app/lib/database.ts:107-118 | looking a user up after the update gives the old row with the four new values; an unknown email stays unknown |
| Database.AppendedHeadsListing | app/lib/database.ts:136-144 | an ad just appended comes first in its author's newest-first listing |
| Database.AppendAnuncioWellFormed | app/lib/database.ts:122-134 | appending a `'pendente'` ad with 0 views, the next id and the current clock keeps the ads invariant |
| Database.FilterAnunciosWellFormed | app/lib/database.ts:146-154 | deleting rows keeps the ads invariant |
| Database.DeleteByIdEffect | app/lib/database.ts:146-154 | with unique ids, deleting by id removes exactly the row with that id and keeps the others in order, and removes nothing when no row has it |
| Database.DeleteAnuncioEffect | app/lib/database.ts:146-154 | the table left by the DELETE keeps the ads invariant, holds no row with that id, keeps every other row, and equals the old table minus that one row (or the old table when no row had the id) |
| Database.AppendUserWellFormed | app/lib/database.ts:60-71 | appending a row with the next id and an email no row has keeps ids increasing and emails unique |
| Database.AddColumnKeepsCreateColumns | app/lib/database.ts:36-56 | adding a column never disturbs the CREATE columns at the front of `users` |
| Database.CreateColumnsServeQueries | app/lib/database.ts:11-18 | a `users` table that starts with its CREATE columns has `email` and `password` |
| Database.UserQueriesNeedOnlyTable | app/lib/database.ts:73-104 | in a valid store with a `users` table, the statements on `email` and `password` never fail for a missing column |
| Database.Store.Open | app/lib/database.ts:4 | a new database has no tables and no rows, and satisfies the invariant |
| Database.Store.SafeAddColumn | app/lib/database.ts:49-56 | the schema becomes `AddColumnIfAbsent` of the old one; rows are untouched |
| Database.Store.InitDatabase | app/lib/database.ts:6-46 | the schema becomes `InitSchema` of the old one and the invariant holds, including the CREATE columns at the front of `users` |
| Database.Store.CheckEmailExists | app/lib/database.ts:86-94 | on a valid store (where `users`, once present, has its CREATE columns), fails iff there is no `users` table; otherwise true iff some row has exactly that email |
| Database.Store.AuthenticateUser | app/lib/database.ts:73-84 | on a valid store, fails iff there is no `users` table; otherwise a stored row with exactly that email and password, and nothing iff no row has both |
| Database.Store.GetUserByEmail | app/lib/database.ts:96-104 | on a valid store, a stored row with that email, or none when the table is missing or no row has it |
| Database.Store.GetUserAnuncios | app/lib/database.ts:136-144 | exactly the ads of that email when the table exists (`[]` otherwise), strictly newest first |
| Database.Store.AddUser | app/lib/database.ts:60-71 | on success one row is appended with the next id, the given nome, apelido, email and password, telefone `''`, bio `'Administrador.'` and no image, and the email is then found; on failure (missing schema, taken email) nothing changes |
| Database.Store.UpdateUserProfile | app/lib/database.ts:107-118 | with the columns present, the rows become `UpdateProfiles` of the old rows and the result is true even when nothing matched; otherwise nothing changes |
| Database.Store.CreateAnuncio | app/lib/database.ts:122-134 | with the table present, one row is appended with the next id, the input fields, status `'pendente'`, 0 views and the current time, and the id counter and clock advance by one; otherwise nothing changes |
| Database.NewAdHeadsListing | app/lib/database.ts:122-144 | after `createAnuncio` appends a row, that row comes first in its author's newest-first listing |
| Database.Store.DeleteAnuncio | app/lib/database.ts:146-154 | removes exactly the row with that id, keeps the rest in order, and reports true even when no row had the id |
| UserStore.NormalizeEmail | lib/userStore.ts:18 | the normalised email has no upper-case letter and no surrounding whitespace, is no longer than the input, and is empty iff the input is blank |
| UserStore.NormalizeEmailKeepsNormal | lib/userStore.ts:18 | an email already trimmed and in lower case normalises to itself |
| UserStore.NormalizeEmailIdempotent | lib/userStore.ts:18 | normalising twice gives the same as normalising once |
| UserStore.NormalizeEmailOfVariant | lib/userStore.ts:18 | any variant of a normalised email that differs only in letter case and surrounding blanks normalises back to it |
| UserStore.UpperCaseEmailNeverMatches | lib/userStore.ts:17-20 | a stored email holding an upper-case letter never equals a normalised query |
| UserStore.Registry.constructor | lib/userStore.ts:11 | the registry starts empty |
| UserStore.Registry.AddUser | lib/userStore.ts:13-15 | appends the user at the end with no duplicate check |
| UserStore.Registry.EmailExists | lib/userStore.ts:17-20 | true iff some stored email equals the normalised query |
| UserStore.Registry.Authenticate | lib/userStore.ts:22-27 | the first user whose email equals the normalised query and whose password matches exactly; none iff there is no such user |
| UserStore.EmailExistsForVariant | lib/userStore.ts:17-20 | a stored email in lower case without surrounding blanks is found by every query that differs from it only in letter case and surrounding blanks |
| UserStore.AuthenticatedEmailExists | lib/userStore.ts:17-27 | whoever `authenticate` accepts, `emailExists` reports |
| UserStore.Registry.GetUsers | lib/userStore.ts:29-31 | a fresh array holding the same users in the same order |
| UserStore.Registry.GetUserPackage | lib/userStore.ts:33-37 | the package of the first user with the normalised email, `'trial'` when there is none or it has no package |
| UserStore.FeatureValues | lib/userStore.ts:49-101 | every package has one value per feature label |
| UserStore.PackageFeatures | lib/userStore.ts:49-101 | the six feature rows of a package: the fixed labels in order, each with the package's value, and marked unlimited exactly for the enterprise ads, campaigns and storage rows |
| UserStore.GetPackageLimitations | lib/userStore.ts:49-101 | total over the four packages; six features with the same labels in the same order, each carrying that package's value; some feature is unlimited iff the package is enterprise; the name and description are the package's `PackageTitle` |
| UserStore.AdsPerMonthByPackage | lib/userStore.ts:56-94 | the monthly ad allowance is 5, 20 and 100 and the simultaneous campaigns 2, 5 and 20 for trial, basico and premium; both are unlimited for enterprise |
| UserStore.PackageTitle | lib/userStore.ts:52-89 | every package has a non-empty name and description |
| Strings.Trim | app/login.tsx:43 | the result is a slice of the input with only whitespace before and after it, is empty iff the input is blank, and otherwise starts and ends with a non-space character |
| Strings.TrimPadded | app/login.tsx:43 | text with no whitespace at either end, padded with whitespace, trims back to exactly that text |
| Strings.TrimOfTrimmed | app/login.tsx:43 | trimming text with no whitespace at either end changes nothing |
| Strings.ToLower | lib/userStore.ts:18 | same length, no upper-case letter left, each upper-case letter replaced by its own lower-case letter (code + 32) and every other character kept |
| Strings.ToLowerOfLower | lib/userStore.ts:18 | lower-casing text without upper-case letters changes nothing |
| Strings.ToLowerCharwise | lib/userStore.ts:18 | text whose characters lower-case one by one to those of `e` lower-cases to `e` |
| Strings.ToUpper | components/DashboardLayout.tsx:175-176 | same length, no lower-case letter left, each lower-case letter replaced by its own upper-case letter (code − 32) and every other character kept |
| Strings.FirstChar | components/DashboardLayout.tsx:175-176 | `charAt(0)`: the first character as a one-character prefix, and `''` exactly for the empty string |
| Strings.Split | components/DashboardLayout.tsx:174 | at least one part, exactly one iff the separator does not occur, and no part contains it |
| Strings.JoinSplit | components/DashboardLayout.tsx:174 | joining the parts of a split with the separator gives back the string |
| Strings.SplitEnds | components/DashboardLayout.tsx:176 | the first part is the text before the first separator and the last part the text after the last one |
| Initials.InitialsOfOneWord | components/DashboardLayout.tsx:174-175 | a non-empty name without a space splits into one word, whose initial is its first character upper-cased |
| Initials.InitialsOfWords | components/DashboardLayout.tsx:174-176 | a name with a space gives the first characters of the text before the first space and after the last one, upper-cased |
| Initials.InitialsOfFields | components/DashboardLayout.tsx:175-176 | at most two characters, none lower-case |
| Initials.GetInitials | components/DashboardLayout.tsx:172-177 | `'U'` for the empty name; the first character upper-cased when there is no space; otherwise the first characters of the first and last words, upper-cased; at most two characters (the copy in `app/limitations.tsx` at lines 169-174 is identical) |
| Initials.GetInitialsTrimmed | components/CustomDrawerContent.tsx:69-73 | the same rule on the trimmed name; empty iff the name is blank |
| Initials.TrimmedAgreesOnTrimmedNames | components/CustomDrawerContent.tsx:69-73 | on a non-empty name with no surrounding whitespace the drawer's variant equals the dashboard's |
| Session.SessionStorage.constructor | app/login.tsx:55 | a device starts with no saved session |
| Session.SessionStorage.SetCurrentUser | app/login.tsx:55 | the slot holds exactly the given row |
| Session.SessionStorage.RemoveCurrentUser | components/CustomDrawerContent.tsx:76 | the slot is empty afterwards |
| Session.SessionEmail | app/criar-anuncio.tsx:177-180 | an email is returned iff there is a session and its email is non-empty, and it is that email |
| Session.DisplayImage | components/DashboardLayout.tsx:156 | an image is shown iff one is stored and it is not empty, and it is the stored one |
| Registration.PositionalTestMatches | app/cadastro.tsx:71-72 | the position-based test implies the email pattern |
| Registration.PatternPassesPositionalTest | app/cadastro.tsx:71-72 | the email pattern implies the position-based test |
| Registration.PositionalTestIffPattern | app/cadastro.tsx:71-72 | the position-based test accepts exactly the strings matching the pattern |
| Registration.EmailLooksValid | app/cadastro.tsx:71-72 | `emailRegex.test(email)`: true exactly when the string matches `^[^\s@]+@[^\s@]+\.[^\s@]+$` |
| Registration.ValidateRegistration | app/cadastro.tsx:66-78 | missing fields, then a malformed untrimmed email, then differing passwords, each reported iff the earlier checks passed and this one fails; no error iff all pass |
| Registration.RegisterScreen.constructor | app/cadastro.tsx:61 | not loading initially |
| Registration.RegisterScreen.SaveAccount | app/cadastro.tsx:82-108 | a failing email check or a taken email leave the store unchanged and `addUser` is not called; otherwise the insert's success or failure gives the outcome; a success appends the row and advances the user id counter by one |
| Registration.RegisterScreen.HandleRegister | app/cadastro.tsx:66-109 | a failed validation touches neither the store nor `loading`; otherwise the store changes only by the row `addUser` appends with the fields as typed and by the user id counter advancing by one, and `loading` ends false |
| Login.LoginFieldsFilled | app/login.tsx:43-45 | true iff the email has a non-space character and the password is non-empty |
| Login.LoginScreen.constructor | app/login.tsx:40 | not loading initially |
| Login.LoginScreen.HandleLogin | app/login.tsx:42-67 | blank fields skip the store; the session is written only when the store returns a row, and then holds that row, whose email and password equal the untrimmed input; `loading` ends false after any store call |
| CreateAd.UploadUri | app/criar-anuncio.tsx:187-189 | the URI of the file in that slot, or `''` when the slot is empty |
| CreateAd.BuildAnuncio | app/criar-anuncio.tsx:182-190 | the payload carries the given email, the title and description as typed, `'Geral'` for an empty category and otherwise the category, and the URIs of the cover, produto and demo slots |
| CreateAd.ValidateAndBuild | app/criar-anuncio.tsx:172-190 | a blank title, then no plan, then no session email, each reported iff the earlier checks passed; otherwise the payload is built for the session's email |
| CreateAd.PayloadIgnoresCampaignFields | app/criar-anuncio.tsx:182-190 | two forms that agree on title, description and category, and on whether a plan is chosen, give the same outcome and payload |
| CreateAd.Decimal | app/criar-anuncio.tsx:148 | a non-empty string of decimal digits, `"0"` exactly for 0 |
| CreateAd.DecimalValue | app/criar-anuncio.tsx:148 | the digits of `Decimal(n)` stand for n, with no leading zero |
| CreateAd.PickedName | app/criar-anuncio.tsx:146-162 | a media pick without a file name is called `midia_` plus the time; every other pick keeps its name; media names are never empty |
| CreateAd.CreateAdScreen.constructor | app/criar-anuncio.tsx:77-84 | no uploads, no slot, the image tab, the modal hidden |
| CreateAd.CreateAdScreen.OpenUploadModal | app/criar-anuncio.tsx:131-135 | remembers the slot, selects the image tab and shows the modal; the uploads are kept |
| CreateAd.CreateAdScreen.SelectTab | app/criar-anuncio.tsx:409 | the pressed tab becomes active |
| CreateAd.CreateAdScreen.HandlePickFile | app/criar-anuncio.tsx:137-170 | a pick stores the file under the current slot and closes the modal, and every other slot is unchanged; a cancelled or failed pick changes nothing |
| CreateAd.CreateAdScreen.HandleFinalizar | app/criar-anuncio.tsx:172-198 | a failed check leaves the store unchanged; otherwise exactly the built ad is appended as `'pendente'` and the ad id counter and clock advance by one, or nothing changes when the table is missing |
| Dashboard.DashboardScreen.constructor | components/DashboardLayout.tsx:123-127 | name `'Usuário'`, no image, image loading, dropdown closed |
| Dashboard.DashboardScreen.LoadUserData | components/DashboardLayout.tsx:143-164 | without a session email nothing changes; with one, a stored row with that email gives the name and the image (none when empty), no row keeps them, and loading stops |
| Dashboard.DashboardScreen.HandleLogout | components/DashboardLayout.tsx:183-204 | confirming removes the session and closes the dropdown; cancelling changes nothing |
| Drawer.ShownUser | components/CustomDrawerContent.tsx:54-59 | the name is the stored name or `'Usuário'` and never empty; the email is the stored one; the initials are the drawer's `getInitials` of the name, or of `'U'` when it is empty, so at most two characters, none lower-case; the image is the stored one unless empty |
| Drawer.ShownInitialsEmpty | components/CustomDrawerContent.tsx:57-73 | the initials are empty iff the stored name is non-empty and blank; an empty name gives `'U'` |
| Drawer.DrawerScreen.constructor | components/CustomDrawerContent.tsx:38-43 | the visitor card |
| Drawer.DrawerScreen.LoadUser | components/CustomDrawerContent.tsx:48-64 | a stored session replaces the card by `ShownUser`; without one the card is kept |
| Drawer.DrawerScreen.HandleLogout | components/CustomDrawerContent.tsx:75-78 | the session slot is empty afterwards |
| Limitations.FindEmailByNome | app/limitations.tsx:162-165 | the email of the first user with exactly that name, none iff no user has it |
| Limitations.LimitationsScreen.constructor | app/limitations.tsx:131-132 | name `'Usuário'`, email `''` |
| Limitations.LimitationsScreen.ApplyNomeParam | app/limitations.tsx:158-167 | an absent or empty parameter changes nothing; otherwise the decoded name is shown, and the email becomes that of the first user with that name or is kept |

## Left out

- SQLite engine internals: `PRAGMA journal_mode = WAL`, SQL parsing, durability, file I/O and I/O failures. The only errors modelled are a missing table, a missing column and the UNIQUE email.
- The `anuncios` table is only ever created whole, and no code path alters its columns, so its statements check only that it exists.
- `initDatabase` failing as a whole (the batch `execAsync` rejecting) is not modelled; the CREATE step always succeeds.
- `addUser` returns the run result object; the model returns the new row's id, which the callers do not use.
- `CURRENT_TIMESTAMP` is a logical clock rather than wall-clock seconds, so ads created in the same second, whose order the query leaves unspecified, do not arise.
- `async`/`await`, promise scheduling and the dashboard's `isActive` cancellation flag: every call is one sequential step.
- Users of the in-memory registry are values. In the source, `addUser` stores the caller's object and `getUsers` copies only the array, so a caller that changes a field of a returned user changes the registry's user too; that sharing is not captured.
- AsyncStorage and JSON: the session is one `Option` slot. A parse error, the `catch` branches it would reach and the drawer's logging of it are not modelled.
- React and Expo plumbing: rendering, styles, hooks, navigation (`router.*`), `Alert`, `Linking`, `DateTimePicker` and the pickers' own behaviour. A pick is given as a parameter, and the current time `Date.now()` is a parameter of `HandlePickFile`.
- A document pick that reports an empty asset list, which makes the source throw inside its own `try`, is folded into a failed pick.
- Unicode string semantics: `trim`, `\s`, `toLowerCase` and `toUpperCase` are modelled over ASCII whitespace and letters.
- `decodeURIComponent` is a function parameter of `ApplyNomeParam`; its exception on malformed input is not modelled.
- The plan price list, the display formatting of dates and prices, and the campaign, region, period, audience and payment dropdowns, which only hold form state.
- The limitations screen's `handleLogout`, which only navigates.
- `app/esqueceu_senha.tsx`, `app/_layout.tsx` (it only calls `initDatabase`) and `constants/Network.ts` are not part of this model.
