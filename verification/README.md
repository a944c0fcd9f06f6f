# Asset-Manager authentication and authorization, in Dafny

This project models the core of a small Flask asset-tracking application.
Users register and log in. Logged-in users create, list and edit "asset"
records. Only administrators may delete assets. The model covers three parts.

- **Records and storage** (`models.dfy`, module `Models`). These are the `User`
  and `Asset` rows. Each table is a sequence in row order, so a query's
  `.first()` is the first matching row. `Valid` is the storage invariant:
  primary keys are distinct, usernames are unique, and every asset's owner
  exists. A new row's key is one more than the largest key, or 1 for an empty
  table. This is how SQLite assigns an integer primary key.
- **Request handlers** (`app.dfy`, module `App`). Each route is a pure
  transition from a `State` (the database plus a session that is anonymous or
  holds one user id) to a `Reply` (a `Response` and the next state). The
  `login_required` and `admin_required` guards are explicit functions. `Step`
  dispatches a request to its route, and `Run` handles a sequence of requests.
  The properties are in `app_properties.dfy` (module `AppProperties`): guard
  ordering, login and registration contracts, frame conditions, the session
  lifecycle, and the invariant that every request preserves.
- **Form validators** (`forms.dfy`, module `Forms`). These model
  `RegistrationForm`, `LoginForm` and `AssetForm`. Each is a pure function
  that returns a field's error list. The uniqueness checks take the table as
  an argument. The routes never call these forms. They read `request.form`
  directly, and `AppProperties.NewAssetIgnoresAssetForm` proves that input
  the form refuses is still stored.

Password hashing is a `Hasher` value holding two uninterpreted functions,
`hash` and `verify` (module `Hashing`). Positive results rely on one
assumption, `RoundTrips`: a digest verifies its own password. The library's
promise that a wrong password fails is `Discriminating`. It cannot be proved
here, so only `WrongPasswordRejected` uses it, as an explicit `requires`.

The model follows the code, which notably:
- does not make asset names unique in storage, and `new_asset` does not check them;
- gives `AssetForm`'s name check no exemption for the record being edited;
- checks passwords only for length, with no complexity rule, although
  tests/test_form_validation.py:22-32 expects `password` to be rejected, which
  forms.py:7 does not do;
- never sets `created_by` when an asset is created.

`DataRequired` rejects a value that holds only whitespace, because it strips
the value first. So the form rules say "has a non-space character", not just
"non-empty".

## Model

| member | source | states |
|---|---|---|
| Models.FirstIndex | app.py:43 | the row a `filter_by(...).first()` returns: the first row that matches, with none before it; no result means no row matches |
| Models.MaxId | models.py:10 | the largest key in a table is at least every key and is itself a key; it is 0 for an empty table |
| Models.NextId | models.py:17 | a new row's key is larger than every existing key: one more than the largest, or 1 for an empty table |
| Models.UserById | app.py:20-22 | `load_user` finds a user exactly when some row has that id, and the user it returns has that id |
| Models.UserByName | app.py:43 | the username lookup finds a row exactly when the name is in use, and the row has that username |
| Models.AssetIndex | app.py:109 | `get_or_404` finds a position exactly when some asset has the id, and the asset there has that id |
| Models.AssetByName | forms.py:24-27 | the asset-name lookup finds a row exactly when some asset has that name |
| Models.InsertUser | app.py:67-70 | adds exactly one user row with the given name, digest and role under a fresh id; earlier rows and the asset table are unchanged |
| Models.InsertAsset | models.py:16-23 | adds exactly one asset row under a fresh id, with the given creation time and no creator name; earlier rows and the user table are unchanged |
| Models.RemoveAt | app.py:110 | deleting a row keeps every other row, in order |
| Models.InsertUserKeepsValid | models.py:9-13 | inserting a user whose name is not in use keeps ids distinct, usernames unique and owners resolvable |
| Models.InsertAssetKeepsValid | models.py:16-20 | inserting an asset with an existing owner keeps the storage invariant |
| Models.RemoveAssetKeepsValid | app.py:109-111 | deleting an asset keeps the storage invariant |
| Models.UpdateAssetKeepsValid | app.py:97-101 | changing an asset's name and description keeps the storage invariant |
| Hashing.AssumptionsSatisfiable | tests/test_security.py:43-51 | some hasher both verifies its own digests and rejects every other password, so the hashing assumptions are consistent |
| App.CurrentUser | app.py:20-22 | the current user exists exactly when the session holds an id that names a stored user, and is that user |
| App.LoginRequired | app.py:16-18 | `login_required` admits exactly the authenticated visitor and sends anyone else to the login page |
| App.AdminRequired | app.py:24-31 | `admin_required` sends an anonymous visitor to the login page, refuses a non-admin with 403, and admits an authenticated admin, and only an admin |
| App.HomeRoute | app.py:33-36 | the home page needs authentication and changes nothing |
| App.LoginRoute | app.py:38-50 | login never writes the database; a successful POST binds the session to a user whose username matches and whose digest verifies the password; a failure changes nothing |
| App.LogoutRoute | app.py:52-57 | logout needs authentication, leaves the session anonymous and does not touch the database |
| App.RegisterRoute | app.py:59-73 | a username in use is refused with nothing changed; otherwise exactly one user is added, with that username, the hash of the password and role `user`; the session and assets are untouched |
| App.NewAssetRoute | app.py:75-86 | needs authentication; a POST adds exactly one asset owned by the current user, stamped with the current time and no creator name; existing assets are unchanged |
| App.ListAssetsRoute | app.py:88-92 | needs authentication and shows every stored asset |
| App.EditAssetRoute | app.py:94-104 | needs authentication; a missing id is 404 with nothing changed; a POST replaces only the name and description of the asset with that id; ids, owners, creation times and creator names are unchanged |
| App.DeleteAssetRoute | app.py:106-113 | the guards run before the lookup: anonymous is redirected, a non-admin gets 403; a successful delete removes one row with the given id |
| App.Initial | app.py:117 | a freshly created database with no session satisfies the invariant |
| AppProperties.StepPreservesInv | app.py:20-22 | every request keeps the storage invariant, and a session's id keeps resolving through `load_user` |
| AppProperties.UsersPrefixKeepsHasUser | app.py:20-22 | a user stays resolvable when rows are only appended |
| AppProperties.SameUsernameSameRow | models.py:11 | under the unique username constraint, a username names one row |
| AppProperties.SameIdSameRow | models.py:10 | under the primary key constraint, a user id names one row |
| AppProperties.UsersOnlyGrow | app.py:64-70 | no route edits or deletes a user; a row a route adds has the default role |
| AppProperties.NoRouteCreatesAdmin | app.py:68 | every admin after a request was already stored before it |
| AppProperties.AnonymousNeverForbidden | app.py:24-31 | an anonymous visitor is never told 403; every guarded route redirects them to login with nothing changed |
| AppProperties.ForbiddenOnlyForNonAdminDelete | app.py:106-107 | 403 comes only from an authenticated non-admin asking to delete, and changes nothing |
| AppProperties.DeleteForbiddenEvenIfMissing | app.py:107-109 | a non-admin gets 403 even for an id that names no asset, because the role check comes before `get_or_404` |
| AppProperties.AdminDelete | app.py:108-111 | for an admin, a missing id is 404 with nothing changed; otherwise exactly the asset with that id is removed and nothing else |
| AppProperties.RemoveOnlyTarget | app.py:110 | with distinct keys, removing a position removes exactly the asset with that key |
| AppProperties.LoginIff | app.py:43-49 | login succeeds iff a user with exactly that username exists and its digest verifies the password; the session then holds that user's id; otherwise nothing changes |
| AppProperties.LoginFailuresIndistinguishable | app.py:44-49 | an unknown username and a wrong password give the same reply value, `InvalidCredentials`, and leave the state unchanged |
| AppProperties.RegisterThenLogin | app.py:44-45 | if the hasher round-trips, logging in with freshly registered credentials authenticates the new `user`-role account |
| AppProperties.WrongPasswordRejected | app.py:44 | assuming the hasher rejects other passwords, logging in with a password other than the one hashed fails |
| AppProperties.SessionOnlyViaLogin | app.py:45 | the session moves to a user only through a login whose credentials verify against that user's digest |
| AppProperties.LogoutEndsIdentity | app.py:55 | after logout there is no current user |
| AppProperties.IdentityStable | app.py:20-22 | an authenticated user stays the current user through every request except login and logout |
| AppProperties.NewAssetAcceptsDuplicateName | app.py:79-83 | `new_asset` accepts a name already in use, so two stored assets may share a name; the new row's owner is the current user |
| AppProperties.NewAssetIgnoresAssetForm | app.py:79-81 | input that `AssetForm` refuses is stored all the same |
| AppProperties.EditChangesOnlyTarget | app.py:97-101 | editing a missing id is 404; otherwise the asset with that id gets the new name and description, and every other asset is unchanged |
| AppProperties.RunPreservesInv | app.py:20-22 | any sequence of requests keeps the invariant |
| AppProperties.RunCreatesNoAdmin | app.py:68 | across any sequence of requests, every admin at the end was stored at the start |
| AppProperties.NoAdminFromEmpty | app.py:68 | starting from an empty database, no sequence of requests produces an admin |
| AppProperties.DeleteScenario | tests/test_access_control.py:48-80 | with an admin, a user and the user's asset stored, the user's delete is 403 with nothing changed, the admin's delete removes the asset, and an anonymous delete is redirected |
| Forms.RegistrationValidIff | forms.py:5-14 | the registration form is valid iff the username has content, is 3 to 150 long and is not in use, the password has content and is at least 6 long, and the confirmation equals it |
| Forms.UsernameTakenIff | forms.py:10-14 | a username gets the duplicate error iff some stored user has exactly that username |
| Forms.PasswordRuleIff | forms.py:7 | a password passes its rule iff it has content and is at least 6 long |
| Forms.PasswordHasNoComplexityRule | forms.py:7 | `password` and `Passw0rd$` both pass, and `abc12` fails only on length |
| Forms.UsernameLengthExamples | tests/test_form_validation.py:35-44 | `ab` is refused, and `validuser` is accepted when it is not in use |
| Forms.BlankFieldsRequired | forms.py:6-7 | a username or password of spaces fails `DataRequired` only |
| Forms.LoginRequiresBothFields | forms.py:16-18 | the login form is valid only if both username and password are present |
| Forms.AssetValidIff | forms.py:20-27 | the asset form is valid iff the name has content, is at most 200 long and is held by no stored asset, and the description is at most 500 long |
| Forms.NoEditExemption | forms.py:24-27 | an asset's own stored name is refused as a duplicate, so there is no exemption for the record being edited |
| Forms.DuplicateNameFirstError | tests/test_form_validation.py:58-62 | for a well-formed duplicate name, the one error reported is the duplicate |
| Forms.FormAdmitsNamesWiderThanColumn | models.py:18 | in any store, the form accepts an unused name longer than the declared 100-character column, up to its own limit of 200 |

## Left out

- HTTP and Flask plumbing is not modelled: routing, templates, flash messages, CSRF tokens, and Flask-Login's signed-cookie session. The session is just an optional user id. A GET is modelled as a request with no form, and its rendered page is `Ok`.
- A POST missing a form key makes Flask answer 400 Bad Request. The model assumes every field is present.
- A session value that is not a valid integer (`int(user_id)`) is not modelled.
- Flask-Login's exemptions from `login_required` (OPTIONS requests, a disabled-login setting) are left out.
- Password hashing internals are left out: PBKDF2, salting, and constant-time comparison. The hasher is deterministic here, so two hashes of one password are equal, unlike the salted library.
- `Discriminating` ("a wrong password fails") is the hashing library's promise. It is assumed, never proved.
- `date_created` comes from a clock. The clock reading is a parameter of the new-asset request.
- SQLite's fallback when the largest key is already the maximum integer is left out. In that case it picks a random unused key.
- The declared column widths are not checked, because SQLite does not enforce them: username 150, password 150, role 10, asset name 100, description 200, created_by 150. Only the asset name width is recorded as a constant, to compare it with the form's limit.
- Response timing is not modelled. On an unknown username the source skips the password hash check (app.py:44), so the two login failures can differ in timing even though their reply values are equal.
- Database sessions, commits and concurrency are left out. Each request is one atomic step.
- The start-up seeding in `app.py`, the separate seed script, and the schema migration are left out. They only create the initial rows and repeat the tables already declared in the model.
- Output escaping against XSS is left out. It is done by the template engine.
- Form-level behaviour outside the validators is left out, such as `validate_on_submit` checking the request method.
- Session expiry and login rate limiting are not modelled. The code has neither.
- Forms.LoginRequiresBothFields: states only that a valid login form has non-empty fields. The exact rule ("has a non-space character") is the predicate `LoginValid` itself.
