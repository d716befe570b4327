# Registration and login, modelled in Dafny

A model of a small username/password app: a PHP backend with `POST /register`
and `POST /login` over a SQLite `users` table, and a React front end with a
localStorage fallback table, a password mask for the user list, and the
registration form's submit handler.

- `php_string.dfy` (module `PhpString`): PHP `trim` with its default
  character set (space, `\t`, `\n`, `\r`, NUL, vertical tab) and the
  falsiness of a string under `!` (`""` and `"0"`).
- `auth_api.dfy` (module `AuthApi`): the backend script. Pure step functions
  (`RegisterStep`, `LoginStep`, `Serve`) over a `Store` value (the table keyed by
  its UNIQUE username column, and the AUTOINCREMENT counter), and a class
  `AuthService` whose methods update the table in place and are proved equal to
  those step functions. `password_hash` and `password_verify` are opaque
  function values in a `Hasher`; the one property assumed of them throughout
  is `Sound`: a password verifies against any hash made from it. (The alice
  scenario additionally takes, as a hypothesis of that lemma, that "wrong"
  does not verify against the hash of "secret1".) The salt `password_hash`
  draws is a parameter.
- `web_storage.dfy` (module `BrowserStorage`): class `WebStorage` holding the
  `app_users` slot as an `Option<seq<User>>`, with `Select`, `Insert` and `Init`.
  It is modelled as written: plaintext passwords, no username uniqueness.
- `user_list.dfy` (module `UserList`): `maskPassword`.
- `register_form.dfy` (module `RegisterForm`): the submit handler, split at its
  `await` into `BeginSubmit` (the two checks, then `loading` and `error`
  updates) and `FinishSubmit` (the outcome of the request, then `finally`).
  The outcome of `registerUser` is a parameter.
- `wrappers.dfy` (module `Wrappers`): `Option`.

A failure of the register INSERT's `execute` other than the UNIQUE
violation (the only store call inside the `try`) is the parameter `fault` of
register; other store failures are not modelled (see "## Left out"). The duplicate-username message is SQLite's own
UNIQUE-constraint message as PDO reports it. The clock (`Date.now()`) is the
`now` parameter of `Insert`.

One consequence of the code as written is proved rather than corrected:
`Register.tsx` shows success only when the reply has a truthy `data`, but
`registerUser` returns the backend's JSON body as is, and that body
(`{ok, id}`) has no `data` key, so against this backend the form never shows
success and, on a refusal, shows no error (`RegisterForm.BackendNeverShowsSuccess`,
`RegisterForm.RefusalShowsNoError`).

## Model

| member | source | states |
|---|---|---|
| PhpString.TrimLeftShape | backend/src/api.php:21 | the left trim leaves a suffix of the input that does not start with a trim character, and everything it dropped is a trim character |
| PhpString.TrimRightShape | backend/src/api.php:21 | the right trim leaves a prefix of the input that does not end with a trim character, and everything it dropped is a trim character |
| PhpString.Trim | backend/src/api.php:21 | the trimmed username neither starts nor ends with a trim character |
| PhpString.TrimShape | backend/src/api.php:21 | `trim` returns a contiguous middle slice, with only trim characters cut off on either side |
| PhpString.TrimOfTrimmed | backend/src/api.php:21 | a string with no trim character at either end is unchanged by `trim` |
| PhpString.TrimIdempotent | backend/src/api.php:21 | trimming twice is trimming once |
| PhpString.TrimBlank | backend/src/api.php:21 | a string of only whitespace/NUL characters trims to the empty string |
| PhpString.TrimLeft | backend/src/api.php:21 | the left trim never grows the string and leaves no trim character at its start |
| PhpString.TrimRight | backend/src/api.php:21 | the right trim never grows the string and leaves no trim character at its end |
| PhpString.Falsy | backend/src/api.php:24 | a falsy string has at most one character, and a one-character string is falsy exactly when it is `"0"` |
| AuthApi.Route | backend/src/api.php:11-69 | OPTIONS on any path is the preflight; POST `/register` and POST `/login` are the two routes; everything else is unknown |
| AuthApi.ReadCreds | backend/src/api.php:21-28 | the credentials are rejected exactly when the trimmed username or the untrimmed password is `""` or `"0"` (absent counts as `""`); accepted ones are the trimmed username and the password as sent |
| AuthApi.ReadCredsAccepts | backend/src/api.php:21-24 | an already trimmed, truthy username with a truthy password passes validation unchanged |
| AuthApi.LoginStep | backend/src/api.php:45-63 | login returns 200 iff the credentials pass and a row with exactly that username exists whose hash verifies; success returns that row's id and the username, never the hash; it answers the missing-fields 400 exactly when the trimmed username or the password is `""`, `"0"` or absent, and every other failure is the 401 |
| AuthApi.Insert | backend/src/api.php:30-38 | after validation, the INSERT succeeds iff the store does not fail and the username is new; success adds exactly that key and advances the counter; any failure is a 400 with the store unchanged |
| AuthApi.RegisterStep | backend/src/api.php:19-39 | register answers 200 or 400, 200 exactly with a registered id, and only a 200 changes the store |
| AuthApi.Serve | backend/src/api.php:11-69 | a request answers 200, 204, 400, 401 or 404; 204 exactly for OPTIONS and 404 exactly for an unknown route |
| AuthApi.LoginRejectsMissing | backend/src/api.php:45-52 | login with a falsy trimmed username or a falsy (or absent) password answers the 400 "missing fields", never the 401 |
| AuthApi.RegisterRejectsMissing | backend/src/api.php:21-28 | register with a falsy trimmed username or falsy password answers 400 "missing fields" and leaves the store unchanged |
| AuthApi.BlankUsernameIsMissing | backend/src/api.php:21-24 | a whitespace-only username is "missing" for both register and login |
| AuthApi.RegisterSuccess | backend/src/api.php:30-38 | register succeeds iff the fields pass, the store does not fail and the trimmed username is new; it then answers the next id, which no existing row has, and stores the hash of the untrimmed password under the trimmed username; any failure is a 400 that changes nothing |
| AuthApi.RegisterDuplicate | backend/src/api.php:31-38 | register with a username already stored fails with the UNIQUE-constraint message whatever the password, and changes nothing |
| AuthApi.RegisterKeepsWellFormed | backend/src/api.php:30-34 | register keeps ids positive, below the counter and pairwise distinct |
| AuthApi.LoginFailuresAlike | backend/src/api.php:58-63 | an unknown username and a wrong password give the identical 401 "invalid credentials" |
| AuthApi.RegisterThenLogin | backend/src/api.php:30-59 | after a successful register(u, p), login with p and any name that trims to the same username succeeds with the new id and the trimmed username |
| AuthApi.RegisterTwice | backend/src/api.php:31-38 | after a successful register, a second register of the same trimmed name fails as a duplicate and changes nothing |
| AuthApi.OnlyRegisterWrites | backend/src/api.php:11-69 | only a successful register changes the store; OPTIONS always answers 204 and an unknown route 404, both leaving the store alone |
| AuthApi.AliceScenario | backend/src/api.php:19-63 | register alice/secret1 gets id 1, a second alice is a duplicate, alice/secret1 logs in as id 1, alice/wrong gets 401 |
| AuthApi.AuthService.constructor | backend/src/migrate.php:3-10 | a fresh table is empty with the counter at 1 |
| AuthApi.AuthService.Register | backend/src/api.php:19-39 | updates the table in place exactly as `RegisterStep` says and keeps the table invariant |
| AuthApi.AuthService.Login | backend/src/api.php:43-65 | answers as `LoginStep` and cannot modify the table |
| AuthApi.AuthService.Handle | backend/src/api.php:11-69 | one request through the script, as `Serve` says, keeping the table invariant |
| BrowserStorage.MaxId | frontend/src/db/webStorage.ts:33 | the result is an id in the list and no id exceeds it |
| BrowserStorage.NextId | frontend/src/db/webStorage.ts:33 | the new id exceeds every stored id, is 1 for an empty list, and is otherwise one past a stored id |
| BrowserStorage.WithUsername | frontend/src/db/webStorage.ts:22-24 | the filter never grows the list and keeps only records with that username |
| BrowserStorage.WithUsernameCounts | frontend/src/db/webStorage.ts:20-26 | a record with the name is kept exactly as many times as it is stored; every other record is dropped |
| BrowserStorage.WithUsernameAppend | frontend/src/db/webStorage.ts:22-24 | the filter distributes over concatenation, so it keeps the stored order |
| BrowserStorage.Appended | frontend/src/db/webStorage.ts:35-43 | the list after insert keeps every earlier record in place and ends with one record carrying the given username and password and an id above every earlier id |
| BrowserStorage.Initialized | frontend/src/db/webStorage.ts:48-53 | after init the slot holds a list: the existing one if present, otherwise `[]` |
| BrowserStorage.AppendedKeepsDistinctIds | frontend/src/db/webStorage.ts:33-43 | insert keeps ids pairwise distinct |
| BrowserStorage.AppendedFound | frontend/src/db/webStorage.ts:35-43 | after an insert, selecting its username finds the earlier matches followed by the new record |
| BrowserStorage.DuplicateUsernamesKept | frontend/src/db/webStorage.ts:29-46 | two inserts with the same username both land; selecting that name returns the earlier matches then both new records |
| BrowserStorage.InitializedIdempotent | frontend/src/db/webStorage.ts:48-53 | init is idempotent, leaves existing contents alone and always leaves a list in the slot |
| BrowserStorage.WebStorage.constructor | frontend/src/db/webStorage.ts:56 | the storage object starts over whatever the slot already holds |
| BrowserStorage.WebStorage.Users | frontend/src/db/webStorage.ts:7-11 | an absent slot reads as the empty list, a present one as its contents |
| BrowserStorage.WebStorage.SaveUsers | frontend/src/db/webStorage.ts:13-15 | the slot then holds exactly the list given |
| BrowserStorage.WebStorage.Select | frontend/src/db/webStorage.ts:17-27 | another table gives `[]`; no or empty username gives all stored users in order; a username gives exactly the stored users with it, in order; nothing changes |
| BrowserStorage.WebStorage.Insert | frontend/src/db/webStorage.ts:29-46 | another table gives `[]` and changes nothing; otherwise one record with the next id, the given username and plaintext password is appended after unchanged earlier records and is the only record returned |
| BrowserStorage.WebStorage.Init | frontend/src/db/webStorage.ts:48-53 | the slot becomes `[]` only when it was absent |
| UserList.MaskPassword | frontend/src/components/UserList.tsx:45-49 | up to three characters masks to `"***"`; longer keeps the first two characters followed by max(3, length - 2) stars; the output has at least three characters and all after the second are stars |
| UserList.MaskLength | frontend/src/components/UserList.tsx:46-48 | from five characters the mask has the password's length, four characters give five, up to three give three |
| UserList.MaskHidesTail | frontend/src/components/UserList.tsx:46-48 | passwords of equal length that share their first two characters mask identically, so no later character leaks |
| RegisterForm.Check | frontend/src/components/Register.tsx:17-25 | no error iff the passwords match and have at least six characters; a mismatch reports the mismatch even when short; a matching short one reports the length |
| RegisterForm.Begin | frontend/src/components/Register.tsx:17-31 | a failed check sets only its error and sends nothing; otherwise loading is set, the error cleared and the username and password sent |
| RegisterForm.Finish | frontend/src/components/Register.tsx:30-46 | loading ends false in every outcome; success is set only by an ok reply with data; a throw sets the unexpected-error message and any reply leaves the error as it was |
| RegisterForm.SendsOnlyValid | frontend/src/components/Register.tsx:17-31 | a request is sent iff the passwords match and have at least six characters, carrying them as typed |
| RegisterForm.MismatchReportedFirst | frontend/src/components/Register.tsx:17-25 | a short, mismatched password reports "Passwords do not match" and sends nothing |
| RegisterForm.RefusalShowsNoError | frontend/src/components/Register.tsx:27-40 | a sent request refused by the server ends with an empty error, loading false and success unchanged |
| RegisterForm.BackendReply | frontend/src/services/api.ts:24-39 | the reply `registerUser` hands back for a backend body never throws and never carries `data`; its `ok` is true exactly for a successful register |
| RegisterForm.BackendNeverShowsSuccess | frontend/src/components/Register.tsx:33-40 | for any backend response body, which never has a `data` key, success and error keep their values |
| RegisterForm.RegisterPage.constructor | frontend/src/components/Register.tsx:6-11 | loading false, error empty, success false |
| RegisterForm.RegisterPage.BeginSubmit | frontend/src/components/Register.tsx:14-31 | updates the state and returns the request exactly as `Begin` says |
| RegisterForm.RegisterPage.FinishSubmit | frontend/src/components/Register.tsx:30-46 | updates the state exactly as `Finish` says |

## Left out

- CORS headers, reading and JSON-decoding the request body, `parse_url` and `exit`: the model starts from the decoded method, path and body fields.
- `password_hash` and `password_verify` internals (bcrypt): opaque function values; only `Sound` is assumed, so the model does not claim that a stored hash differs from the plaintext or that a different password fails to verify.
- Body fields that are JSON values other than strings (numbers, arrays): only strings, absent fields and `null` are modelled.
- `lastInsertId()` returns the id as a string in the JSON reply; the model returns it as an integer.
- Store failures outside the register `try`: a failure of register's `prepare` (backend/src/api.php:31, for instance before the table exists) and any failure of login's `prepare`, `execute` or `fetch` (backend/src/api.php:54-56) escapes as an uncaught PDOException (an HTTP 500), which the model does not represent; login has no failure path in the model.
- The concurrent-register race on the UNIQUE constraint, the PDO connection, `mkdir` and the WAL pragma (`backend/src/db.php`): I/O and concurrency configuration.
- The `created_at` column of the backend table: the server's clock; no operation reads it.
- The schema files and `frontend/src/db/client.ts`; `frontend/src/services/httpClient.ts` and `frontend/src/services/api.ts` (network clients), except that the reply `registerUser` returns is the backend body as is.
- localStorage's string encoding: the slot holds a decoded list; a slot holding an empty string (read as absent by `getUsers`) or malformed JSON is not modelled.
- UserList.MaskPassword: strings are sequences of characters, whereas JavaScript lengths and `substring` count UTF-16 code units.
- RegisterForm.Check: the six-character minimum counts characters, whereas JavaScript's `length` counts UTF-16 code units.
- `navigate('/login')` after two seconds, `console.error`, `formatDate`, JSX rendering and the session handling in the other components: UI and clock.
