# Course portal backend: login, session and spreadsheet import

A Dafny model of the decision logic in the portal's `index.js`:

- **Login (POST /).** The claimed email is classified by substring tests in a fixed order. If it holds `"admin"` it is trusted. Otherwise an email holding `"csdp"` is looked up in the teaching-assistant roster, one holding `"csd"` in the student roster, and any other in the teacher roster. On a match the session email becomes the email of the first matching record; on no match the answer is 401 and the session is left alone.
- **Session.** The caller's session is one optional email. Login sets it, the presence query (GET /) reads it, and logout (POST /logout) destroys it.
- **Import (POST /admin/insertcourses, POST /admin).** The uploaded sheet's rows are read in the column order given by the first row's keys. Every row, the first included, becomes one positional INSERT. The inserts run one at a time and stop at the first that throws; rows inserted before it stay committed.

Modules: `Wrappers` (Option), `Strings` (`includes`), `Roles` (the classifier and an ordered rule-list reading of it), `RosterLookup` (the `SELECT ... WHERE email = :email` result), `Login` (the login response as a function, the `Session` class), `Sheets` (row keys, cells, insert tuples, the outcome of an import as a function), `Tables` (the `Table` class and its import loop), `Portal` (the backend's tables, the teacher roster as the email column of `teachers`, and a lemma joining import and login).

Modelling choices:

- The database's string comparison is a parameter `collate: string -> string`: two emails compare equal when their keys agree. With the identity, the session email is the claim itself (`Login.ExactComparisonKeepsClaim`). With a case-insensitive collation it is the roster's own spelling.
- The rosters are `seq<string>` in the order the query returns rows. The teacher roster is the non-NULL third value of each `teachers` row.
- Query failures, insert failures, session-store failures and parse failures are input flags (`queryFails`, `fails: seq<bool>`, `storeFails`, `ParseFailed`).
- `req.body.email` is `Option<string>`. A missing email makes `email.includes` throw inside the `try`, so the answer is 500, the same as a failing query; the handler has no separate 400 answer.
- `if (req.session.email)` uses JavaScript truthiness, so a stored empty email reports `loggedIn: false`.
- Logout tests `req.session`, the session object, not the email. The model takes this as the flag `attached`. The session middleware sets it on every request, so the source's own "You are not logged in" branch is unreachable in deployment, and a caller who is not logged in gets 200.
- An empty parse result makes `Object.keys(result[0])` throw inside the parse callback. That callback runs outside the `try`, so no response is sent. The model names this outcome `EmptySheet`.
- A failing insert also throws inside the callback, so no response is sent either. The model names this outcome `InsertFailed(k)`, where `k` is the 0-based index of the row.
- The import answers only a message, not a row count. The model's `Report` also carries the committed tuples, so the effect on the table can be stated.

## Model

| member | source | states |
|---|---|---|
| `Strings.Includes` | index.js:159-170 | `includes` holds exactly when some window of the string equals the marker |
| `Roles.Classify` | index.js:159-180 | administrator exactly when the claim holds "admin"; teacher exactly when it holds neither "admin" nor "csd" |
| `Roles.AssistantMarkerHasStudentMarker` | index.js:164-170 | every claim holding "csdp" also holds "csd", which is why the order of the tests matters |
| `Roles.FirstRule` | index.js:159-180 | the result of an ordered rule list is the role of the first matching rule, or the fallback when no rule matches |
| `Roles.ClassifyIsFirstRule` | index.js:159-180 | the classifier equals the first matching rule of admin, csdp, csd, with teacher as the fallback |
| `Roles.AssistantBeatsStudent` | index.js:164-174 | a non-admin claim holding "csdp" is an assistant claim although it holds "csd"; the reversed rule order would make it a student claim |
| `Roles.StudentClaim` | index.js:170-174 | a student claim holds "csd" and neither "csdp" nor "admin", and conversely |
| `Roles.AssistantExample` | index.js:164-169 | "csdp123@example.com" is an assistant claim and holds the student marker |
| `RosterLookup.Matches` | index.js:165-179 | the query returns exactly the roster entries that compare equal to the claim, its head being the earliest such entry |
| `RosterLookup.FirstMatch` | index.js:181-182 | `user[0].email` is the earliest matching entry; None exactly when no entry matches |
| `RosterLookup.ExactMatchIsClaim` | index.js:181-182 | under an exact comparison, a claim present in the roster is its own first match |
| `Login.Respond` | index.js:155-192 | missing email and query failure give 500; admin claims are authenticated as typed; otherwise 401 exactly when no roster entry matches, success exactly when one does, and success gives the first match's email |
| `Login.AdministratorSkipsLookup` | index.js:159-162 | an admin claim is authenticated as typed whatever the rosters, the comparison and the database do |
| `Login.OneRosterConsulted` | index.js:164-180 | for a non-admin claim, the answer depends only on the one roster its role selects |
| `Login.AssistantClaimUsesAssistantRoster` | index.js:164-187 | a "csdp" claim ignores the student and teacher rosters, and is refused exactly when no assistant entry matches |
| `Login.ExactComparisonKeepsClaim` | index.js:181-184 | under an exact comparison, a successful login authenticates the claimed email itself |
| `Login.PresenceOf` | index.js:148-152 | logged in exactly when a non-empty email is stored, reporting that email |
| `Login.LoginThenPresence` | index.js:147-192 | after a successful login, the presence query reports the authenticated email |
| `Login.SecondLoginOverwrites` | index.js:181-184 | a second successful login replaces the stored email with the newer one |
| `Login.Session.constructor` | index.js:37-45 | a caller without a stored session starts with no email |
| `Login.Session.Login` | index.js:155-192 | the answer is `Respond`; the session email is set on success and unchanged otherwise |
| `Login.Session.Query` | index.js:147-153 | reports logged in exactly when a non-empty email is set, with that email |
| `Login.Session.Logout` | index.js:57-71 | without `req.session`, 401 and nothing changes; a store error gives 500 and nothing changes; otherwise the email is destroyed and the answer is 200 |
| `Sheets.Keys` | index.js:90 | `Object.keys` lists the row's keys in order |
| `Sheets.Field` | index.js:92 | `row[h]` is undefined exactly when no key equals `h`, otherwise a cell stored under `h` |
| `Sheets.FieldAtKey` | index.js:92 | in a row without repeated keys, the cell under the i-th key is the i-th cell |
| `Sheets.TupleOf` | index.js:92 | the tuple has one value per header, the i-th being `row[headers[i]]` |
| `Sheets.AlignedRowKeepsCells` | index.js:90-92 | a row whose keys come in header order yields exactly its own cells, in order |
| `Sheets.MissingHeaderIsUndefined` | index.js:92 | a header that the row lacks becomes undefined at its position |
| `Sheets.TuplesBy` | index.js:91-92 | one tuple per row, every row read in the same header order |
| `Sheets.FirstTupleIsFirstRow` | index.js:90-92 | the first row's tuple is its own cells in order, of the first row's length |
| `Sheets.FirstFailure` | index.js:91-100 | the index of the first failing insert: it fails, no earlier one does, and n means none failed |
| `Sheets.FirstFailureIsUnique` | index.js:91-100 | the first failing insert is fixed by the failures alone |
| `Sheets.UploadCheckAsWritten` | index.js:75-78 | the guard as written answers exactly when the file is missing, and never with 400 |
| `Sheets.UploadCheck` | index.js:77-79 | the intended guard answers 400 exactly when the file is missing |
| `Sheets.MissingFileAnswers500` | index.js:74-78 | a request without a file gets 500 from the code as written, 400 from the intended guard |
| `Sheets.RunImport` | index.js:73-108 | no file, parse error and empty sheet commit nothing. Otherwise the answer is success exactly when no insert fails, and then every row's tuple is committed. Else the first failing row is reported, no earlier row failed, and exactly the tuples before it are committed |
| `Sheets.ImportedAddsOneTuplePerRow` | index.js:90-101 | a successful import commits one tuple per parsed row, each with one value per first-row header |
| `Sheets.SecondInsertFails` | index.js:91-100 | of three rows whose second insert fails, only the first row's tuple is committed and row 1 is reported |
| `Tables.Table.Insert` | index.js:93-99 | an insert either appends the tuple or throws and leaves the table as it was |
| `Tables.Table.Import` | index.js:73-108 | the answer is `RunImport`'s, and the table becomes its old rows followed by the committed tuples |
| `Portal.EmailColumnIsEmail` | index.js:131 | the email column index names `email` in the teachers' INSERT column list |
| `Portal.TeacherEmails` | index.js:176-179 | the teacher roster holds exactly the non-NULL values of the teachers table's email column |
| `Portal.Backend.CurrentRosters` | index.js:164-179 | the login queries see the assistant and student tables, and the teachers table's email column |
| `Portal.Backend.InsertCourses` | index.js:73-108 | the courses table gains the committed tuples; the teachers table is untouched |
| `Portal.Backend.InsertTeachers` | index.js:110-145 | the teachers table gains the committed tuples; the courses table is untouched |
| `Portal.Backend.PostLogin` | index.js:155-192 | login against the current tables; the session email is set on success only |
| `Portal.ImportedTeacherCanLogIn` | index.js:127-136 | when every insert of a teacher import succeeds, a teacher-class email from an aligned row can log in |

## Findings

| source | as written | input that shows it | evidently intended | confidence | as-written member | corrected member |
|---|---|---|---|---|---|---|
| index.js:75-78 (and 112-115) | `req.file.path` is read before `if (!req.file)`; the read throws, and the `catch` answers 500 | a POST to either import endpoint with no file | answer 400 "No file uploaded" | high; not executed | `Sheets.UploadCheckAsWritten` (with `Sheets.MissingFileAnswers500`) | `Sheets.UploadCheck`, used by `Sheets.RunImport` and `Tables.Table.Import` |

## Left out

- Express app setup, routers, CORS configuration, cookie parsing and server start: framework wiring with no decision logic.
- Session middleware internals, the secret and the cookie `maxAge` expiry: library behaviour and wall-clock time. A session is a plain optional email.
- Login.Session.Login: assumes the session middleware has attached `req.session`. Without it, assigning the email would throw and answer 500; that case is not modelled.
- Login.Session.Query: assumes `req.session` is attached. Without it, the handler would throw outside any `try` and send nothing; that case is not modelled.
- Login.Session.Logout: on a store error, the model keeps the stored email. What the store actually retains then is library behaviour.
- Login.Respond: the claim `req.body.email` is taken to be a string or absent. JSON can carry other values: for an array, `includes` tests whether an element equals the marker, so `["admin"]` would be trusted and stored in the session; numbers and objects make `includes` throw and answer 500. These are not modelled.
- File upload (`multer`) and spreadsheet parsing (`xls-to-json`): foreign libraries. The parse result is an input, and a parse error is a flag.
- `Object.keys` places integer-like keys first in ascending order. The model takes the parser's key order as given.
- The SQL text, parameter binding and Sequelize's handling of `undefined` values and of a tuple whose length differs from the column list: a foreign database. Whether each insert succeeds is an oracle, and a committed row is the tuple as given.
- Row order of a query result: SQL gives none without `ORDER BY`. The model uses roster order.
- The asynchronous callback and `await` mechanics, and the unhandled rejection (or process crash) when an empty sheet or failing insert throws inside the parse callback. The loop is sequential code that stops early.
- Concurrency between requests and callers.
- Logging (`console.log`, `console.error`) and the JSON bodies of responses beyond the outcome datatypes.
