# Time-tracking core in Dafny

This project models the decision logic of a small employee time-tracking
application and proves properties of it. The application has an Express
backend over MySQL and a React frontend. Four pieces are modelled:

- **POST /hours/log** (`HoursLog`). It validates the body and fills in defaults.
  It takes the owner from the verified token, never from the body. It inserts a
  row into `registros_horas`. When the database's error text mentions `estado`,
  it retries exactly once with `estado = 'activo'`. The handler is a method over
  a `HoursTable` object: stored rows, the next AUTO_INCREMENT id, and the log of
  statements issued, whose length is the attempt counter. The method is proved
  to follow the function `Log`, which carries the properties.
- **GET /hours/my-hours and GET /hours/summary** (`HoursQueries`). Both are fixed
  SQL queries. They are specified as functions over the table's rows. The first
  filters by owner, projects the columns and sorts by `fecha DESC, created_at DESC`.
  The second groups by year-month and sums and counts per month, latest month first.
- **The token gate** (`AuthMiddleware`). `verifyToken` makes a four-way decision
  on the `Authorization` header: absent, no second word, verification failing, or
  attach `req.user` and call `next`. The gate is a method over `Request`,
  `Response` and `Next` objects, proved to follow the function `Gate`.
- **POST /auth/register and POST /auth/login** (`AuthRoutes`). These are methods
  over the `empleados` table, a map from the email's case-insensitive key to the
  row. They are proved to follow
  the functions `Register` and `Login`.
- **The hours list screen** (`HoursList`). It covers the per-row total and the
  three summary sums. The component's state hooks are a class. `fetchHours` and
  `handleDelete` are methods, proved to follow `Fetched` and `Deleted`.

Some things the code calls are not part of this model:

- bcryptjs and jsonwebtoken are records of functions (`Crypto.Bcrypt`,
  `Crypto.Jwt`). What the routes rely on is stated as the predicates
  `BcryptSound` and `JwtSound`. These are preconditions of the lemmas that need
  them, and witness lemmas prove both can be met.
- Database failures come from a fault script `faults: nat -> Option<string>`:
  statement number k fails with the given error text.
- The service's answers to the frontend (how `getMyHours()` and
  `deleteHours(id)` settle) and the user's answer to `window.confirm` are
  parameters.
- JavaScript truthiness, `||`, `String.includes` and `String.split(' ')` are
  written out in `Js`.

Some behaviours of the code are worth stating plainly; the model follows the
code in each:

- **Hours are only checked for falsiness.** A value of -1 is truthy, so it passes
  validation and is sent to the database (`HoursLog.NegativeHoursAttempted`).
- **The first word of the header is not checked.** The gate takes the second
  space-separated word as the token, whether or not the first one is `Bearer`
  (`AuthMiddleware.SchemeIgnored`).
- **There is no backend delete route.** The frontend calls `DELETE /hours/:id`,
  which no backend route serves. The frontend is modelled as written, with the
  outcome of the call as a parameter.
- **The two sides use different field names.** The frontend reads `horas_normales`
  and `horas_extras`; the backend's listing returns `horas_trabajadas`. Each side
  is modelled with its own fields.
- **Emails are compared case-insensitively.** The lookups go through MySQL's
  case-insensitive collation, so "Ana@x.com" is a duplicate of "ana@x.com"
  (`AuthRoutes.CaseVariantIsDuplicate`).
- **Only the first 72 characters of a password count.** bcrypt ignores the rest,
  so a long password followed by anything logs in
  (`AuthRoutes.LongPasswordSuffixIgnored`).

## Model

| member | source | states |
|---|---|---|
| Js.Truthy | backend/routes/hours.js:17 | the falsy values a parsed body can carry are exactly undefined, null, false, 0 and '' |
| Js.Or | backend/routes/hours.js:30-34 | `a \|\| b` is `a` when `a` is truthy and `b` otherwise |
| Js.Get | backend/routes/hours.js:13 | reading a field the body lacks gives undefined |
| Js.Includes | backend/routes/hours.js:42 | `s.includes(sub)` is true exactly when `sub` occurs in `s` at some index |
| Js.Split | backend/middleware/auth.js:15 | `split(' ')` gives at least one field; every field is free of spaces; joining the fields with single spaces gives back the string |
| Js.SplitJoin | backend/middleware/auth.js:15 | splitting the join of space-free fields gives back those fields, so split and join are inverse |
| Js.SplitAfterWord | backend/middleware/auth.js:15 | a space-free word followed by a space splits off as the first field, and the rest splits on its own |
| Js.SplitWord | backend/middleware/auth.js:15 | a string without spaces splits into itself alone |
| Crypto.Significant | backend/routes/auth.js:83 | the part of a password bcrypt reads: the whole password up to 72 characters, its first 72 characters otherwise |
| Crypto.BcryptSound | backend/routes/auth.js:83 | the assumption about bcrypt the routes rely on: `compare(p, hash(q))` holds exactly when p and q agree on their first 72 characters, and a hash never equals the password it hashes |
| Crypto.BcryptSoundSatisfiable | backend/routes/auth.js:27 | some hash/compare pair meets the bcrypt assumption: a hash matches exactly the passwords that agree with the hashed one on their first 72 characters, and it never equals the password |
| Crypto.LongPasswordsShareHash | backend/routes/auth.js:83 | under the assumption, a password of 72 or more characters followed by anything matches the password's hash |
| Crypto.JwtSoundSatisfiable | backend/routes/auth.js:40-44 | some sign/verify pair meets the token assumption: verify(sign(c)) is c, and tokens are non-empty and space-free |
| Crypto.JwtSound | backend/routes/auth.js:40-44 | the assumption about jsonwebtoken the routes and the middleware rely on: verifying a signed token gives back its claims, and a token is non-empty and has no space |
| Http.Response.Send | backend/middleware/auth.js:12 | `res.status(..).json(..)` appends exactly that reply to what was sent |
| Http.Next.Call | backend/middleware/auth.js:27 | `next()` counts one continuation of the chain |
| AuthMiddleware.TokenOf | backend/middleware/auth.js:15 | `split(' ')[1]` is undefined exactly when the header has no space; any token found has no space |
| AuthMiddleware.TokenIsSecondWord | backend/middleware/auth.js:15 | the token is the word between the first and second space, whatever the first word is |
| AuthMiddleware.Gate | backend/middleware/auth.js:11-31 | absent or empty header: 403 "Token no proporcionado"; no non-empty second word: 403 "Formato de token incorrecto"; verification fails: 401 "Token inválido"; else proceed with the decoded claims |
| AuthMiddleware.VerifyToken | backend/middleware/auth.js:5-32 | follows `Gate`; on proceed sets `req.user` and calls `next` once and sends nothing; on reject sends that reply, leaves `req.user` and does not call `next`; exactly one of the two happens |
| AuthMiddleware.IssuedTokenPasses | backend/middleware/auth.js:24-27 | a token the routes signed passes the gate under any one-word scheme and yields exactly its claims |
| AuthMiddleware.SchemeIgnored | backend/middleware/auth.js:15 | two headers that differ only in the first word get the same decision |
| AuthMiddleware.MissingSecondWordIsMalformed | backend/middleware/auth.js:18-20 | a one-word header, or two spaces after the first word, gives 403 "Formato de token incorrecto" |
| AuthMiddleware.FormatChecksPrecedeVerify | backend/middleware/auth.js:11-20 | the 403 answers do not depend on the verifier, so verification is not reached before them |
| AuthRoutes.Key | backend/routes/auth.js:14 | the email as the case-insensitive `WHERE email = ?` compares it: every ASCII letter lower-cased, position by position |
| AuthRoutes.SameIgnoringCase | backend/routes/auth.js:14 | two addresses of equal length whose letters agree pair by pair, an ASCII capital matching its small letter |
| AuthRoutes.KeyIgnoresCase | backend/routes/auth.js:14 | two addresses have the same key exactly when they agree up to ASCII letter case |
| AuthRoutes.KeyIdempotent | backend/routes/auth.js:14 | a key is its own key |
| AuthRoutes.KeyExample | backend/routes/auth.js:14 | "Ana@X.com" and "ana@x.com" are the same address to the lookup; "ana@x.com" and "ana@y.com" are not |
| AuthRoutes.Public | backend/routes/auth.js:49 | the user object sent back: id, nombre, email and puesto of the row, without the password |
| AuthRoutes.Register | backend/routes/auth.js:8-59 | lookup error: 500; an email whose key is already stored: 400 "El usuario ya existe" with users and ids unchanged; insert error: 500 with users unchanged; success: 201 with exactly the new row, under the email's key, holding `hash(password)`, a token for `{id: insertId, email}` and the user without password; table validity is kept |
| AuthRoutes.Login | backend/routes/auth.js:62-107 | never changes users or ids; 500 exactly on a lookup error; 200 exactly when a row has the email's key and the password matches its stored hash, with a token for the row's `{id, email}` and the user without password; every 400 is "Credenciales inválidas" |
| AuthRoutes.LoginRejectionsIndistinguishable | backend/routes/auth.js:76-87 | an unknown email and a wrong password get the identical reply |
| AuthRoutes.RegisterStoresHash | backend/routes/auth.js:27-32 | after a successful registration the stored password is not the plaintext and matches it |
| AuthRoutes.CaseVariantIsDuplicate | backend/routes/auth.js:13-24 | registering an address that differs from a stored one only in letter case gives 400 "El usuario ya existe" and leaves the table unchanged |
| AuthRoutes.RegisterThenLogin | backend/routes/auth.js:40-50 | the registration token verifies to the new id and email; a login right after it, under any letter case of the address, gives 200 exactly when the password agrees with the registered one on its first 72 characters, and then returns the registered user and a token that verifies to the same claims; otherwise it gives 400 "Credenciales inválidas" |
| AuthRoutes.LongPasswordSuffixIgnored | backend/routes/auth.js:83-87 | after registering a password of 72 or more characters, logging in with it followed by anything succeeds |
| AuthRoutes.Empleados.SelectByEmail | backend/routes/auth.js:13-16 | the lookup returns the row with that email's key, or nothing, or the scripted error; only the statement count changes |
| AuthRoutes.Empleados.Insert | backend/routes/auth.js:30-33 | on success the row is stored under the email's key and the next id, which is returned; on error nothing but the statement count changes |
| AuthRoutes.HandleRegister | backend/routes/auth.js:8-59 | the handler's new table and its one reply are those of `Register` |
| AuthRoutes.HandleLogin | backend/routes/auth.js:62-107 | the handler's new table and its one reply are those of `Login` |
| HoursLog.HasRequired | backend/routes/hours.js:17 | both `fecha` and `horas_trabajadas` are truthy |
| HoursLog.Values | backend/routes/hours.js:28-35 | `valores`: the caller's id, then `proyecto_id \|\| 1`, `tarea_id \|\| null`, `fecha`, `horas_trabajadas`, `descripcion \|\| ''` |
| HoursLog.FirstInsert | backend/routes/hours.js:24-37 | the first attempt: the six columns without `estado` and the six values |
| HoursLog.RetryInsert | backend/routes/hours.js:43-57 | the retry: the same columns and values followed by `estado` and `'activo'` |
| HoursLog.Run | backend/routes/hours.js:37-38 | one statement: always logged; stored under the next id unless the fault script makes it fail, in which case its error text is returned |
| HoursLog.Log | backend/routes/hours.js:12-84 | 400 exactly when `fecha` or `horas_trabajadas` is falsy, and then no statement; at most two attempts, the first always the plain insert; a second exactly when the first error mentions `estado`, and it is the insert with `'activo'`; 201 with the new row's id exactly when the last attempt succeeds; 500 carries the last attempt's error text and stores nothing; table validity is kept |
| HoursLog.InsertedValues | backend/routes/hours.js:28-35 | every attempt carries the caller's id as `empleado_id` and the same six values; the retry only adds `'activo'`; an `empleado_id` in the body changes nothing |
| HoursLog.Defaults | backend/routes/hours.js:30-34 | falsy `proyecto_id` becomes 1, falsy `tarea_id` null, falsy `descripcion` ''; truthy values pass through |
| HoursLog.NegativeHoursAttempted | backend/routes/hours.js:17-21 | hours of -1 pass validation and are sent to the database |
| HoursLog.EstadoRetryExample | backend/routes/hours.js:41-69 | a first error naming the `estado` column and a successful retry store the retried row and answer 201 with its id |
| HoursLog.OtherErrorNoRetry | backend/routes/hours.js:71-76 | a first error not mentioning `estado` gives 500 with that text and no second attempt |
| HoursLog.FailedRetryIsFinal | backend/routes/hours.js:57-63 | a failed retry gives 500 with the retry's text and no third attempt |
| HoursLog.HoursTable.Query | backend/routes/hours.js:37 | the statement is logged; on success it is stored under the next id, which is returned; on error the rows are unchanged |
| HoursLog.HandleLog | backend/routes/hours.js:12-84 | the handler's new table and its one reply are those of `Log` on the caller's id |
| HoursLog.PostLog | backend/routes/hours.js:12 | when the gate rejects, the table is untouched and the gate's reply is sent; otherwise `req.user` holds the token's claims and the table and reply are those of `Log` on the token's id |
| HoursQueries.Project | backend/routes/hours.js:88-96 | the selected columns of a row, with `horas` as `horas_trabajadas` and without `empleado_id` |
| HoursQueries.ListedFirst | backend/routes/hours.js:99 | `ORDER BY fecha DESC, created_at DESC` as a relation: a later date first, and on the same date the later-created row first |
| HoursQueries.ProjectAll | backend/routes/hours.js:88-96 | each listed row is the projection of the row at the same position |
| HoursQueries.Owned | backend/routes/hours.js:98 | `WHERE empleado_id = ?` keeps exactly the owner's rows, each as many times as it occurs |
| HoursQueries.InsertSorted | backend/routes/hours.js:99 | inserting into a sorted listing keeps it sorted and adds exactly that row |
| HoursQueries.SortDesc | backend/routes/hours.js:99 | the result is ordered by `fecha DESC, created_at DESC` and is a permutation of the input |
| HoursQueries.MyHours | backend/routes/hours.js:87-101 | the listing is sorted newest first and is a permutation of the caller's projected rows |
| HoursQueries.MyHoursMembers | backend/routes/hours.js:88-98 | a row is listed exactly when it is the projection of one of the caller's rows |
| HoursQueries.MyHoursReply | backend/routes/hours.js:101-109 | a query error gives 500 "Error obteniendo registros de horas"; otherwise the rows are the sorted listing |
| HoursQueries.MonthOf | backend/routes/hours.js:116 | `DATE_FORMAT(fecha, '%Y-%m')`: the year and month of a date |
| HoursQueries.SumHoras | backend/routes/hours.js:117 | `SUM(horas)` over a group of rows: the hours of its entries added up |
| HoursQueries.InMonth | backend/routes/hours.js:121 | the rows of one `GROUP BY` month: a row is in it exactly when it is in the input and falls in that month |
| HoursQueries.LatestMonth | backend/routes/hours.js:122 | the month picked occurs among the rows and no row has a later month |
| HoursQueries.Summarize | backend/routes/hours.js:114-122 | `GROUP BY mes ORDER BY mes DESC`: total the latest month, then summarise the other months; its contract is `SummarizeCorrect` |
| HoursQueries.SummarizeCorrect | backend/routes/hours.js:116-122 | the months are strictly descending, they are exactly the months of the rows, and each row's sum and count are over exactly that month's rows |
| HoursQueries.Summary | backend/routes/hours.js:114-123 | the caller's months, latest first, each with the sum of `horas` and the count of the caller's rows in it; empty exactly when the caller has no rows |
| HoursQueries.SummaryReply | backend/routes/hours.js:125-133 | a query error gives 500 "Error obteniendo resumen de horas"; otherwise the rows are the summary |
| HoursQueries.SummaryExample | backend/routes/hours.js:114-123 | 5 h and 3 h in June and 2 h in July summarise to July (2, 1) and then June (8, 2); another employee's row is not counted |
| HoursQueries.MyHoursExample | backend/routes/hours.js:99 | two rows on the same date are listed with the later-created first; another employee's row is left out |
| HoursList.CalculateTotal | frontend/src/components/hours/HoursList.jsx:47-49 | a row's total is its normal hours plus its extra hours |
| HoursList.Reduce | frontend/src/components/hours/HoursList.jsx:131-143 | `reduce((sum, entry) => sum + f(entry), 0)`: a left fold from 0 |
| HoursList.SumNormales | frontend/src/components/hours/HoursList.jsx:131 | "Total Horas Normales": the fold of `horas_normales` |
| HoursList.SumExtras | frontend/src/components/hours/HoursList.jsx:137 | "Total Horas Extras": the fold of `horas_extras` |
| HoursList.SumTotals | frontend/src/components/hours/HoursList.jsx:143 | "Total General": the fold of per-row totals |
| HoursList.TotalGeneralSplits | frontend/src/components/hours/HoursList.jsx:131-143 | "Total General", the sum of per-row totals, equals "Total Horas Normales" plus "Total Horas Extras" |
| HoursList.EmptyTotals | frontend/src/components/hours/HoursList.jsx:131-143 | with no rows all three totals are 0 |
| HoursList.CalculateTotalExample | frontend/src/components/hours/HoursList.test.jsx:118-122 | the row {8, 2} totals 10 |
| HoursList.SummaryTotalsExample | frontend/src/components/hours/HoursList.test.jsx:98-104 | the two sample rows total 15, 3 and 18 |
| HoursList.RemoveId | frontend/src/components/hours/HoursList.jsx:32 | the filtered list holds exactly the rows whose id differs, each as many times as before |
| HoursList.WithId | frontend/src/components/hours/HoursList.jsx:32 | the rows with that id; with the filtered list they account for every row |
| HoursList.RemoveIdAppend | frontend/src/components/hours/HoursList.jsx:32 | filtering a list split in two filters each part, so the kept rows stay in their order |
| HoursList.RemoveAbsentId | frontend/src/components/hours/HoursList.jsx:32 | a list without that id is left exactly as it was |
| HoursList.RemoveIdIdempotent | frontend/src/components/hours/HoursList.jsx:32 | filtering twice by the same id is filtering once |
| HoursList.RemoveIdTotals | frontend/src/components/hours/HoursList.jsx:131-143 | each total before a delete is the total after it plus the total of the rows removed |
| HoursList.Fetched | frontend/src/components/hours/HoursList.jsx:10-20 | loading ends either way; a successful load sets the list to the data and keeps the error; a failed one keeps the list and sets "Error al cargar las horas" |
| HoursList.FirstLoad | frontend/src/components/hours/HoursList.jsx:5-23 | from the initial state a failed load leaves the list empty with the load error, a successful load shows the data with no error, and loading ends |
| HoursList.Deleted | frontend/src/components/hours/HoursList.jsx:25-37 | no call and no change exactly when the confirm is declined; otherwise the service is called with the id; on success exactly the rows with other ids remain; on failure the list is kept and the error is "Error al eliminar el registro" |
| HoursList.DeleteKeepsOrder | frontend/src/components/hours/HoursList.jsx:31-32 | a successful delete keeps the remaining rows in their original order |
| HoursList.DeleteAbsent | frontend/src/components/hours/HoursList.jsx:31-32 | deleting an id the list does not hold still calls the service and changes nothing |
| HoursList.DeleteExample | frontend/src/components/hours/HoursList.test.jsx:66-96 | deleting row 1 of the sample leaves row 2 only; cancelling calls nothing; a failed delete keeps both rows and shows the delete error |
| HoursList.HoursListState.constructor | frontend/src/components/hours/HoursList.jsx:5-7 | the list starts empty, loading, with no error |
| HoursList.HoursListState.FetchHours | frontend/src/components/hours/HoursList.jsx:9-23 | the new state is `Fetched` of the old one |
| HoursList.HoursListState.HandleDelete | frontend/src/components/hours/HoursList.jsx:25-37 | the new state and the service call are those of `Deleted` |

## Left out

- Console logging everywhere, including the middleware printing the headers and the JWT secret: it has no effect on replies or state.
- Express wiring, the `/hours/test` route, the project and employee routes, and the other screens: they carry no decision logic of the modelled core.
- Token expiry, the secret key, the `iat`/`exp` claims, bcrypt's salt and cost factor: these are library internals. Tokens and hashes are modelled by the `Crypto` records and their soundness predicates.
- AuthRoutes.Register: bcrypt's hash is a deterministic function here. The real hash is salted, and only the `compare` behaviour matters to the routes.
- Crypto.BcryptSoundSatisfiable: bcrypt's limit is 72 bytes of UTF-8. The model counts 72 characters, which is the same for ASCII passwords. Hash collisions are ignored.
- Crypto.Significant: bcrypt reads the first 72 bytes of the UTF-8 encoding, not the first 72 characters; the two differ for passwords with characters outside ASCII.
- AuthRoutes.RegisterThenLogin: jsonwebtoken adds the signing time (`iat`, `exp`) to a token, so the model's `sign` ignores the clock. The token is only promised to verify to the same claims, never to equal an earlier one.
- AuthRoutes.Register: the key of an email lower-cases ASCII letters only. MySQL's collation also folds accented and other non-ASCII letters, which the model does not.
- AuthRoutes.Empleados.SelectByEmail: only ASCII letter case is folded, as in `Key`. The table holds at most one row per key, so rows with case-variant emails that other routes might insert are not modelled.
- AuthRoutes.Register: the body fields are strings. A non-string password makes bcrypt reject inside the query callback, where the outer `try` does not catch it, so no reply would be sent. That path is not modelled.
- AuthRoutes.Login: both passwords, the one sent and the one stored, are strings. In the code `bcrypt.compare` rejects when either one is missing, for example a row inserted by the employee routes without a password. It rejects inside the query callback, which the outer `try` does not catch, so no reply is sent. That path is not modelled.
- AuthMiddleware.VerifyToken: the `try` block also catches an exception thrown synchronously by `next()` and answers 401. The downstream handler of the model does not throw, so that path is not modelled.
- HoursLog.Log: every database failure, including column type coercion and constraint errors, is a scripted fault with its message. MySQL's own checks are not modelled.
- HoursQueries.MyHours: rows with equal `fecha` and `created_at` have no order fixed by the query, so the contract states a sorted permutation rather than one particular order.
- HoursQueries.Summary: `SUM(horas)` is exact addition on `real`, and the month text `'%Y-%m'` is modelled as the (year, month) pair, which orders the same for four-digit years.
- HoursQueries: the read queries see typed rows (`Entry`). How MySQL converts the values the write path sends into stored column values is not modelled.
- HoursList: hours are `real` and added exactly. JavaScript adds IEEE doubles. The rows the frontend receives are assumed to carry numeric `horas_normales` and `horas_extras`.
- HoursList: `formatDate`, every rendered element and the styles are display only.
- HoursList.HoursListState.HandleDelete: React applies `setHours(prev => ...)` to the latest state after the await. The model runs one handler at a time, so interleavings of a load and a delete are not modelled.
