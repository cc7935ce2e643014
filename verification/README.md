# Medicare in Dafny

A model of the Medicare health-care web application: its Express back end
(account registration and login with bcrypt-hashed passwords and JSON Web
Tokens, the bearer-token gate in front of the routes, patient health
readings, doctor search and appointment booking, the admin and doctor
routes) and the logic of its browser front ends (the login and sign-up form
validators, the tabbed login page that saves the user record, the admin
dashboard's doctor list and the doctor dashboard's patient search).

The MySQL database is modelled as the class `Store.Database`. Each table is
a sequence of rows in insertion order, and each AUTO_INCREMENT key comes from
a counter that only grows. `Database.Valid()` says that every table's keys
grow strictly and stay below the table's counter, and every insert keeps that
invariant. The one exception is `health_metrics`, which two handlers write with
different columns: its rows are held per writer in `healthRecords` and
`patientMetrics`, and both take their keys from the single counter
`nextHealthId`, so the two never share a key. Each handler is a method on the database (when it inserts) or a
function of the tables (when it only reads). A failing `execute` call is a
parameter `fault`: the number of the handler's store call that rejects, with
the error's message. bcrypt and jsonwebtoken form the record
`Store.Crypto` of four functions, and `Store.Sound` states the only facts the
handlers rely on:
- a password matches its own hash;
- a signed token verifies back to its user id;
- a token is one non-empty word.

The tabbed login page exists twice, as medicare/frontend/js/auth.js and
frntend/js/auth.js. The two differ only in comments and log text and have
the same line numbers, so `MedicareAuth` models both and the table below
cites the first.

Files:
- `wrappers.dfy`: `Option`.
- `text.dfy`: the JavaScript string operations used (`trim`, ASCII
  `toLowerCase`/`toUpperCase`, `includes`, `split` on one character, `length`
  in UTF-16 units, `String(n)`).
- `query.dfy`: WHERE, ORDER BY and LIMIT as functions on row sequences:
  filter, stable sort by an integer key, take, first match.
- `store.dfy`: the tables, the shared lookups, `Crypto`, `Fault` and `Reply`.
- The remaining files hold one module per source file: `login_form.dfy`,
  `medicare_auth.dfy`, `admin_dashboard.dfy`, `doctor_dashboard.dfy`,
  `auth_middleware.dfy`, `auth_controller.dfy`, `health_metrics.dfy`,
  `appointments.dfy`, `admin_routes.dfy`, `patient_routes.dfy` and
  `doctor_routes.dfy`.

## Model

| member | source | states |
|---|---|---|
| LoginForm.IsValidEmailMatchesPattern | frontend/js/auth.js:176-178 | `isValidEmail` holds exactly when the address splits as atom `@` atom `.` atom, where an atom is a non-empty run without whitespace or `@`; both directions are proved |
| LoginForm.IsValidEmailPlain | frontend/js/auth.js:176-178 | the same pattern in plain words: no whitespace, exactly one `@` with something before it, and after it a dot with a character on each side |
| LoginForm.ValidateLogin | frontend/js/auth.js:136-148 | the `email` error appears iff the e-mail is missing, empty or invalid; the `password` error appears iff the password is missing, empty or shorter than 6 UTF-16 units; no other key; the exact messages |
| LoginForm.ValidateSignup | frontend/js/auth.js:150-174 | one error key per failed rule (names under 2 units, invalid e-mail, password under 8 units, confirmation differing from the password, absent counting as a value), each iff its rule fails, with its message |
| LoginForm.SignupAcceptedLoginAccepted | frontend/js/auth.js:136-174 | form data that sign-up accepts is also accepted by login |
| LoginForm.Submit | frontend/js/auth.js:56-128 | the shared submit flow: the loading state is switched on first and off last on every path; with errors the API is not called and nothing is stored; storage is written iff there are no errors and the API answers, and then the token `mock-jwt-token-<now>`, the role `patient` and the dashboard redirect follow; there is no redirect without storage, and the failure message is shown iff there are no errors and the API call fails |
| LoginForm.HandleLogin | frontend/js/auth.js:56-92 | validation errors stop the handler before the API call and before any token is stored; without errors the call goes to `/api/auth/login`; a failed call shows the login error message |
| LoginForm.HandleSignup | frontend/js/auth.js:94-128 | the same for sign-up, with `/api/auth/signup` and the account-creation message |
| MedicareAuth.HandleLogin | medicare/frontend/js/auth.js:52-64 | rejected with "Please enter your email!" iff the input is all whitespace; otherwise it proceeds with the trimmed e-mail, role `patient` and name `Patient User` |
| MedicareAuth.HandleSignup | medicare/frontend/js/auth.js:66-103 | the checks run in source order (all filled after trimming name and e-mail, passwords equal, length at least 6), the first failing check decides the message, and it proceeds iff all pass, with the trimmed e-mail and name |
| MedicareAuth.BlankPasswordsAccepted | medicare/frontend/js/auth.js:78-99 | passwords are not trimmed, so six spaces typed twice pass every check |
| MedicareAuth.Capitalize | medicare/frontend/js/auth.js:115 | the same length; the first character is the input's first character upper-cased and every later one the input's character lower-cased, so no ASCII capital follows the first and no lower-case ASCII letter leads |
| MedicareAuth.CapitalizeIdempotent | medicare/frontend/js/auth.js:115 | capitalizing a capitalized name changes nothing |
| MedicareAuth.ProcessLogin | medicare/frontend/js/auth.js:105-119 | the saved record keeps role and timestamp, lower-cases the e-mail character by character and capitalizes the name |
| MedicareAuth.ProcessLoginIdempotent | medicare/frontend/js/auth.js:114-119 | saving a saved record again gives the same record |
| MedicareAuth.CapitalizePatientUser | medicare/frontend/js/auth.js:115 | the fixed name `Patient User` is stored as `Patient user` |
| MedicareAuth.LoginSavesPatientUser | medicare/frontend/js/auth.js:52-64 | the login path saves name `Patient user`, role `patient` and the trimmed, lower-cased e-mail |
| AdminDashboard.MockDoctors | medicare/frontend/js/admin_dashboard.js:8-14 | three doctors with ids 1, 2 and 3, the second one pending |
| AdminDashboard.FindIndex | medicare/frontend/js/admin_dashboard.js:124 | `find` by id: the first doctor with the id, or none iff no doctor has it |
| AdminDashboard.Answer | medicare/frontend/js/admin_dashboard.js:126-127 | `prompt(...) \|\| old`: a cancelled or empty answer keeps the old value, any other answer replaces it |
| AdminDashboard.Edited | medicare/frontend/js/admin_dashboard.js:123-130 | only the first doctor with the id changes, only in name and e-mail; an unknown id changes nothing |
| AdminDashboard.Approved | medicare/frontend/js/admin_dashboard.js:132-138 | only the first doctor with the id changes, and only its status, which becomes active; an unknown id changes nothing |
| AdminDashboard.ApproveIdempotent | medicare/frontend/js/admin_dashboard.js:132-138 | approving twice equals approving once |
| AdminDashboard.Without | medicare/frontend/js/admin_dashboard.js:140-145 | a doctor survives iff its id differs; an unknown id changes nothing; a known id shortens the list |
| AdminDashboard.WithoutAppend | medicare/frontend/js/admin_dashboard.js:142 | deletion keeps the survivors in order: filtering a concatenation is concatenating the filtered parts |
| AdminDashboard.Dashboard.constructor | medicare/frontend/js/admin_dashboard.js:2-6 | the list starts as the three mock doctors |
| AdminDashboard.Dashboard.AddDoctor | medicare/frontend/js/admin_dashboard.js:65-76 | `unshift` puts a pending doctor with the clock reading as id in front of the unchanged old list |
| AdminDashboard.Dashboard.EditDoctor | medicare/frontend/js/admin_dashboard.js:123-130 | the list becomes `Edited` of the old list with the two prompt answers |
| AdminDashboard.Dashboard.ApproveDoctor | medicare/frontend/js/admin_dashboard.js:132-138 | the list becomes `Approved` of the old list |
| AdminDashboard.Dashboard.DeleteDoctor | medicare/frontend/js/admin_dashboard.js:140-145 | a confirmed delete leaves `Without` of the old list; a declined one leaves the list unchanged |
| DoctorDashboard.MockPatients | medicare/frontend/js/doctor_dashboard.js:15-43 | two patients with ids 1 and 2 |
| DoctorDashboard.FirstMatch | medicare/frontend/js/doctor_dashboard.js:75-78 | the first patient whose lower-cased name or e-mail includes the query, or none iff none does |
| DoctorDashboard.SearchFor | medicare/frontend/js/doctor_dashboard.js:73-95 | the search returns at once iff the query is empty; otherwise it finds the first matching patient or reports no results for the query |
| DoctorDashboard.SearchPatients | medicare/frontend/js/doctor_dashboard.js:71-98 | the query is the input lower-cased, then trimmed; an all-whitespace input does nothing; otherwise as `SearchFor` |
| DoctorDashboard.SearchIgnoresQueryCase | medicare/frontend/js/doctor_dashboard.js:72 | upper-casing or lower-casing the input does not change the result |
| DoctorDashboard.MatchesIffOccurs | medicare/frontend/js/doctor_dashboard.js:76-77 | a patient matches iff the query occurs in the lower-cased name or e-mail |
| Text.Trim | medicare/frontend/js/auth.js:55 | `trim()` returns an infix of the input that neither starts nor ends with whitespace, and everything before and after that infix is whitespace; empty iff the input is all whitespace |
| Text.IncludesIffOccurs | medicare/frontend/js/doctor_dashboard.js:76 | the left-to-right `includes` scan agrees with "occurs at some position" |
| Text.Split | backend/src/middleware/auth.js:7 | `split(' ')` gives one field more than there are separators, and no field contains a separator |
| Text.SplitJoin | backend/src/middleware/auth.js:7 | joining the fields of `split(sep)` with `sep` gives the text back |
| Text.SplitSecondField | backend/src/middleware/auth.js:7 | with two or more fields, the text is the first field, the separator and the second field, then nothing or a separator |
| Text.SplitFirstTwo | backend/src/middleware/auth.js:7 | two separator-free words joined by a separator, then nothing or a separator, are the first two fields |
| Text.JsLength | frontend/js/auth.js:143 | `length` counts UTF-16 units: at least one and at most two per character |
| Store.PatientOf | appointments.js:60-63 | the caller's patient profile exists iff the user exists and some patients row points at it; the row returned is in the table and points at the caller |
| Store.DoctorOf | doctor.js:37-40 | the same for the caller's doctors row |
| AuthMiddleware.ExtractToken | backend/src/middleware/auth.js:6-7 | a token is found iff the header is present and has a second word (a space-free word, one space, a non-empty space-free word, then the end or a space), and a found token is such a second word |
| AuthMiddleware.SecondWordExtracted | backend/src/middleware/auth.js:7 | whatever the header's second word is, that word is the token taken |
| AuthMiddleware.BearerTokenExtracted | backend/src/middleware/auth.js:7 | the header `<scheme> <t>` yields `t` back |
| AuthMiddleware.OneWordHasNoToken | backend/src/middleware/auth.js:7-11 | a header without a space carries no token |
| AuthMiddleware.Decide | backend/src/middleware/auth.js:4-28 | 401 "Access token required" iff there is no token; 403, always with "Invalid token", iff verification or the lookup throws; the request passes iff the token verifies and a user has the id, and then as the password-less view of that user |
| AuthMiddleware.IssuedTokenPasses | backend/src/middleware/auth.js:13-24 | a token signed for a user in the table lets the request through as that user |
| AuthMiddleware.Exchange.AuthenticateToken | backend/src/middleware/auth.js:4-28 | exactly one of "a reply was sent" and "`next` was called once" happens, as `Decide` says |
| AuthController.Register | backend/src/controllers/authController.js:5-48 | 400 when the e-mail is taken; otherwise a users row with the hashed password, then a patients row pointing at it, then 201 with a token signed for the new id; 500 when a store call fails; no transaction, so a failure of the patients insert leaves the user row behind |
| AuthController.Login | backend/src/controllers/authController.js:50-87 | 401 "Invalid credentials" for an unknown e-mail or a wrong password; 200 only for a users row with the e-mail whose hash matches, with a token signed for its id and the row without its password |
| AuthController.LoginFirstAccount | backend/src/controllers/authController.js:56-87 | for the first users row with the e-mail and a stored hash, whatever other rows exist: 200 iff the password matches that hash, then with that row's token and view; 401 "Invalid credentials" otherwise |
| AuthController.LoginFailuresLookAlike | backend/src/controllers/authController.js:60-69 | an unknown e-mail and a wrong password get the same reply |
| AuthController.RegisterThenLogin | backend/src/controllers/authController.js:55-82 | the account `register` creates logs in with its password |
| AuthController.RegisterTokenAuthenticates | backend/src/controllers/authController.js:35-37 | the token `register` returns passes the gate as the new user |
| AuthController.GoogleLogin | backend/src/controllers/authController.js:89-126 | a user found by Google id or e-mail is signed in without any insert; otherwise a password-less patient user with the Google id and its patients row are inserted and signed in; 500 when a store call fails |
| AuthController.GoogleLoginFindsCreatedAccount | backend/src/controllers/authController.js:94-111 | after an account is created, the same Google id and e-mail find it, so a second call inserts nothing |
| HealthMetrics.Latest | backend/src/controllers/healthMetricsController.js:7-16 | min(N, 50) rows for a caller with N readings, all the caller's, newest first, drawn from the table; all of the caller's rows when they have at most 50 |
| HealthMetrics.NewestFirstOrder | backend/src/controllers/healthMetricsController.js:13 | rows sorted by the descending key go from the latest reading to the earliest |
| HealthMetrics.LatestKeepsNewest | backend/src/controllers/healthMetricsController.js:13-14 | no reading the limit leaves out is newer than a listed one |
| HealthMetrics.NewReadingListedFirst | backend/src/controllers/healthMetricsController.js:12-14 | a reading newer than all of the caller's earlier ones heads the list |
| HealthMetrics.GetHealthMetrics | backend/src/controllers/healthMetricsController.js:3-27 | 500 iff the SELECT fails; otherwise 200 with `success`, the list, and `count` equal to its length |
| HealthMetrics.NoReadingsEmptyList | backend/src/controllers/healthMetricsController.js:18-22 | a caller without readings gets a successful, empty list |
| HealthMetrics.AddHealthMetric | backend/src/controllers/healthMetricsController.js:29-55 | one row with the caller's id and the submitted values (the client's `bmi` included), 201 with its id, which is the next value of the AUTO_INCREMENT counter that the patient route's inserts also advance; 500 and no row when the insert fails |
| AppointmentsRoutes.Params | appointments.js:26-39 | one bound value per filter present, in the order name, hospital, specialization; name and hospital wrapped in `%...%` |
| AppointmentsRoutes.FindDoctorsQuery | appointments.js:17-41 | the built text is the base SELECT, one clause per filter present, then `GROUP BY d.id`; the values are exactly `Params` |
| AppointmentsRoutes.BaseHasNoPlaceholder | appointments.js:17-25 | the base SELECT has no `?` |
| AppointmentsRoutes.AddIfCount | appointments.js:28-39 | appending a present clause adds one `?`; an absent one adds none |
| AppointmentsRoutes.ClausePlaceholders | appointments.js:28-41 | over a base text without `?`, the clauses and the GROUP BY add one `?` per filter present |
| AppointmentsRoutes.PlaceholdersMatchParams | appointments.js:17-44 | the text handed to `execute` has exactly as many `?` as there are bound values, whichever filters are present |
| AppointmentsRoutes.Book | appointments.js:54-82 | 404 "Patient not found" and no insert without a profile; otherwise one appointment row for the profile's id with the submitted doctor, hospital, date and time, none of them checked; 500 with the error's message and no insert when a store call fails |
| AdminRoutes.AddDoctor | admin.js:12-33 | a users row with the hashed password and role doctor, then a doctors row pointing at it; the reply's `doctor_id` is the users id; not atomic, so a failure of the second insert leaves the user |
| AdminRoutes.AddedDoctorResolves | admin.js:19-27 | the doctor account created this way is resolved to its new doctors row by the doctor routes' lookup |
| AdminRoutes.AddHospital | admin.js:36-49 | one hospitals row, whose id the reply returns; 500 and no row on failure |
| AdminRoutes.AddSchedule | admin.js:52-65 | one schedule row with the values as given, none checked; 500 and no row on failure |
| PatientRoutes.LatestReading | patient.js:23-28 | none iff the patient has no reading; otherwise one of their readings with no later reading of theirs |
| PatientRoutes.NewestFirst | patient.js:24 | the head of the patient's readings sorted newest first is theirs and no reading of theirs is later |
| PatientRoutes.GetHealthMetrics | patient.js:11-32 | 404 "Patient not found" iff there is no profile; 500 iff a store call fails; otherwise 200 with the latest reading or `{}` |
| PatientRoutes.NoProfileNoMetricsQuery | patient.js:13-20 | without a profile the readings are never read: the reply does not depend on them or on their query failing |
| PatientRoutes.PostHealthMetrics | patient.js:35-55 | without a profile `patientRows[0].id` throws: 500 and no insert; otherwise one reading for the profile with the computed BMI, whose text the reply returns, keyed by the counter shared with the controller's inserts |
| PatientRoutes.PostedReadingIsLatest | patient.js:23-28 | a reading later than all of the patient's earlier ones is the one the GET returns next |
| DoctorRoutes.UserById | doctor.js:20 | the user with the id, present iff some users row has it |
| DoctorRoutes.HospitalName | doctor.js:47 | the name of a hospital with the id, present iff some hospitals row has it |
| DoctorRoutes.Rows | doctor.js:43-51 | one row per appointment that is the doctor's and whose patient and hospital both resolve, in table order (the rows' appointments are exactly that selection), each with the two names; every such appointment is listed |
| DoctorRoutes.WhenIsDateThenTime | doctor.js:49 | rows sorted by the combined key are in date order, and in time order within a day |
| DoctorRoutes.GetAppointments | doctor.js:35-57 | for a given patient join: 500 iff a store call fails or the caller has no doctors row (`doctorRows[0].id` throws); otherwise 200 with exactly the joined rows (as a multiset), ordered by date and then time |
| DoctorRoutes.NoDoctorProfileFails | doctor.js:37-41 | without a doctors row the reply is 500 whatever the appointments |
| DoctorRoutes.BookedUnderOwnName | doctor.js:44-47 | through the patient profile, the id a booking stores names the user who booked |
| DoctorRoutes.BookingListedToDoctor | doctor.js:43-51 | an appointment booked by a caller, at a hospital that exists, is listed to its doctor under the caller's name |
| DoctorRoutes.AsWrittenListsWrongName | doctor.js:46 | with the join as written, Bob's profile id resolves to Ann's name, and through the profile to Bob's |
| DoctorRoutes.AsWrittenListingShowsAnn | doctor.js:35-57 | the handler with the join as written sends Bob's doctor a listing that names Ann; with the join through the profile it names Bob |
| DoctorRoutes.OneRowListing | doctor.js:43-54 | a doctor with one listed appointment gets exactly that one row |
| DoctorRoutes.SearchPatient | doctor.js:11-32 | 500 iff the query fails; `{}` iff no patient profile with the id belongs to an existing user; otherwise a found reply (a 200 is always `{}` or found) with that user's name and e-mail, and a `patient_id` that is the requested id iff the profile has a health reading and NULL otherwise (the `hm.*` column replaces the alias) |

## Findings

| source | as written | input that shows it | evidently intended | confidence | as-written member | corrected member |
|---|---|---|---|---|---|---|
| doctor.js:46 | the doctor's listing joins `users` on `a.patient_id = u.id`, while `/book` (appointments.js:60-74) stores the id of the caller's `patients` row in `patient_id` | users Ann (id 1) and Bob (id 2); Bob's patient profile has id 1; Bob books, and his doctor's listing shows Ann | the join through the profile: `patients p ON p.id = a.patient_id`, then `users u ON u.id = p.user_id` | high; not executed | DoctorRoutes.AsWrittenListingShowsAnn | DoctorRoutes.BookedUnderOwnName |

`DoctorRoutes.NameByUserId` is the join as written and `DoctorRoutes.NameByPatientId`
the corrected one. `DoctorRoutes.GetAppointments` takes the join as a parameter: the
handler as written is `GetAppointments(..., NameByUserId(users))`, the corrected one
`GetAppointments(..., NameByPatientId(users, patients))`, and
`DoctorRoutes.BookingListedToDoctor` holds for the corrected join.

## Left out

- Browser I/O: DOM rendering, notifications, button states, tab switching, redirects on page load, `focus`, timers, scroll animations and the logout buttons. The first front end's effects are returned as a trace of named effects instead.
- localStorage: the tabbed login page's write of `medicare_user` is modelled as the record it saves, not as storage.
- The mock `apiCall` (frontend/js/auth.js:233-243): its random outcome and delay are the parameter `apiSucceeds`.
- `handleGoogleAuth` and the Google button handlers only show an alert or a notification, so they are not modelled.
- Clocks (`Date.now()`, `new Date().toISOString()`, the `recorded_at`/`measured_at` column defaults): these are parameters.
- Case mapping and whitespace: case mapping covers ASCII letters only, and whitespace is the ECMAScript `\s` set without Unicode normalisation.
- MySQL comparison collation: `email = ?` is compared case-insensitively and ignoring trailing spaces in MySQL, but it is exact string equality here.
- bcrypt and jsonwebtoken internals (salt, cost factor, secret, the 7-day expiry): `Store.Crypto` is abstract. The throws of `bcrypt.hash` on a missing password and of `bcrypt.genSalt` are not modelled.
- AuthController.Login: the 500 that `bcrypt.compare` raises on a NULL hash (a Google account) is stated only as one of the three possible statuses, not as an exact condition.
- Missing request fields (`undefined`) and the bind errors mysql2 raises for them are not modelled. Every field is a value, and a failing store call is the `fault` parameter.
- The column naming of the users key differs: the controllers and middleware read `user_id`, the route files read `u.id` and `req.user.id`. The routes are not wired to the middleware here; every handler takes the caller's users id as a parameter.
- The `roleAuth` middleware is only imported and its code is not part of this model, so role checks are not modelled.
- Database wiring: the connection pool (database.js), the server (sever.js) and the route mounting are not modelled. The tables are modelled directly; SQL text is not parsed.
- AppointmentsRoutes.FindDoctorsQuery: the SELECT is not executed. The model states the text and bound values handed to `execute`, not the rows found or the 500 on failure. The `date` filter is read but unused, as in the source.
- DoctorRoutes.SearchPatient: the other `hm.*` columns and `ai_summaries` come from a GROUP BY that picks values nondeterministically, so the reply carries only name, e-mail and the `patient_id` that `hm.*` leaves (the profile id, or NULL without readings). The `:patientId` path parameter is taken as an integer.
- DoctorRoutes.GetAppointments: the patient join is a parameter, so the contract holds for the join as written and the corrected one alike; what the join as written lists is shown only on the example of `AsWrittenListingShowsAnn`, not stated for all tables.
- HealthMetrics.AddHealthMetric: the `health_metrics` rows are kept as two sequences split by writer, so the order in which the two writers' rows interleave in the table is not modelled. The returned `health_id` is unaffected, since both writers draw on the shared counter `nextHealthId`. No read is affected either: each writer leaves the other's key column (`patient_id` or `user_id`) NULL, so the controller's SELECT (`WHERE user_id = ?`) sees only controller rows, and the patient and doctor routes (`WHERE patient_id = ?`, `ON p.id = hm.patient_id`) see only patient-route rows.
- MedicareAuth.HandleSignup: the handler reads the e-mail from the second `input[type="email"]` of the sign-up form (medicare/frontend/js/auth.js:71). The contract assumes that input exists; if the form had only one, `emailInput.value` would throw before any check runs. The page markup is not part of this model.
- ORDER BY ties: rows with equal keys keep table order (a stable sort). SQL leaves that order unspecified.
- Dates and times: appointment dates are day numbers and times are seconds after midnight.
- BMI: the patient route's `(weight / (height/100)^2).toFixed(2)` is the abstract parameter `bmiOf`, and the front-end BMI calculations are not modelled (floating point).
- The value of the `users.role` column default, which the register insert relies on, is `Database.defaultRole`; the schema is not part of this model.
- Concurrency: concurrent requests and bookings are not modelled. Each handler runs alone against the tables.
