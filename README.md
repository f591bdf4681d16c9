# Employees attendance system — a Dafny model

This project models the core of the Employees time-tracking system and proves properties of it in Dafny. The system has an Express server and a React/axios client. The model covers three parts:

- **The attendance ledger.** Employees clock in and out. Their manager approves or rejects the finished records. The server has two near-identical copies of this ledger:
  - `employeeController.ts` stores notes as a `{startTimeNote, endTimeNote}` pair;
  - `timeRecordController.ts` stores one notes string with defaults.

  The common part is in `ledger.dfy`: the record shape, the open-record test, the guard chains, the queries, and the invariant that each user has at most one open record and that ids are distinct. Each copy is a class over its own `timeRecords` sequence: `employee_ledger.dfy` and `time_record_ledger.dfy`.
- **The account registry** (`accounts.dfy`). It models registration with its ordered validation chain, login, the current-user lookup, the manager list, and access-token refresh over the `users` array. The registry invariant says that emails are unique, ids are unique, and every assigned manager exists and is flagged as a manager.
- **The token gate and the client token store.**
  - `auth_middleware.dfy` models how the server pulls the bearer token out of the header and decides whether to admit the request.
  - `client_api.dfy` models the axios request interceptor and the retry-once response interceptor. It proves that a request is replayed at most once.
  - `client_auth.dfy` models the client's `localStorage` and default-header operations (login, refresh, load, logout).

`js.dfy` holds the JavaScript behaviour the code relies on:
- truthiness of strings and ids, `||` on strings and `${}` interpolation;
- `findIndex` and `filter`;
- the `Math.max(...ids) + 1` id rule;
- `split(' ')` with its join round trip;
- `trim`.

`http.dfy` holds the reply shape (a status with a body or an error message) and the JWT claims.

Collaborators are passed in as parameters:
- clock readings (the date and time strings);
- bcrypt's hash and compare;
- `jwt.sign` and `jwt.verify`;
- the account list the ledger reads from `app.locals.users`;
- the server replies the client receives.

Points where the code behaves differently from what its names, comments and routes suggest:
- Approved and rejected records are not final. Approve and reject check only that the record exists, that the caller is its manager and that it has an end time, so either can be applied again. `Ledger.ReviewIgnoresStatus` proves this.
- The client has no single-flight refresh queue. Every 401 runs its own refresh, and the model covers one request's handling at a time.
- The server's login reply carries the refresh token only as a cookie, never in the body. So the client never stores one after login, and its first 401 afterwards signs it out. `ClientAuth.LoginWithoutRefreshEndsAtFirst401` proves this.
- The server registers no routes for `refreshToken` and `logout` (server/src/routes/authRoutes.ts), and `server.ts` mounts only the `timeRecordController` routes. Each side is still modelled on its own terms.

## Model

| member | source | states |
|---|---|---|
| Js.FindIndex | server/src/controllers/employeeController.ts:71-73 | `findIndex` gives the first index whose element satisfies the predicate, or none exactly when no element does |
| Js.Filter | server/src/controllers/employeeController.ts:103 | `filter` keeps exactly the satisfying elements, each as many times as it occurs, and never grows the array |
| Js.FilterAppend | server/src/controllers/employeeController.ts:117 | filtering distributes over concatenation, so records added later come later in every filtered list |
| Js.Max | server/src/controllers/employeeController.ts:42 | `Math.max(...ids)` is an upper bound of the ids and one of them |
| Js.NextId | server/src/controllers/employeeController.ts:42 | the new id is larger than every existing id, is 1 for an empty array, and is otherwise one more than an existing id |
| Js.Split | server/src/middleware/auth.ts:16 | `split(' ')` gives at least one field, and no field contains the separator |
| Js.SplitJoin | server/src/middleware/auth.ts:16 | joining the fields of a split gives back the original header |
| Js.JoinSplit | server/src/middleware/auth.ts:16 | splitting a join of separator-free fields gives back those fields |
| Js.NoSeparatorSingleField | server/src/middleware/auth.ts:16 | a header without a space is a single field |
| Js.SplitFieldThenRest | server/src/middleware/auth.ts:16 | splitting `word + ' ' + rest` gives `word` followed by the fields of `rest` |
| Js.SeveralFieldsIffSeparator | server/src/middleware/auth.ts:16 | a header has a second field exactly when it contains a space |
| Js.TrimStart | server/src/controllers/authController.ts:186 | removes exactly the leading white space |
| Js.TrimEnd | server/src/controllers/authController.ts:186 | removes exactly the trailing white space |
| Js.Trim | server/src/controllers/authController.ts:186 | the trimmed string has no white space at either end, and it is empty exactly when the input is all white space |
| Js.CutBothEnds | server/src/controllers/authController.ts:186 | cutting the leading and then the trailing white space leaves the slice of the input between the two runs of white space |
| Js.TrimIsSlice | server/src/controllers/authController.ts:186 | the trimmed string is the slice of the input with only white space before and after it, so trimming removes the white space at both ends and nothing else |
| Js.TrimUnchanged | server/src/controllers/authController.ts:186 | a string with non-space ends is not changed by trimming |
| Accounts.Ids | server/src/controllers/authController.ts:63 | `users.map(u => u.id)`, position by position |
| Accounts.IndexOfId | server/src/controllers/authController.ts:157 | `users.find` by id gives the first account with the id, or none exactly when no account has it |
| Accounts.IndexOfEmail | server/src/controllers/authController.ts:41 | `users.find` by email gives the first account with the email, or none exactly when no account has it; register and login (line 106) both use it |
| Accounts.ValidateRegistration | server/src/controllers/authController.ts:41-57 | the register checks run in order: a duplicate email, then a missing manager id, then an unknown manager id, then a non-manager, each with its message; the manager is the first account with the id (as IndexOfId finds it), and registration passes exactly for a new email and such a manager |
| Accounts.NewAccount | server/src/controllers/authController.ts:62-73 | the new account has the id max+1 (above all others), the given email, names, role and managerId, the password hash, isManager true only when requested, no isPrototype flag, and managerName "first last" of the manager |
| Accounts.RegisterKeepsInvariant | server/src/controllers/authController.ts:41-75 | a successful registration keeps emails unique, ids unique and every manager reference valid |
| Accounts.Registry.constructor | server/src/controllers/authController.ts:8-30 | the registry starts with the root manager account alone, and the invariant holds |
| Accounts.Registry.Register | server/src/controllers/authController.ts:37-100 | a failed check answers 400 with its message and adds no account; success appends exactly the new account and answers 201 with a token signed for it and its profile |
| Accounts.Login | server/src/controllers/authController.ts:102-146 | an unknown email and a wrong password give the same 400 "Invalid credentials"; success holds exactly when the first account with the email matches the password, and returns tokens signed for that first account and its profile |
| Accounts.GetCurrentUser | server/src/controllers/authController.ts:153-178 | 404 "User not found" exactly when no account has the id; otherwise the full profile of the first account with the id, as IndexOfId finds it |
| Accounts.RegisterThenLogin | server/test/unit/auth.controller.test.ts:54-136 | after a registration, login with the registered email succeeds exactly when the password matches the stored hash, and the new id is found by the current-user lookup |
| Accounts.NewestAccountFound | server/src/controllers/authController.ts:102-160 | an account appended with a new email and the largest id is the one the email and id lookups find |
| Accounts.ManagerEntryOf | server/src/controllers/authController.ts:184-188 | an entry keeps the account's id and email; its name is the trimmed "first last" (missing parts read as ''), or the email when that trims to nothing; either way it is the email or has no white space at its ends |
| Accounts.GetManagers | server/src/controllers/authController.ts:180-195 | never longer than the registry, and empty exactly when no account is a manager; GetManagersExact states the entries one by one |
| Accounts.NoManagersIffEmpty | server/src/controllers/authController.ts:182-183 | the filter on `isManager` yields nothing exactly when no account is flagged |
| Accounts.GetManagersExact | server/src/controllers/authController.ts:180-195 | the manager list has one entry per manager account, in registry order, each entry built from the account at the same position of the filtered list, and nothing else; names are trimmed or the email |
| Accounts.EntriesComeFromManagers | server/src/controllers/authController.ts:180-195 | every entry carries the id and email of a manager account, and a trimmed name or the email |
| Accounts.EntryFromManager | server/src/controllers/authController.ts:180-195 | the entry at each position carries the id and email of a manager account, and a trimmed name or the email |
| Accounts.ManagersAreListed | server/src/controllers/authController.ts:180-195 | every manager account has an entry |
| Accounts.RefreshToken | server/src/controllers/authController.ts:197-223 | a missing cookie gives 401, a token that does not verify gives 403, an account that no longer exists gives 404; a new access token is issued exactly for a verified token of an existing account, signed for the first account with the token's id |
| Ledger.RecordIds | server/src/controllers/employeeController.ts:42 | `timeRecords.map(r => r.id)`, position by position |
| Ledger.FindOpen | server/src/controllers/employeeController.ts:71-73 | finds the user's first record without an end time (no earlier record of the user is open), or none exactly when there is no such record |
| Ledger.FindById | server/src/controllers/employeeController.ts:140-144 | finds the first record with the parsed id; a NaN id matches nothing |
| Ledger.ClockInCheck | server/src/controllers/employeeController.ts:23-39 | clock-in refuses an unknown user with 404, then a user without a manager with 400, then a user already clocked in with 400; it passes exactly when none of these applies, yielding the first matching account's manager id |
| Ledger.Opened | server/src/controllers/employeeController.ts:41-54 | the new record has the id max+1 (above all others, 1 in an empty ledger), the given date and start time, is pending and open, and is assigned to the user's manager with the given notes |
| Ledger.ReviewCheck | server/src/controllers/employeeController.ts:144-158 | approve and reject refuse an unknown id with 404, then a caller who is not the record's manager with 403, then an open record with 400; they pass exactly when none of these applies, yielding the record's index |
| Ledger.AppendKeepsInvariant | server/src/controllers/employeeController.ts:33-56 | appending a fresh-id record for a user with no open record keeps at most one open record per user and distinct ids |
| Ledger.ReplaceKeepsInvariant | server/src/controllers/employeeController.ts:78-89 | overwriting a slot with the same id and user, not reopening it, keeps the invariant |
| Ledger.ReviewIgnoresStatus | server/src/controllers/employeeController.ts:144-166 | changing a record's status changes no approve or reject decision, so reviewed records can be reviewed again |
| Ledger.ClockStatusIn | server/src/controllers/employeeController.ts:218-235 | clocked in exactly when an open record exists for the user, and then the user's first open record (as FindOpen finds it) is returned |
| Ledger.ClockInThenClockedIn | server/src/controllers/employeeController.ts:33-58 | after clock-in appends the user's open record, the status query reports the user clocked in with that record |
| Ledger.ClockOutThenClockedOut | server/src/controllers/employeeController.ts:71-91 | after clock-out closes the user's open record with a non-empty end time, the user is clocked out |
| Ledger.RecordsOfUser | server/src/controllers/employeeController.ts:98-110 | exactly the user's records, each as often as in the ledger |
| Ledger.RecordsOfManager | server/src/controllers/employeeController.ts:117 | exactly the records assigned to the manager, each as often as in the ledger |
| Ledger.Enrich | server/src/controllers/employeeController.ts:122-129 | a record gets the name and email of the first account with its user id (as IndexOfId finds it), or 'Unknown' for both when no account has it |
| Ledger.EnrichAll | server/src/controllers/employeeController.ts:122 | the `map` keeps the length and enriches each record in place |
| Ledger.ManagerRecords | server/src/controllers/employeeController.ts:117-129 | never longer than the ledger, and every entry is a record assigned to the manager; ManagerRecordsExact states the entries one by one |
| Ledger.ManagerRecordsExact | server/src/controllers/employeeController.ts:112-136 | the team list is the manager's records in ledger order, one entry per occurrence, each enriched; it holds those records and nothing else |
| Ledger.EnrichAllAppend | server/src/controllers/employeeController.ts:122 | `map` distributes over concatenation |
| Ledger.EnrichAllSnoc | server/src/controllers/employeeController.ts:122 | a record added at the end of the list adds its enrichment at the end |
| Ledger.RecordsOfManagerAppend | server/src/controllers/employeeController.ts:56 | an appended record joins the end of its manager's list and no other |
| Ledger.ManagerRecordsAppend | server/src/controllers/employeeController.ts:117-129 | the team list keeps ledger order: an appended record shows up last, enriched |
| Ledger.RecordsOfUserAppend | server/src/controllers/employeeController.ts:103 | a record appended for a user becomes the last of that user's records |
| EmployeeLedger.EmployeeLedger.constructor | server/src/controllers/employeeController.ts:5 | the ledger starts empty and valid |
| EmployeeLedger.EmployeeLedger.ClockIn | server/src/controllers/employeeController.ts:15-63 | a refused clock-in answers its status and message and leaves the ledger unchanged; success appends exactly the opened record with notes {given, ''}, answers 201, and leaves the user clocked in |
| EmployeeLedger.EmployeeLedger.ClockOut | server/src/controllers/employeeController.ts:65-96 | without an open record 400 and no change; otherwise only that slot changes (end time set, start note kept or '', end note given or ''), and the user is clocked out |
| EmployeeLedger.EmployeeLedger.ApproveTimeRecord | server/src/controllers/employeeController.ts:138-173 | a refusal changes nothing; success changes only the record's status, to approved |
| EmployeeLedger.EmployeeLedger.RejectTimeRecord | server/src/controllers/employeeController.ts:175-216 | a refusal changes nothing; success sets the status to rejected and rewrites the notes as two strings, changing nothing else |
| EmployeeLedger.EmployeeLedger.CheckClockStatus | server/src/controllers/employeeController.ts:218-235 | clocked in exactly when the user has an open record; the returned record is open, in the ledger, and the user's only open one |
| EmployeeLedger.EmployeeLedger.UserTimeRecords | server/src/controllers/employeeController.ts:98-110 | exactly the caller's records, each as often as in the ledger |
| EmployeeLedger.EmployeeLedger.EmployeeTimeRecords | server/src/controllers/employeeController.ts:112-136 | one enriched entry for each record assigned to the caller, in ledger order and once per occurrence, and nothing else |
| EmployeeLedger.ManagerListsAgree | server/src/controllers/employeeController.ts:237-255 | this `getManagers` lists the same accounts, ids and emails in the same order as the authController one; when both name parts are present, authController's name is this one trimmed, or the email when that trims to nothing; the names are equal when both parts are also non-empty and have no white space at their ends |
| EmployeeLedger.RawManagerEntry | server/src/controllers/employeeController.ts:244-248 | an entry keeps the account's id and email; its name is "first last" with neither part trimmed; a missing part reads "undefined" ("Ann undefined", "undefined Lee"), and the separating blank is always there |
| EmployeeLedger.GetManagers | server/src/controllers/employeeController.ts:237-255 | never longer than the registry, and empty exactly when no account is a manager; ManagerListsAgree compares it entry by entry with authController's list |
| EmployeeLedger.RawNameTrimmed | server/src/controllers/employeeController.ts:244-248 | with both name parts present, authController's manager name is this controller's name trimmed, or the email when that trims to nothing |
| EmployeeLedger.NeatNameAgrees | server/src/controllers/employeeController.ts:237-255 | for an account whose name parts are present and have no white space at their ends, both controllers build the same manager name |
| TimeRecordLedger.TimeRecordLedger.constructor | server/src/controllers/timeRecordController.ts:6 | the ledger starts empty and valid |
| TimeRecordLedger.TimeRecordLedger.ClockIn | server/src/controllers/timeRecordController.ts:20-68 | a refused clock-in leaves the ledger unchanged; success appends exactly the opened record with the notes given or 'Clock in', answers 201, and leaves the user clocked in |
| TimeRecordLedger.TimeRecordLedger.ClockOut | server/src/controllers/timeRecordController.ts:71-101 | without an open record 400 and no change; otherwise only that slot changes, with the end time and the given notes or else the previous ones ('Clock out' is never reached in a valid ledger) |
| TimeRecordLedger.TimeRecordLedger.ApproveTimeRecord | server/src/controllers/timeRecordController.ts:148-184 | a refusal changes nothing; success changes only the record's status, to approved |
| TimeRecordLedger.TimeRecordLedger.RejectTimeRecord | server/src/controllers/timeRecordController.ts:187-225 | a refusal changes nothing; success sets the status to rejected and the notes to the given ones or 'Rejected by manager' |
| TimeRecordLedger.TimeRecordLedger.CheckClockStatus | server/src/controllers/timeRecordController.ts:228-245 | clocked in exactly when the user has an open record; the returned record is open, in the ledger, and the user's only open one |
| TimeRecordLedger.TimeRecordLedger.UserTimeRecords | server/src/controllers/timeRecordController.ts:104-116 | exactly the caller's records, each as often as in the ledger |
| TimeRecordLedger.TimeRecordLedger.EmployeeTimeRecords | server/src/controllers/timeRecordController.ts:119-145 | one enriched entry for each record assigned to the caller, in ledger order and once per occurrence, and nothing else |
| AuthMiddleware.ExtractTokenShape | server/src/middleware/auth.ts:16 | a token is found exactly when the header contains a space, and it contains no space itself |
| AuthMiddleware.ExtractToken | server/src/middleware/auth.ts:16 | no header gives no token, and a token never contains a space; ExtractTokenShape and SchemeIgnored say when one is found |
| AuthMiddleware.SchemeIgnored | server/src/middleware/auth.ts:16-20 | any first word followed by a space and the token yields the token, so the scheme is not checked; the word alone (e.g. "Bearer") yields no token |
| AuthMiddleware.Gate | server/src/middleware/auth.ts:15-30 | a missing or empty token gives 401 "No token, authorization denied"; a token that fails verification gives 401 "Token is not valid"; only a verified token admits, with its decoded claims |
| AuthMiddleware.Request.constructor | server/src/middleware/auth.ts:7-13 | a request starts with no user, no `next` call and no response |
| AuthMiddleware.Authenticate | server/src/middleware/auth.ts:15-30 | a refusal sends exactly one 401 and touches neither `req.user` nor `next`; an admission sets `req.user` to the claims, calls `next` once and sends nothing |
| ClientApi.WithStoredToken | client/src/api/index.ts:5-16 | the bearer header is attached exactly when a truthy token is stored; otherwise the headers are unchanged, and other headers are never touched |
| ClientApi.ClearTokens | client/src/api/index.ts:44-48 | both token keys are removed and every other key is kept |
| ClientApi.NewToken | client/src/api/index.ts:36 | the access token first, then `token`: a token exactly when either field is truthy, `accessToken` whenever it is truthy, and never anything else |
| ClientApi.OnError | client/src/api/index.ts:18-53 | non-401 and already-retried errors are rejected with nothing changed; otherwise the request is marked; a missing refresh token or a failed refresh clears both keys and rejects; a reply without a token rejects and keeps the storage; a new token is stored, set on both header maps, and the request replayed, and this is the only case that replays |
| ClientApi.ReplayKeepsNewHeader | client/src/api/index.ts:36-42 | the replayed request passes the request interceptor again with its new bearer header unchanged |
| ClientApi.AtMostOneReplay | client/src/api/index.ts:23-24 | however many failures follow, a request is replayed at most once, and never once it is marked |
| ClientApi.Client.constructor | client/src/api/index.ts:3 | the client starts with the given storage and no default headers |
| ClientApi.Client.InterceptRequest | client/src/api/index.ts:5-16 | the request's headers become those the stored token calls for, and its retry flag is kept |
| ClientApi.Client.InterceptError | client/src/api/index.ts:18-53 | storage, default headers, the request and the replay decision are exactly as OnError gives them |
| ClientApi.RequestConfig.constructor | client/src/api/index.ts:21-24 | a request starts unmarked with its headers |
| ClientAuth.AuthHeaders | client/src/api/auth.ts:4-12 | a truthy token sets the bearer header, anything else removes it; other headers stay |
| ClientAuth.ReadCredentials | client/src/api/auth.ts:37-54 | the token is `token`, else `accessToken`, and an error exactly when neither is present; the refresh token is given or '' (register returns this and stores nothing) |
| ClientAuth.StoreTokens | client/src/api/auth.ts:68-71 | the token key holds the new token; the refresh key changes only when a truthy refresh token is given; other keys stay |
| ClientAuth.LoadedSession | client/src/api/auth.ts:14-35 | a valid session exactly when a truthy token is stored, carrying that token |
| ClientAuth.SetAuthToken | client/src/api/auth.ts:4-12 | only the default headers change, as AuthHeaders says |
| ClientAuth.LoadUserFromToken | client/src/api/auth.ts:14-35 | returns the stored session or null; sets the header only when there is one, and never writes storage |
| ClientAuth.Login | client/src/api/auth.ts:56-82 | a failed request or a reply without a token changes nothing; success stores the token, the refresh token only when non-empty, and sets the header |
| ClientAuth.RefreshToken | client/src/api/auth.ts:84-110 | with no stored refresh token it fails before sending anything; a failed or token-less reply changes nothing; a reply with a token always succeeds: it stores the token (`accessToken` first), replaces the refresh token only when one came back, sets the header and returns the token |
| ClientAuth.Logout | client/src/api/auth.ts:112-124 | the server is told only when a refresh token is stored; both keys and the default header are always removed |
| ClientAuth.GetCurrentUser | client/src/api/auth.ts:126-139 | a stored token is set as the header before the request, and the reply is passed through |
| ClientAuth.LoginThenLoad | client/src/api/auth.ts:56-82 | after a successful login the session loads with the new token, and the interceptor and the default headers carry the same bearer header |
| ClientAuth.LogoutThenLoad | client/src/api/auth.ts:112-124 | after logout no session loads and the interceptor attaches no header |
| ClientAuth.RefreshThenLoad | client/src/api/auth.ts:102-109 | after a successful refresh the session loads with the new token |
| ClientAuth.LoginWithoutRefreshEndsAtFirst401 | client/src/api/auth.ts:60-71 | a login reply shaped like the server's (an access token and no refresh token) leaves no refresh token, so the next 401 clears both keys and rejects without a replay |

## Left out

- `createdAt` and `updatedAt`: these are clock readings with no influence on any decision, so they are not modelled.
- The date and time formatting of `getCurrentDate` and `getCurrentTime`: the date and time strings are method inputs.
- bcrypt and `jsonwebtoken`: these are oracles passed as parameters. Their secrets, expiry and salt are not modelled.
- The 500 "Server error" catch paths of every handler: no modelled step throws.
- `Math.max(...ids)` throwing a RangeError on very large arrays: not modelled.
- Js.NextId: ids are unbounded integers here. In JavaScript, `Math.max(...ids) + 1` is a double, which stops being exact above 2^53, so two records or accounts could then get the same id. The model does not capture this.
- Js.Trim: removes only the ASCII white space characters (space, tab, line feed, carriage return, vertical tab, form feed). JavaScript's `trim` also removes U+00A0, U+FEFF, U+1680, U+2000 to U+200A, U+2028, U+2029, U+202F, U+205F and U+3000; a name ending in one of these keeps it here.
- Request bodies are assumed to have their declared types. A `managerId` sent as a string never matches an id under `===`. That is not modelled.
- `app.locals.users` is the same array as the registry's `users`. The ledgers take a snapshot of it as a parameter, so the aliasing is not modelled.
- The server's `logout` handler only clears a cookie, so it is not modelled.
- The client `getManagers` is a plain pass-through of the server reply, so it is not modelled.
- The `user` field of the client login and register results (`data.user || data`) is not modelled. Only the token fields are.
- ClientAuth.RefreshToken: its request goes through the response interceptor in the source, so a 401 from the refresh route can start an interceptor refresh. The model treats the reply as final.
- ClientAuth.GetCurrentUser: the `/auth/me` request goes through the response interceptor in the source, so a 401 from it can refresh or clear the stored tokens before the caller sees the result. The method states only its own effect and treats the reply as final.
- Concurrency between requests and the order in which promises settle are not modelled. Each failed request's handling is modelled on its own.
