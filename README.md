# go-http-server: sessions and credentials, modelled in Dafny

This project models the core of `go-http-server`. It is an HTTP service that signs administrators and users in and keeps their sessions.

- **Administrators** sign in with a username and a bcrypt-checked password. They receive a signed bearer token, valid for seven days.
- **Users** sign in by e-mail. They first receive a short-lived **login token**, which is redeemed once for a **session** (a "user token"). Activity moves a session's last-activity time, but its expiry is fixed when the session is inserted. A session found expired is renewed if both its last activity and its expiry fall within the past three days; otherwise it is refused. It can be disconnected by its owner, and is refused once its user is banned.

Every token is a three-part `header.payload.signature` string:

- the header and claims are base64url-encoded JSON;
- the signature is the lowercase hex of an HMAC-SHA256 over the first two parts.

## Modules

The model follows the repository file by file.

- **Tokens**
  - `Jwt` is the codec (utils/jwt.go). Base64, JSON and the MAC are parameters that obey the laws the code relies on.
  - `UserTokenPayloads` is the session claims record whose `FromJWT` overwrites its receiver.
- **Request gates**
  - `Bearer` covers the `Authorization` header parsing shared by both gates.
  - `AdminGate` is the admin gate. `UserGate` is the user gate, and `UserGateFacts` holds its properties.
  - The user gate covers these paths: handoff from a login token, renewal of an expired session within the three-day grace window, activity touches, ban and disconnection checks.
- **Stores** are classes whose tables are `map` or `seq` fields, updated by their methods:
  - `Admins`, `Users`, `Sessions` (user tokens), `LoginTokens` and `EmailSettings`;
  - `IdGeneration` is the bounded retry loop that draws fresh identifiers;
  - `Sql` covers the placeholder counting of the statements the stores build.
- **Routes**: `AdminRoutes`, `UserRoutes`, `SessionRoutes`, `LoginTokenRoutes` and `EmailSettingRoutes`. `Http` holds the reply shape and the path-id extraction they share.
- **Utilities**:
  - `Uuid` and `Hex` cover version-4 identifiers and hex text.
  - `EmailCheck` is the address pattern.
  - `DeviceInfo` is the user-agent classification.
  - `LineBreaks` and `Template` cover text handling.
  - `Logging` is the daily rotating log file.
  - `Mailing` is the SMTP mailer.
  - `Decimal` is `Itoa`/`Atoi`.
- **Shared**: `Strings` (Go string functions), `Wrappers` and `Dates`.

Time is integer Unix seconds, and a request sees a single `now`. A stored date is either a time or text that does not parse. A Go panic (an index out of range, a nil dereference) is the value `RuntimePanic`. net/http recovers such a panic per request and sends no reply, which is the `Dropped` reply.

## Model

| member | source | states |
|---|---|---|
| Admins.FindById | models/admin.go:56-91 | found exactly when a row has the id; the row's id, name, username and creation time are returned; otherwise the driver's no-rows error comes back unchanged |
| Admins.CreateOutcome | models/admin.go:93-157 | on success the new id is the counter value, the counter advances and exactly that id is added; on any error nothing is written |
| Admins.Rewritten | models/admin.go:186-228 | the updated row keeps id, creator and creation time, takes the new name and username, and changes its password only when a new hash is given |
| Admins.UpdateOutcome | models/admin.go:159-245 | a successful update touches only the row of `id`, which exists; any error leaves the table unchanged; an update that carries a password always changes the row, because the hash is freshly salted |
| Admins.Authenticate | models/admin.go:247-295 | an id is returned only for an admin with that username whose hash matches the password; every failure is the one "incorrect username or password" error |
| Admins.AuthenticateIff | models/admin.go:247-295 | sign-in succeeds exactly when some admin has that username and a matching hash; an unknown username and a wrong password give the same error |
| Admins.CreateTestsEveryAdmin | models/admin.go:98-101 | with positive ids, the availability check with `excludeId` 0 tests every admin |
| Admins.CreateRefusesTaken | models/admin.go:98-109 | a username held by any admin is refused with "username already registered" and nothing is written |
| Admins.CreateKeepsConsistent | models/admin.go:93-157 | `Create` keeps rows keyed by id, usernames unique and every id below the auto-increment counter |
| Admins.CreatedFound | models/admin.go:56-91 | the admin just created is found by id with the given name, username and creation time |
| Admins.CreatedAuthenticates | models/admin.go:129-144 | with a bcrypt whose hashes match their passwords, a created admin signs in with its password and gets its id |
| Admins.OwnUsernameAvailable | models/admin.go:165-176 | an admin may keep its own username on update (the check excludes its id) |
| Admins.OthersUsernameRefused | models/admin.go:165-176 | another admin's username is refused on update and nothing is written |
| Admins.UpdateWrites | models/admin.go:186-228 | a successful update writes name and username, writes the password hash iff the password is non-empty, and changes no other row |
| Admins.UnknownIdNotFound | models/admin.go:234-242 | an update of an id with no row reports "admin not found" and writes nothing |
| Admins.SamePasswordResubmissionSucceeds | models/admin.go:204-241 | resubmitting an admin's own name and username with a password bcrypt can hash succeeds, even when the password is the current one, and rewrites only that admin's password column with the new hash |
| Admins.UnchangedUpdateReportsNotFound | models/admin.go:234-242 | resubmitting an admin's own name and username without a password also reports "admin not found", since no row's values change |
| Admins.UpdateKeepsConsistent | models/admin.go:159-245 | `Update` keeps rows keyed by id, usernames unique and ids below the counter |
| Admins.UpdatedAuthenticates | models/admin.go:204-221 | after an update with a new password, the admin signs in with the new username and password |
| Admins.UpdateHeadPlain | models/admin.go:186 | the fixed head of the update query holds no placeholder |
| Admins.UpdateWherePlain | models/admin.go:192 | the WHERE keyword of the update query holds no placeholder |
| Admins.UpdateAssignmentsCounted | models/admin.go:186-192 | each column assignment of the update query holds exactly one placeholder |
| Admins.PasswordClausePlaceholders | models/admin.go:188-190 | the optional password clause adds one placeholder when present and none otherwise |
| Admins.UpdateStatementMatched | models/admin.go:186-228 | the update query has exactly one placeholder per argument, with and without the password |
| Admins.UpdateSendsMatched | models/admin.go:204-228 | every executed update binds one argument per placeholder: three without a password, four with one |
| Admins.Admins.constructor | models/admin.go:12 | an empty table whose counter starts at 1 |
| Admins.Admins.Create | models/admin.go:93-157 | the table and counter after `Create` are those of `CreateOutcome`, and the table invariant holds |
| Admins.Admins.Update | models/admin.go:159-245 | builds the query clause by clause; the table after it and the executed statement are those of `UpdateOutcome`, each statement is matched, and the invariant holds |
| Bearer.ParseBearer | middlewares/authenticate_admin.go:17-33 | an empty header gives 401 "No authorization provided."; otherwise the header is accepted exactly when its split on spaces has at least two parts and the first is "Bearer", else 401 "Invalid token."; the token is the second part, has no space, and "Bearer " + token is the header's first two parts rejoined |
| Bearer.TokenAfterBearer | middlewares/authenticate_user.go:161-187 | "Bearer " and a space-free token give that token back, whatever follows after a further space |
| Bearer.SchemeIsExact | middlewares/authenticate_user.go:170-177 | any scheme other than the exact word "Bearer", such as "bearer", gives 401 "Invalid token." |
| Bearer.NoSpaceRefused | middlewares/authenticate_admin.go:26-33 | a non-empty header without a space has fewer than two parts and gives 401 "Invalid token." |
| AdminGate.AuthenticateAdmin | middlewares/authenticate_admin.go:11-52 | a header refusal is returned as it is; an admin is returned only after the header was accepted and its token read |
| AdminGate.HeaderRefusals | middlewares/authenticate_admin.go:17-33 | an empty header gives 401 "No authorization provided." and a header with another scheme gives 401 "Invalid token." |
| AdminGate.DecidedByLookup | middlewares/authenticate_admin.go:43-51 | once the token reads, the result is exactly the lookup by id; an unknown id passes the driver's no-rows error on unchanged |
| AdminGate.TokenErrorPassedOn | middlewares/authenticate_admin.go:35-41 | a token that does not read is refused with the reader's own error, before any lookup |
| AdminGate.AdmittedIsNamed | middlewares/authenticate_admin.go:43-51 | the admin let in is the stored admin whose id the token names |
| UserGate.IpAddress | middlewares/authenticate_user.go:26 | the client address is the remote address up to its first ':' and holds no ':' |
| UserGate.DeviceLabel | middlewares/authenticate_user.go:27-33 | the device is non-empty exactly when both platform and browser are known, and is then "platform:browser" |
| UserGate.MintOutcome | middlewares/authenticate_user.go:134-159 | minting a session changes only the session table and the draw count, as the session insert does, and yields the new session id with a token whose claims name it and expire 30 days after now |
| UserGate.MintIn | middlewares/authenticate_user.go:134-159 | the session insert and token on the session store leave what `Mint` describes, and the new session is stored |
| UserGate.UserForEmailIn | middlewares/authenticate_user.go:100-132 | a new email creates the user and reloads it by id; a known one is found by email; the store after it is what `UserForEmail` describes |
| UserGate.HandoffIn | middlewares/authenticate_user.go:37-159 | the hand-off path on the stores (login-token checks, the user, the new session and its token) leaves what `Handoff` describes |
| UserGate.EnterIn | middlewares/authenticate_user.go:35-188 | both entry paths, hand-off by login-token id or Bearer token, leave what `Enter` describes |
| UserGate.RenewIn | middlewares/authenticate_user.go:225-261 | the renewal of an expired session leaves what `Renew` describes: a new session row, its token and the reloaded row |
| UserGate.CurrentIn | middlewares/authenticate_user.go:198-268 | an unexpired session is used as it is; an expired one is renewed when due, else refused with 400 "User token has expired."; the store is as `Current` describes |
| UserGate.PostChecksIn | middlewares/authenticate_user.go:270-318 | the creation-date, disconnection, user and ban checks and the activity touch leave what `PostChecks` describes |
| UserGate.ProceedIn | middlewares/authenticate_user.go:190-318 | the session lookup, renewal and post-checks leave what `Proceed` describes |
| UserGate.AuthenticateUser | middlewares/authenticate_user.go:13-319 | the result, the two tables and the number of identifiers drawn are those of `Authenticate`, and both stores stay valid |
| UserGateFacts.LoginTokenAccepted | middlewares/authenticate_user.go:46-98 | a login token passes the hand-off checks exactly when both dates parse, it has not expired, its creation date is not in the future, and it is authorized and not denied |
| UserGateFacts.LoginTokenCheckOrder | middlewares/authenticate_user.go:46-98 | the checks report in source order, each with its own error: an unparseable expiry date ("Error parsing date."), expiry, an unparseable creation date ("Error parsing date."), a creation date in the future, denial, then "Login token not authorized." |
| UserGateFacts.RejectedHandoffWritesNothing | middlewares/authenticate_user.go:46-98 | a login token that fails a check is refused with that check's error, writing nothing and drawing no identifier |
| UserGateFacts.UserForEmailOutcome | middlewares/authenticate_user.go:100-132 | a registered email finds its user and writes nothing; a new email creates an unbanned user with that email under an unused id, or fails leaving the users as they were |
| UserGateFacts.HandoffSession | middlewares/authenticate_user.go:100-159 | a successful hand-off returns the user of the login token's email, a session inserted under a new id that records the login token, and a token naming that session for 30 days; the tables stay consistent |
| UserGateFacts.HandoffIgnoresAuthorization | middlewares/authenticate_user.go:35-37 | with a login-token id present the Authorization header is never read: the outcome is the same whatever it holds |
| UserGateFacts.MintedTokenEnters | middlewares/authenticate_user.go:160-187 | a token the gate minted, presented as "Bearer <token>" while current, names its session on the Bearer path, which writes nothing |
| UserGateFacts.FreshSessionDecides | middlewares/authenticate_user.go:190-318 | the session a hand-off just inserted passes the session checks at once: a banned user is refused with 403 "User banned." although the session stays inserted; any other user is admitted with the new token |
| UserGateFacts.FreshSessionProceeds | middlewares/authenticate_user.go:190-318 | after entry, a session row inserted at now for a known user is decided by the ban check alone |
| UserGateFacts.CurrentCases | middlewares/authenticate_user.go:198-268 | an unexpired session is used as it is; an expired one whose last activity and expiry both fall within the three days before now is renewed; any other is refused with 400 "User token has expired." and nothing is written |
| UserGateFacts.RenewedRow | middlewares/authenticate_user.go:228-261 | a renewal inserts under a new id a 30-day session derived from the old one, whose user id is the old session's id (as the code passes `userToken.Id`), and returns it with a token naming it; the old row is unchanged |
| UserGateFacts.RenewKeepsRows | middlewares/authenticate_user.go:228-261 | a renewal changes no user and no existing session; a failed one writes nothing |
| UserGateFacts.BearerRenewalLosesUser | middlewares/authenticate_user.go:228-305 | after a session lookup that found an expired, renewable row, the renewed session is looked up by the old session's id as a user id, so unless a user has that id the request ends in 404 "User not found." while the new session stays inserted; such a row arises only from a clock skew (see `UserGateFacts.BearerRenewalUnreachable`) |
| UserGateFacts.BearerRenewalUnreachable | middlewares/authenticate_user.go:160-211 | a minted session token presented once its session has expired is refused with 401 "Expired token." by the token's own expiry test, before the row is looked up and without any write, so with one clock the Bearer path never reaches renewal |
| UserGateFacts.DisconnectedSessionRenewed | middlewares/authenticate_user.go:211-295 | the disconnected flag is read only on the session after renewal, so a disconnected session that expired within the grace period is renewed into a connected one and not refused as disconnected; such a row arises only from a clock skew |
| UserGateFacts.TokenOnlyWhenMinted | middlewares/authenticate_user.go:151-159 | the token handed back is empty unless the request minted a session, and a non-empty token comes with exactly one new session row |
| UserGateFacts.BearerProceeds | middlewares/authenticate_user.go:245-253 | after the Bearer path a non-empty token comes only from a renewal, which inserted exactly one row |
| UserGateFacts.PostChecksCases | middlewares/authenticate_user.go:270-318 | the post-checks in order: the creation date parses and is not in the future, the session is connected, the user exists and is not banned; only a request that passes them all touches the session's activity |
| UserGateFacts.MintKeepsRows | middlewares/authenticate_user.go:136-147 | minting a session only adds a session row |
| UserGateFacts.UserForEmailKeepsRows | middlewares/authenticate_user.go:100-132 | finding or creating the user of an email only adds a user |
| UserGateFacts.HandoffKeepsRows | middlewares/authenticate_user.go:37-159 | the hand-off only adds rows |
| UserGateFacts.EnterKeepsRows | middlewares/authenticate_user.go:35-188 | entering, on either path, only adds rows |
| UserGateFacts.CurrentKeepsRows | middlewares/authenticate_user.go:198-268 | finding the current session only adds rows |
| UserGateFacts.RefusalKeepsRows | middlewares/authenticate_user.go:13-319 | a refused request alters no row that existed before it; the rows it may leave behind are new users and sessions |
| UserGateFacts.HandoffKeepsConsistent | middlewares/authenticate_user.go:37-159 | a hand-off keeps both tables consistent whatever its outcome |
| UserGateFacts.CurrentKeepsConsistent | middlewares/authenticate_user.go:198-268 | finding the current session keeps both tables consistent |
| UserGateFacts.AuthenticateKeepsConsistent | middlewares/authenticate_user.go:13-319 | the whole gate keeps both tables consistent: rows under their ids, user emails unique, each login token used by at most one session |
| LoginTokens.DeviceCodes | models/login_token.go:12-54 | a device code is in use exactly when it is not available |
| LoginTokens.LoginTokens.constructor | models/login_token.go:10 | the table starts empty |
| LoginTokens.LoginTokens.GenerateDeviceCode | models/login_token.go:56-98 | one draw, then up to 20 more while the code is in use, gives the result and the draw count of `Search` |
| LoginTokens.Search | models/login_token.go:56-98 | a code found is not in use by any row, after at most 21 draws |
| LoginTokens.AllUsedExhausts | models/login_token.go:90-95 | when all 21 draws give codes in use, the search fails with "Failed to generate device code." after 21 draws |
| LoginTokens.FailedDrawAborts | models/login_token.go:60-79 | after n draws of codes in use, a failed draw aborts at once with its own error, after n + 1 draws |
| Sessions.FindById | models/user_token.go:136-191 | a session is found exactly when a row has that id, and then it is that row; otherwise "User token not found." |
| Sessions.CreateOutcome | models/user_token.go:193-271 | a created session has an identifier not yet in use and is the one row added; a failure adds nothing; at most 21 draws are made |
| Sessions.Touched | models/user_token.go:273-303 | updating the activity keeps the set of sessions |
| Sessions.Disconnected | models/user_token.go:305-335 | disconnecting keeps the set of sessions |
| Sessions.NeitherSourceRejected | models/user_token.go:204-209 | without a login token or a previous session, 400 "No login or user token provided.", with nothing drawn or written |
| Sessions.BothSourcesAccepted | models/user_token.go:204-271 | both sources at once are accepted: an unused login token and a free draw insert a row holding both references |
| Sessions.UsedLoginTokenRejected | models/user_token.go:211-226 | a login token already referenced by a session is refused with 400 "Login token already used." before any draw |
| Sessions.AllTakenExhausts | models/user_token.go:92-134 | when all 21 draws succeed and are taken, `Create` fails with "Failed to generate ID." after 21 draws |
| Sessions.ExhaustedMeansAllTaken | models/user_token.go:92-134 | "Failed to generate ID." means all 21 draws were made and taken |
| Sessions.CreateKeepsConsistent | models/user_token.go:193-271 | `Create` keeps every row under its own id and each login token used by at most one session |
| Sessions.TouchChangesOnlyActivity | models/user_token.go:273-303 | only `last_activity` of that one row changes, to now; an unknown id changes nothing |
| Sessions.DisconnectChangesOnlyFlag | models/user_token.go:305-335 | only the `disconnected` flag of that one row is set, whatever its prior state; an unknown id changes nothing |
| Sessions.UserTokens.constructor | models/user_token.go:10 | the table starts empty and consistent |
| Sessions.UserTokens.GenerateId | models/user_token.go:92-134 | the bounded search returns an identifier not in use, with the result and draw count of the search |
| Sessions.UserTokens.Create | models/user_token.go:193-271 | the table, identifier and draw count after the call are those of `CreateOutcome`, and the table stays consistent |
| Sessions.UserTokens.UpdateActivity | models/user_token.go:273-303 | the table becomes `Touched` of the old table |
| Sessions.UserTokens.Disconnect | models/user_token.go:305-335 | the table becomes `Disconnected` of the old table |
| Users.FindById | models/user.go:146-195 | a user is found exactly when a row has that id, and then it is that row; otherwise "User not found." |
| Users.FindByEmail | models/user.go:197-246 | a user is found exactly when the email is registered, and then it is a row with exactly that email; otherwise "User not found." |
| Users.CreateOutcome | models/user.go:248-307 | a created user has a fresh identifier, the given email, is not banned and was created now, and is the one row added; a failure adds nothing; at most 21 draws |
| Users.WithBanned | models/user.go:309-367 | banning or unbanning keeps the set of users |
| Users.RegisteredEmailRefused | models/user.go:260-273 | a registered email is refused with 409 "Email already registered.", after one successful draw that is spent |
| Users.IdBeforeEmail | models/user.go:254-258 | a failing identifier search wins over a registered email |
| Users.CreateKeepsConsistent | models/user.go:248-307 | `Create` keeps every row under its own id and every email unique |
| Users.CreatedIsFound | models/user.go:197-307 | after a successful `Create` the new user is what `FindByEmail` of its email finds |
| Users.FoundByEmail | models/user.go:197-246 | with emails unique, every user is what `FindByEmail` of its email finds |
| Users.SetBannedChangesOnlyFlag | models/user.go:309-367 | only the `banned` flag of that one row is set; an unknown id changes nothing and is no error |
| Users.Users.constructor | models/user.go:10 | the table starts empty and consistent |
| Users.Users.GenerateId | models/user.go:102-144 | the bounded search returns an identifier not in use, with the result and draw count of the search |
| Users.Users.Create | models/user.go:248-307 | the table, identifier and draw count after the call are those of `CreateOutcome`, and the table stays consistent |
| Users.Users.Ban | models/user.go:309-337 | the table becomes the old one with that user banned |
| Users.Users.Unban | models/user.go:339-367 | the table becomes the old one with that user unbanned |
| EmailSettings.List | models/email_setting.go:14-54 | an empty table is 404 "Email settings not found."; otherwise the row with the greatest id is read, and the call succeeds exactly when its password decrypts, with the decrypted password and the other fields as stored |
| EmailSettings.Pairs | models/email_setting.go:62-83 | the loop fails exactly when a non-empty password fails to encrypt, with 500 "Failed to encrypt password."; otherwise each column's last value is the stored value of a kept entry, and an empty password adds nothing |
| EmailSettings.PairsStep | models/email_setting.go:62-83 | one more key visited adds its pair, nothing for an empty password, or fails on the encryption |
| EmailSettings.Clauses | models/email_setting.go:82 | clause k is "`column` = ?" for the column of pair k |
| EmailSettings.Args | models/email_setting.go:77-79 | value k is the text of pair k |
| EmailSettings.FieldsByName | models/email_setting.go:26 | the four columns read the host, port, username and password of a row |
| EmailSettings.Assign | models/email_setting.go:91-102 | an assignment changes the named column only |
| EmailSettings.UpdateOutcome | models/email_setting.go:56-114 | an error leaves the table and sends nothing; the update succeeds exactly when no encryption fails and the server accepts the clauses; an encryption failure is reported as such; no row is added or removed |
| EmailSettings.OutcomeOfPairs | models/email_setting.go:85-113 | a rejected statement is 500 "Failed to update email settings."; an accepted one executes the clauses and values on every row |
| EmailSettings.ExecutedFields | models/email_setting.go:91-102 | after the statement each column holds its last paired value, or is untouched |
| EmailSettings.UpdateWritesEveryRow | models/email_setting.go:56-114 | with no WHERE clause every row gets the map's value (the password encrypted) in each column the map names, except that an empty password keeps the stored one; other columns keep their values |
| EmailSettings.SameFields | models/email_setting.go:26 | two rows agreeing on the four columns are the same row |
| EmailSettings.RowOrderIrrelevant | models/email_setting.go:62 | each row is the same after two successful updates visiting the keys in two orders |
| EmailSettings.OrderIrrelevant | models/email_setting.go:62-113 | the map's iteration order changes neither the error nor the table |
| EmailSettings.AcceptedIff | models/email_setting.go:85-98 | when every kept entry names a column, the statement is accepted exactly when some entry is kept; an empty map or only an empty password gives "Failed to update email settings." |
| EmailSettings.PairedIsLooked | models/email_setting.go:62-83 | a column among the pairs has a value to look up |
| EmailSettings.EncryptionFailureAborts | models/email_setting.go:68-75 | a failed encryption aborts before the statement is built: nothing is written or sent |
| EmailSettings.KnownPlain | models/email_setting.go:82 | the clause of a table column holds exactly one placeholder |
| EmailSettings.UpdateHeadPlain | models/email_setting.go:91 | "UPDATE `email_settings` SET " holds no placeholder |
| EmailSettings.UpdateSendsMatched | models/email_setting.go:91-102 | the statement sent binds one value to each placeholder |
| EmailSettings.VisitKey | models/email_setting.go:63-82 | one pass of the loop adds the clause and value of the next key, nothing for an empty password, or fails on the encryption |
| EmailSettings.Appended | models/email_setting.go:77-82 | `updates` and `values` grow together, one entry each, at the end |
| EmailSettings.EmailSettingsTable.constructor | models/email_setting.go:12 | the table holds the given rows |
| EmailSettings.EmailSettingsTable.Update | models/email_setting.go:56-114 | the loop, the prepare and the execution leave the table, error and statement of `UpdateOutcome`, and the statement sent binds one value per placeholder |
| AdminRoutes.LoginFieldsFirst | routes/admins.go:46-60 | a missing username is reported before a missing password, and neither reaches the table |
| AdminRoutes.LoginSucceedsIff | routes/admins.go:15-101 | a login succeeds exactly for a POST of a username held by an admin whose stored hash matches the password; a wrong username and a wrong password get the same error |
| AdminRoutes.LoginToken | routes/admins.go:77-101 | the token handed out names the admin whose username was sent and is accepted, with those claims, for exactly seven days |
| AdminRoutes.LoginReply | routes/admins.go:62-101 | a login that got a token got it for the admin the credentials authenticate, and the reply carries that admin's record: id, name, username and creation date |
| AdminRoutes.RegisterFormError | routes/admins.go:148-186 | the form passes exactly when name, username, password and confirmation are given and the passwords agree |
| AdminRoutes.UpdateFormError | routes/admins.go:271-303 | the form passes exactly when name and username are given and, when a new password is given, the confirmation agrees with it; no password needs no confirmation |
| AdminRoutes.Register | routes/admins.go:103-224 | a request either gets a reply with data or leaves the table and counter unchanged |
| AdminRoutes.RegisterSucceeds | routes/admins.go:103-224 | a registration succeeds exactly when an authenticated admin sends a complete form with an unused username that bcrypt can hash; the new row is filed under the next id with the caller as creator, and the 201 reply shows it |
| AdminRoutes.RegisteredCanLogIn | routes/admins.go:15-224 | the new admin can log in with the password of the form |
| AdminRoutes.AdminRegister | routes/admins.go:103-224 | the handler on the admins store leaves the reply, table and counter of `Register` |
| AdminRoutes.Update | routes/admins.go:226-341 | a request either gets a reply with data or leaves the table unchanged |
| AdminRoutes.UpdateTouchesOnlyCaller | routes/admins.go:226-341 | a successful update rewrites the caller's row and no other (no id comes from the request): name and username as sent, the password only when a new one was given; the reply is that row |
| AdminRoutes.ResubmittingFails | routes/admins.go:307-322 | sending back one's own name and username without a new password changes no column, so the request fails with "admin not found" although the caller exists |
| AdminRoutes.ResubmittingWithPasswordSucceeds | routes/admins.go:306-341 | sending back one's own name and username with a password, even the current one, gets 200 with the caller's record and rewrites only the caller's password |
| AdminRoutes.AdminUpdate | routes/admins.go:226-341 | the handler on the admins store leaves the reply and table of `Update`, and the counter unchanged |
| EmailSettingRoutes.ListGuards | routes/email_settings.go:16-55 | any method but GET is 405; a caller the admin gate refuses gets the gate's error; an admin's GET on an empty table is 404 |
| EmailSettingRoutes.FormData | routes/email_settings.go:128-133 | the map handed to the model names exactly the four columns |
| EmailSettingRoutes.FormError | routes/email_settings.go:104-126 | the form passes exactly when host, port and username are given; the password may be empty |
| EmailSettingRoutes.UpdateReply | routes/email_settings.go:57-150 | a request either leaves the table unchanged or is answered 200 with an empty body |
| EmailSettingRoutes.BodyRefusals | routes/email_settings.go:86-102 | an empty body is answered like a form without a host, an undecodable one with 400 "Invalid data." |
| EmailSettingRoutes.UpdateSucceedsIff | routes/email_settings.go:57-150 | an update succeeds exactly for an admin's PUT of a form with host, port and username whose password, if any, encrypts; a failed encryption is 500 "Failed to encrypt password." with nothing written |
| EmailSettingRoutes.UpdateRewritesRows | routes/email_settings.go:128-150 | after a successful update every row holds the host, port and username sent and, when a password was sent, its encryption; an empty password keeps each row's password |
| EmailSettingRoutes.UpdateThenList | routes/email_settings.go:16-150 | with a decryption that undoes encryption, the settings listed after a successful update of a non-empty table are the form, with the previous password when none was sent |
| EmailSettingRoutes.ListNewest | routes/email_settings.go:38-55 | the list shows the fields of the newest row, its password decrypted or the decryption error |
| EmailSettingRoutes.EmptyTableStaysEmpty | routes/email_settings.go:128-150 | on an empty table the statement matches no row: the update reports success and the settings are still not found |
| EmailSettingRoutes.Update | routes/email_settings.go:57-150 | the handler on the settings table leaves the reply and the table of `UpdateReply` |
| LoginTokenRoutes.DeviceLabel | routes/login_tokens.go:79-80 | the device is platform, ':' and browser, so it always holds a ':', even when either is unknown |
| LoginTokenRoutes.Issue | routes/login_tokens.go:83-128 | a token is printed exactly when the reply carries the inserted row's id |
| LoginTokenRoutes.EmailErrorOrder | routes/login_tokens.go:49-73 | a blank email is refused first, one that fails the address pattern next; the email passes exactly when it matches the pattern and is not a banned user's |
| LoginTokenRoutes.PostedEmail | routes/login_tokens.go:17-129 | a POST whose body decodes to an email is decided by the email checks and then by the insert |
| LoginTokenRoutes.EmailChecks | routes/login_tokens.go:49-63 | a blank email is refused with 400 "Insert your email address." before the pattern test, which refuses with 400 "Invalid email address." |
| LoginTokenRoutes.Accepted | routes/login_tokens.go:65-128 | an email that passes the checks gets a row inserted with the trimmed email, the client address, the device label and a 600-second lifetime, and its id is the reply; an insert error is the reply otherwise |
| LoginTokenRoutes.PrintedOnlyForInsert | routes/login_tokens.go:83-128 | only a request that inserted a row gets a token printed, and the reply is then that row's id |
| LoginTokenRoutes.PaddedEmailPassesBanTest | routes/login_tokens.go:65-84 | the ban test looks the email up untrimmed, so a banned user's address with a leading space passes it |
| LoginTokenRoutes.PrintedToken | routes/login_tokens.go:100-120 | the printed token is valid for exactly the 600 seconds of the login token and reads back to its claims |
| LoginTokenRoutes.LabelsDiffer | routes/login_tokens.go:79-80 | the label has the length of platform, ':' and browser; where the session gate's label is non-empty the two agree, and with an unknown part only this one is non-empty |
| SessionRoutes.Guarded | routes/user_tokens.go:43-102 | the guards never touch users or draws, and change the sessions only in a 200 reply |
| SessionRoutes.OwnershipFirst | routes/user_tokens.go:69-75 | another user's session is refused with 403 "Unauthorized action.", connected or not, and nothing is written |
| SessionRoutes.AlreadyDisconnectedRefused | routes/user_tokens.go:77-83 | the owner's disconnected session is refused with 400 "This token was already disconnected." and nothing is written |
| SessionRoutes.DisconnectSucceeds | routes/user_tokens.go:43-102 | the guards pass exactly for a connected session of the user, which is then disconnected with nothing else changed |
| SessionRoutes.OnlyPatch | routes/user_tokens.go:22-26 | another method is refused with 405 before the gate runs: nothing is written and nothing is drawn |
| SessionRoutes.GuardedIn | routes/user_tokens.go:43-102 | the guards on the session store give the reply and sessions of `Guarded` |
| SessionRoutes.Disconnect | routes/user_tokens.go:18-102 | the handler on the two stores gives the reply, tables and draws of `DisconnectOutcome` |
| UserRoutes.AuthenticateReply | routes/users.go:28-51 | a gate error is the reply; a signed-in user is sent with 200, with the token only when one was minted |
| UserRoutes.Authenticate | routes/users.go:18-51 | any method but GET is 405, with nothing written or drawn; a GET is the gate's outcome on the two stores |
| UserRoutes.TokenShownOnlyWhenMinted | routes/users.go:28-51 | a token reaches the client only from a request that inserted a session |
| UserRoutes.BanOutcome | routes/users.go:53-197 | a request either leaves the users table unchanged or is answered 200 with an empty body |
| UserRoutes.AdminBeforeLookup | routes/users.go:63-73 | who is not an authenticated admin is refused before the users table is read |
| UserRoutes.AlreadyInState | routes/users.go:99-105 | a user already in the requested state is refused with 400 and nothing is written |
| UserRoutes.BanSucceeds | routes/users.go:53-197 | the request succeeds exactly when every guard passes, and then the user is in the requested state and no other row changed |
| UserRoutes.ChangeBan | routes/users.go:53-197 | the handler on the users store gives the reply and table of `BanOutcome` |
| Mailing.HeaderLines | utils/mailer.go:59-84 | a message has five header lines |
| Mailing.FormatBody | utils/mailer.go:59-84 | appending the fields one at a time gives the header lines, each ended by a line feed, a blank line, then the trimmed body |
| Mailing.AppendField | utils/mailer.go:67-77 | a "From: " or "To: " field is the bare address without a name, else the trimmed name and the address in angle brackets, ended by a line feed |
| Mailing.Written | utils/mailer.go:59-84 | the appended pieces are the terminated header lines, a blank line and the body |
| Mailing.TerminatedSplit | utils/mailer.go:59-84 | lines free of line feeds, each ended by one, split back into themselves |
| Mailing.ReadBack | utils/mailer.go:59-84 | terminated lines, a blank line and a body split into the lines, the empty line and the body's lines |
| Mailing.FixedLinesUnbroken | utils/mailer.go:80 | the MIME-version and Content-Type lines hold no line feed |
| Mailing.HeaderReadBack | utils/mailer.go:59-84 | when no address, name or subject holds a line feed, splitting the message at its line feeds gives exactly the five header lines, the empty line, then the trimmed body's lines |
| Mailing.FieldWithoutBreak | utils/mailer.go:67-77 | an address field holds a line feed only when its address or trimmed name does |
| Mailing.BlankNameKept | utils/mailer.go:67-77 | a name of white space only counts as given: its field is the tag, then " <", the address and ">" |
| Mailing.Send | utils/mailer.go:17-57 | an invalid origin is refused first, then an invalid destination, both with 500 and nothing sent; otherwise exactly one delivery goes to host:port with plain auth for the account, from the username to the one recipient, carrying the composed message, and the call fails with "Error sending email." exactly when the server refuses it |
| Hex.Digit | utils/uuidv4.go:23-30 | a nibble is written as a lowercase hex digit |
| Hex.DigitValue | utils/jwt.go:55 | a lowercase hex digit stands for a nibble below 16 that is written as that digit |
| Hex.Encode | utils/jwt.go:55 | `%x` and `hex.EncodeToString` write two characters per byte |
| Hex.DigitRoundTrip | utils/jwt.go:55 | the digit of a nibble reads back as the nibble |
| Hex.EncodeDigits | utils/uuidv4.go:23-30 | every character of hex text is a lowercase hex digit |
| Hex.DecodeEncode | utils/jwt.go:55 | hex text decodes back to the bytes it was written from |
| Hex.EncodeInjective | utils/jwt.go:111-113 | equal hex text means equal bytes, so comparing signature texts compares the MACs |
| Hex.EncodeAt | utils/uuidv4.go:23-30 | byte k is written at positions 2k (high nibble) and 2k+1 (low nibble) |
| Uuid.VersionByte | utils/uuidv4.go:20 | `b&15 \| 64` keeps the low nibble and sets the high nibble to 4 |
| Uuid.VariantByte | utils/uuidv4.go:21 | `b&63 \| 128` keeps the low six bits and sets the top two bits to 10 |
| Uuid.Stamp | utils/uuidv4.go:20-21 | only bytes 6 and 8 change |
| Uuid.FormatShape | utils/uuidv4.go:23-30 | the text has 36 characters: lowercase hex digits in groups of 8, 4, 4, 4 and 12 separated by dashes |
| Uuid.VersionAndVariantDigits | utils/uuidv4.go:20-30 | the version digit at index 14 is '4' and the variant digit at index 19 is one of 8, 9, a, b |
| Uuid.FromRandom | utils/uuidv4.go:10-31 | the call fails exactly when the random read fails, with 500 "Failed to create random bytes." |
| Uuid.DrawFailures | utils/uuidv4.go:13-18 | every failed draw of a random source fails with the random-source error |
| Uuid.GeneratedShape | utils/uuidv4.go:10-31 | every generated identifier is a 36-character version-4 UUID text |
| Uuid.GenerateUUIDv4 | utils/uuidv4.go:10-31 | copying the bytes, setting version and variant in place and formatting gives `FromRandom` of the read |
| IdGeneration.Attempt | models/user.go:102-144 | a found identifier is not taken; at most `attempts` draws are made, and at least one |
| IdGeneration.Shift | models/user.go:120-134 | a search counted k draws later keeps its result and adds k to its count |
| IdGeneration.AttemptErrors | models/user.go:106-141 | a search fails only with "exhausted" or with the error of the draw that failed |
| IdGeneration.SearchErrors | models/user.go:106-141 | when every failed draw fails with one error, the search fails with "exhausted" or that error only |
| IdGeneration.ExhaustedMeansAllTaken | models/user.go:136-141 | the search is exhausted only after all its draws succeeded and every identifier was taken |
| IdGeneration.FirstFreeDrawWins | models/user.go:106-118 | a free first draw is used at once, after one draw |
| IdGeneration.TakenPrefix | models/user.go:120-134 | draws that all succeeded and were all taken only delay the search |
| IdGeneration.Outcome | models/user.go:120-141 | after n taken draws, draw number from+n decides the search: its error, its free identifier, or a further search |
| IdGeneration.Generate | models/user.go:102-144 | the loop (one draw, then up to 20 more while the last is taken, a failed draw aborting) returns the result and draw count of `Attempt` with 21 attempts |
| Http.Failure | utils/return_json_response.go:8-28 | an application error is written with its own status and `{"error": message}`; a bare error has no mapped status; a panic drops the reply |
| Http.PathId | routes/users.go:77-83 | the id is the last '/'-separated path segment, or the one before a trailing '/'; only the empty path fails, with a panic |
| Http.PathIdLast | routes/user_tokens.go:45-51 | for a path ending in "/id" the id is that last segment |
| Http.PathIdTrailingSlash | routes/user_tokens.go:45-51 | for a path ending in "/id/" the id is the segment before the trailing slash |
| Sql.AssignmentPlaceholder | models/email_setting.go:62-83 | a clause "`column` = ?" over a column name without '?' holds exactly one placeholder |
| Sql.AssignedColumnOf | models/email_setting.go:62-83 | the server reads back from each clause the column it was built from |
| Sql.CommaPlain | models/email_setting.go:91 | the ", " separator holds no placeholder |
| Sql.JoinedClauses | models/email_setting.go:91 | clauses of one placeholder each, joined with ", ", hold one placeholder per clause |
| Jwt.Signature | utils/jwt.go:46-55 | the hex signature has two characters per MAC byte |
| Jwt.Check | utils/jwt.go:60-121 | an accepted token has at least three segments, its window contains now (created at or before now, expiring after now), and its third segment is the signature of the first two |
| Jwt.CheckParts | utils/jwt.go:66-121 | the same on the token's '.'-separated segments |
| Jwt.CheckInto | types/user_token_payload.go:63-119 | the receiver-overwriting check accepts only a token of at least three segments, whose decoded window contains now and whose third segment is the signature of the first two |
| Jwt.CheckPartsInto | types/user_token_payload.go:66-119 | the same on the token's segments |
| Jwt.CreateSegments | utils/jwt.go:18-58 | a created token splits into the encoded header, the encoded claims and their signature, none holding a '.' |
| Jwt.SignatureHasNoDot | utils/jwt.go:55 | hex signature text holds no '.' |
| Jwt.SplitThree | utils/jwt.go:57-66 | three '.'-free segments joined with '.' split back into themselves |
| Jwt.HeaderIsFixed | utils/jwt.go:21-33 | the header segment of every created token decodes to the bytes of `{"alg":"HS256","typ":"JWT"}` |
| Jwt.RoundTrip | utils/jwt.go:18-121 | a token made by `Create` passes `Check` with its own claims while its window is open |
| Jwt.PartsRoundTrip | utils/jwt.go:66-121 | the segments of a created token pass `Check` with their claims |
| Jwt.RoundTripInto | types/user_token_payload.go:20-119 | a token made by `ToJWT` passes `FromJWT` with its claims, whatever the receiver held before |
| Jwt.PartsRoundTripInto | types/user_token_payload.go:66-119 | the same on the segments of a created token |
| Jwt.DatesBeforeSignature | utils/jwt.go:88-113 | outside its window a token fails on its dates ("Invalid token date." before "Expired token."), whatever its signature segment holds |
| Jwt.WrongSignatureRejected | utils/jwt.go:111-118 | a third segment other than the signature of the first two gives 401 "Invalid token." |
| Jwt.CheckIntoKeepsKind | types/user_token_payload.go:77 | unmarshalling into the receiver leaves a record of the receiver's type |
| Jwt.ExtraSegmentsIgnored | utils/jwt.go:66-113 | only the first three segments are read: a fourth and later ones do not change the outcome |
| Jwt.FirstThreeDecide | utils/jwt.go:66-113 | `Check` reads only the first three segments |
| Jwt.NoSecondSegment | utils/jwt.go:66-68 | a token without a '.' has no second segment and `Check` panics |
| UserTokenPayloads.UserTokenPayload.constructor | types/user_token_payload.go:14-18 | the record holds the given session id and times |
| UserTokenPayloads.UserTokenPayload.ToJWT | types/user_token_payload.go:20-61 | the token is the shared codec's token of the record's claims |
| UserTokenPayloads.UserTokenPayload.FromJWT | types/user_token_payload.go:63-119 | the record after the call and the error are those of the receiver-overwriting check on the record before it |
| UserTokenPayloads.ReceiverOverwritten | types/user_token_payload.go:77-116 | once the payload segment decodes, the record holds what was unmarshalled into it, whatever error follows |
| UserTokenPayloads.PayloadRoundTrip | types/user_token_payload.go:20-119 | a session token made by `ToJWT` is accepted by `FromJWT` in its window, leaving the record equal to its claims |
| EmailCheck.CheckEmail | utils/check_email.go:8-14 | the address is accepted exactly when its whitespace-trimmed text has the reference shape: one '@', a non-empty local part over `[\w-.]`, and a domain of at least two non-empty `[\w-]` labels separated by '.', the last of two to four characters |
| EmailCheck.PatternIffShape | utils/check_email.go:9 | the anchored regular expression matches a text exactly when the text has the reference shape |
| EmailCheck.PatternToShape | utils/check_email.go:9 | every text the regular expression matches has the reference shape |
| EmailCheck.ShapeToPattern | utils/check_email.go:9 | every text of the reference shape is matched by the regular expression |
| EmailCheck.AddressCut | utils/check_email.go:9 | a match cut at the '@' the pattern chose gives the reference shape, as the local part holds no '@' |
| EmailCheck.DomainIffLabels | utils/check_email.go:9 | the domain group `([\w-]+\.)+[\w-]{2,4}` matches exactly when the '.'-separated labels are at least two, all non-empty over `[\w-]`, the last of two to four characters |
| EmailCheck.DomainToLabels | utils/check_email.go:9 | a domain the group matches splits at '.' into at least two non-empty labels over `[\w-]`, the last of two to four characters |
| EmailCheck.LabelsToDomain | utils/check_email.go:9 | text whose '.'-separated labels are at least two, non-empty over `[\w-]`, the last of two to four characters, is matched by the domain group |
| EmailCheck.DomainCut | utils/check_email.go:9 | one repetition of the domain group followed by a matching rest gives well-formed labels |
| EmailCheck.DomainHasNoAt | utils/check_email.go:9 | a matching domain holds no '@' |
| EmailCheck.LocalHasNoAt | utils/check_email.go:9 | a local part over `[\w-.]` holds no '@' |
| EmailCheck.Accepted | utils/check_email.go:8-14 | an accepted address holds exactly one '@', the part after it holds a '.', and its last '.'-separated label has two to four characters |
| Decimal.Digits | utils/logger.go:61 | the decimal digits of a number are a non-empty digit string without a leading zero |
| Decimal.Itoa | utils/logger.go:61 | `fmt.Sprintf("%v", n)` of an integer is non-empty, holds no '.', holds a '-' exactly when n is negative, and is all digits otherwise |
| Decimal.Atoi | utils/logger.go:193 | `strconv.Atoi` succeeds only within the 64-bit range, and the empty text is a syntax error with value 0 |
| Decimal.DigitsRoundTrip | utils/logger.go:61 | the digits of a number read back as that number |
| Decimal.AtoiOfItoa | utils/logger.go:61-193 | every 64-bit integer written as a file-name prefix reads back as itself without error |
| Decimal.NegativeBody | utils/logger.go:61 | after its minus sign, the text of a negative number is the digits of its magnitude |
| Decimal.NotANumber | utils/logger.go:192-196 | a text with a non-digit after its first character is a syntax error with value 0 |
| DeviceInfo.FoldAll | utils/device_info.go:11-39 | folding a text folds each of its characters and keeps its length |
| DeviceInfo.GetDeviceInfo | utils/device_info.go:5-42 | the platform is one of the seven labels or empty and the browser one of the five labels or empty |
| DeviceInfo.AndroidOverLinux | utils/device_info.go:11-14 | a user agent holding "android" in any case is Android even when it also holds "linux" |
| DeviceInfo.IPhoneOverMac | utils/device_info.go:15-22 | without Android or Linux, "iphone" beats "Mac OS X", which iPhone user agents also carry |
| DeviceInfo.SafariIff | utils/device_info.go:27-39 | the browser is Safari exactly when "Version" and "Safari" occur and none of OPR, Edg, FxiOS, Firefox, CriOS, Chrome does |
| DeviceInfo.VersionWithoutSafari | utils/device_info.go:35-39 | "Version" without "Safari" and without an earlier browser leaves the browser empty |
| DeviceInfo.Separation | utils/device_info.go:11-39 | the platform depends only on which platform patterns occur, and the browser only on which browser patterns occur |
| DeviceInfo.FoldTwice | utils/device_info.go:11-39 | case folding is idempotent |
| DeviceInfo.CaseInsensitive | utils/device_info.go:11-39 | case-folding the user agent first changes neither platform nor browser: every test ignores case |
| LineBreaks.NoCarriageReturn | utils/format_line_breaks.go:9-22 | no carriage return survives the replacement of `\r\n\|\r` by "\n" |
| LineBreaks.Unchanged | utils/format_line_breaks.go:21 | text without a carriage return comes back unchanged |
| LineBreaks.Idempotent | utils/format_line_breaks.go:21 | formatting twice is formatting once |
| LineBreaks.Length | utils/format_line_breaks.go:12-21 | the leftmost-first alternation shrinks each "\r\n" pair to one character and keeps every other character |
| LineBreaks.AsTwoReplacements | utils/format_line_breaks.go:12-21 | the result equals replacing every "\r\n" by "\n" and then every remaining "\r" by "\n" |
| LineBreaks.ReplaceCrCons | utils/format_line_breaks.go:21 | replacing lone carriage returns works one character at a time |
| Template.Placeholder | utils/template.go:10 | the placeholder of a key is the key in braces |
| Template.UseTemplate | utils/template.go:5-14 | the loop over the map, in a given iteration order, returns the content with each key's placeholder replaced in that order |
| Template.EmptyMap | utils/template.go:9-13 | with no variables the content comes back unchanged |
| Template.SingleKey | utils/template.go:9-13 | with one variable the result is `strings.ReplaceAll` of its placeholder by its value |
| Template.DistinctCount | utils/template.go:9 | an iteration order visiting each key once has as many entries as the map has keys |
| Template.NoPlaceholders | utils/template.go:9-13 | content holding no placeholder of any key comes back unchanged, whatever the iteration order |
| Logging.Error | utils/logger.go:68-82 | every failure of the logger is reported as a 500 application error: "Failed to generate log file name." and "Failed to create log file." here, and "Failed to open log file." and "Failed to save log." at utils/logger.go:240-263 |
| Logging.ErrorsDistinct | utils/logger.go:53-267 | each failure has its own message, so the error names the step that failed |
| Logging.Indent | utils/logger.go:38 | the run of spaces a text starts with, all of it |
| Logging.Collapse | utils/logger.go:38-47 | replacing `\n +` by one space never lengthens the text, keeps it empty exactly when it was, and starts it with a space only where the input did or a match was |
| Logging.CollapseKeepsChars | utils/logger.go:47 | every character of the result is a space or a character of the input |
| Logging.CollapseUnchanged | utils/logger.go:47 | text in which `\n +` does not occur is left as it is |
| Logging.CollapseLeftmost | utils/logger.go:38-47 | at the leftmost match the text before it is kept, the break and all the spaces after it become one space, and the replacement goes on after them |
| Logging.CollapseFolds | utils/logger.go:47 | a match at the start becomes one space |
| Logging.CollapseCopies | utils/logger.go:47 | a first character that starts no match is kept |
| Logging.CollapseFlush | utils/logger.go:38-47 | no line of the result starts with a space, unless the input held a blank line followed by an indented one |
| Logging.BlankLineKept | utils/logger.go:38-47 | of a blank line followed by an indented line only the second break is folded |
| Logging.FormatMessageParts | utils/logger.go:23-51 | a message with something to show follows the bracketed time and the prefix, without trailing white space; a blank message leaves the opening alone, without its trailing spaces |
| Logging.LineShape | utils/logger.go:23-51 | every formatted line starts with the bracketed time, ends with one line break and has no white space before it |
| Logging.TextLineShape | utils/logger.go:26-48 | trimming the opening and any text keeps the bracketed time and leaves a non-space character last |
| Logging.OpenedLine | utils/logger.go:48 | any head opening with the bracketed time gives a well-formed line, whatever text follows |
| Logging.ClosedLine | utils/logger.go:48 | a trimmed text that opens with the bracketed time, closed by a line break, is a well-formed line |
| Logging.NoCarriageReturnInText | utils/logger.go:32-47 | the message part of a line holds no carriage return |
| Logging.KeptOpening | utils/logger.go:48 | trimming keeps a head whose first and last characters are not spaces |
| Logging.PlainMessage | utils/logger.go:23-51 | a one-line message without surrounding white space is written as it is, after the time and the prefix |
| Logging.DrawName | utils/logger.go:61 | a drawn name is the Unix time, '-', the digest and '-', then the logger's file name |
| Logging.Probe | utils/logger.go:60-66 | the first draw whose name is free, every draw before it taken; the limit when none is free |
| Logging.FirstFree | utils/logger.go:60-66 | the loop stops at the first free name it draws |
| Logging.CreateOutcome | utils/logger.go:53-87 | `createFile` draws at least one and at most 20 names |
| Logging.NoFreeNameWhenTaken | utils/logger.go:68-73 | "Failed to generate log file name." exactly when all 20 names drawn are taken |
| Logging.CreateFailures | utils/logger.go:68-82 | a failure is either the name failure or, for a free name, a failed create |
| Logging.CreatedFirstFree | utils/logger.go:53-87 | the file made is the first free name drawn, every earlier name was taken, and its create succeeded |
| Logging.CreateFile | utils/logger.go:53-87 | the loop of at most 20 draws and the create give `CreateOutcome` |
| Logging.DrawnNameIsOwn | utils/logger.go:149-153 | a name drawn at line 61 is recognised as the logger's own exactly when the file name has no '-' |
| Logging.Newest | utils/logger.go:144-182 | the chosen file is live, no live file is newer and every earlier live file is older; there is none exactly when no file is live |
| Logging.Removed | utils/logger.go:163-169 | exactly the logger's own files modified 30 days ago or earlier are removed |
| Logging.ChosenStep | utils/logger.go:171-181 | one more entry of the listing replaces the newest file only when it is strictly newer |
| Logging.RemovedStep | utils/logger.go:165-168 | one more entry of the listing is removed exactly when it is the logger's own and expired |
| Logging.Visit | utils/logger.go:145-181 | one pass of the loop skips, removes, or takes the file as the newest live one |
| Logging.Scan | utils/logger.go:142-182 | the loop leaves the newest live file chosen and the expired files removed |
| Logging.Made | utils/logger.go:53-87 | a `createFile` outcome made one file exactly when it has a name |
| Logging.CheckRollover | utils/logger.go:187-213 | the day check on the chosen file gives the outcome `Rollover` states |
| Logging.CurrentFile | utils/logger.go:89-223 | `getCurrentFilePath` after the folder checks: the scan, then the day check or a new file |
| Logging.CurrentIsChosenOrCreated | utils/logger.go:184-222 | the file written to is the chosen one when nothing was created, else the last file created; at most two are created |
| Logging.RenewedShape | utils/logger.go:214-220 | a renewal writes to the file it created |
| Logging.RolloverShape | utils/logger.go:187-213 | the day check keeps the chosen file or writes to the last file it created |
| Logging.CreateTwiceShape | utils/logger.go:195-212 | a parse failure followed by a day change writes to the second file created |
| Logging.NoLiveFileCreates | utils/logger.go:214-220 | with no live file of its own in the folder the logger creates one |
| Logging.DashedFileName | utils/logger.go:149-153 | a file name with a '-' never matches a name's last part, so every call creates a new file |
| Logging.DrawnNameHead | utils/logger.go:190-193 | the head of a name drawn at line 61 is the decimal Unix time it was drawn at |
| Logging.SameDayKept | utils/logger.go:187-213 | a file the logger drew today and still its newest is written to again |
| Logging.NewDayRenews | utils/logger.go:203-212 | the same file on a later day is replaced by a new one |
| Logging.UnparsedHeadCreatesTwice | utils/logger.go:193-212 | a head that is not a number creates a file at once, and a second one when the value `Atoi` reported falls on another day |
| Logging.SaveOutcome | utils/logger.go:225-267 | a line is written exactly when there is no error, to the chosen file, and is the formatted message; each error is that of the step that failed |
| Logging.Save | utils/logger.go:225-267 | the steps of `Save` give `SaveOutcome` |

## Left out

- Database access errors (failed `Prepare`, `Exec`, `Scan` or connection) are not modelled. Each table is a reliable in-memory value, so the "Failed to …" and "Error …ing …" replies of the stores never occur.
- Concurrency is not modelled: the lookup-then-insert races of user and session creation, and parallel requests. Every store is sequential.
- Cryptography and encodings are parameters, not implementations:
  - bcrypt hashing and comparison;
  - the settings cipher (`Encrypt`/`Decrypt`);
  - HMAC-SHA256, base64url, `json.Marshal`/`Unmarshal`;
  - MD5 in log file names;
  - `crypto/rand`.

  Each has only the laws the code relies on, such as decoding undoing encoding.
- The signature comparison in utils/jwt.go is not constant-time. Timing is outside a functional model.
- `json.Marshal` of the claims cannot fail for these records, so `Jwt.Create` has no error path. Its properties are stated by `Jwt.CreateSegments` and `Jwt.RoundTrip`.
- `LoginToken.Create`, `LoginToken.FindById` and `AdminTokenPayload.FromJWT` are not part of this model. They are parameters of the routes and gates that call them: an insert function, a login-token lookup, and a reader of the admin id.
- Login-token approval or denial and the rate limits are not part of this model. The repository has no code for them, only comments at routes/login_tokens.go:75-76.
- models/admin.go returns bare Go `error` values where the routes expect `*types.AppError`. They are the `Plain` error and the `Unmapped` reply. The route revision of `Create` takes the creator's id, and that revision is the one modelled.
- AdminRoutes.AdminLogin: routes/admins.go:62-100 expects `Authenticate` to return the admin's record, but models/admin.go:247-295 returns only the id. The record in the reply is therefore the authenticated admin's row as `FindById` reads it, without the creator.
- Admins.UpdateOutcome: bcrypt's salt is not drawn. `generate` is a function of the password, and the effect of the salt is stated outright: a new hash always differs from the stored one, so an update that carries a password always affects the row.
- The column defaults of the `users` and `user_tokens` tables are assumed, because the schema is not part of this model. The inserts in models/user.go:282 and models/user_token.go:241 leave some columns to the table:
  - a new user is not banned and was created at the time of the insert (`Users.CreateOutcome`);
  - a new session is not disconnected, and its last activity and creation are the time of the insert (`Sessions.NewRow`).

  `UserGateFacts.UserForEmailOutcome`, `UserGateFacts.FreshSessionDecides` and `UserGateFacts.FreshSessionProceeds` rest on these defaults.
- Session renewal (`UserGate.Current`, `UserGate.Renew`) is modelled and proved, but with the model's single clock `now` it cannot be reached through `UserGate.Authenticate`:
  - on the Bearer path, the token and its row share one expiry, and the token's own expiry test at types/user_token_payload.go:93 runs first (`UserGateFacts.BearerRenewalUnreachable`);
  - on the hand-off path, the row was just inserted and has not expired.

  In the deployed system, a row can expire before its token only through a skew between the database's `NOW()` or time zone (models/user_token.go:241) and the server's clock. The model has no such skew. `UserGateFacts.BearerRenewalLosesUser` and `UserGateFacts.DisconnectedSessionRenewed` are stated about `UserGate.Proceed` on such a row.
- Lookups by email and username compare strings exactly. The table collation is assumed case-sensitive and without trailing-space padding, because the schema is not part of this model.
- The claims are one record whose subject is an admin id, a session id or a login-token id. The repository's type mismatches between revisions (`JWT.Create` typed for admin claims but called with login claims; login-token ids as `int64` or `string`) are not reproduced.
- Date parsing with `time.ParseInLocation` is a stored value that is either a time or unparseable. The calendar date of a time (`time.Unix(…).Date()`) is the `dateOf` parameter of the logger.
- The logger's folder handling is not modelled: `os.Stat`, `MkdirAll` and `ReadDir` with their "log folder" errors. The model starts from the listing the scan reads.
  - Removing a file is recorded, but removal errors are ignored, as the code ignores them.
  - `filepath.Join` is not modelled: the name stands for the path.
  - The clock of each name drawn, its digest, and the time text of the line are parameters.
  - The listing does not change while one call runs.
- Logging.Collapse: the regular expression `\n +` is written out as its left-to-right replacement. The compile errors of this expression and of `\r\n|\r` cannot occur for these fixed patterns, so those error returns are left out.
- Decimal.Atoi: the value reported with a range error follows `strconv.Atoi`, clamped to the 64-bit range. The exact value for text that overflows before a later non-digit is not distinguished: such text is a syntax error with value 0.
- The test `newFileName == ""` in `createFile` can never fire, because at least one name is always drawn. It is absorbed into the exhausted-search case.
- `fmt.Println` of the login token is the `printed` field of the route's outcome. No other console output is modelled.
- Go's map iteration order in `UseTemplate` and the settings `Update` is a parameter (`order`/`keys`). The lemmas show where the result does not depend on it.
- Mailing.FormatBody: the message is kept as characters. The conversion to UTF-8 bytes (`[]byte(…)`) is left out.
- Mailing.Send: the SMTP exchange is the `deliver` parameter, true when the server accepts the message.
- HTTP routing, request decoding and response writing are abstract. A request body is `Eof`, `Invalid`, `Null` or a decoded object. A reply is a status with a body, an unmapped Go error, or dropped.
- `DeviceInfo` is the user-agent classification as written in utils/device_info.go. No real user-agent parser is modelled.
