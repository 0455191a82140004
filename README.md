# fileHandler, modelled in Dafny

fileHandler is a small file-sharing web application. Its Express backend signs
users in with JSON Web Tokens, keeps files in a Supabase storage bucket with a
`files` table beside it, lets owners share files with other users, gives
admins a management panel, and pushes events to browsers over a WebSocket.
Its browser pages check passwords, walk the user through a three-step
password reset, translate the interface between Thai and English, and retry
API calls once after refreshing the session.

This project models the rule systems in that code: who may do what, which
state every handler leaves behind, and what the pages decide before anything
is sent. The Supabase tables are maps; JWT signing and bcrypt hashing are
abstract functions; clocks, `Math.random`, the network and the socket
transport are parameters.

One Dafny module stands for each source file of the core:

- `AuthMemory` is `backend/src/controllers/authController.js`. It is the
  controller backend. Its refresh-token ledger and its OTP store are two
  in-memory maps, held by the class `AuthController`.
- `Server` is `backend/src/server.js`. It is the single-file backend. It uses
  its own schema: `is_active`, a failed-login counter, `locked_until`, and
  the `refresh_tokens` and `otp_codes` tables. The class `ServerState` holds
  these. The two backends disagree in several places, so they are kept
  apart.
- `Ws` is `backend/src/ws.js`. The class `Gateway` holds the client registry,
  the liveness flags and the heartbeat.
- `UserFiles`, `Admin` and `Legacy` are the three file controllers.
- `Middleware` is `backend/src/middleware/auth.js`.
- `LoginPage` is `frontend/src/script.js`.
- `I18n` is `frontend/src/i18n.js`.
- `UserPage` and `AdminPage` are the two page scripts.

Seven modules support the others:

- `Pages` holds what the two page scripts share: `fileIcon`, the byte branch
  of `fmtSize`, the browser storage, and the requests `apiFetch` makes.
- `Crypto` is the abstract token issuer and password hash. A token records
  the secret that signed it, its claims and its expiry second. `Verify`
  accepts it only under that secret, and only before that second.
- `Store` holds the controller backends' tables, the exactly-one-row
  semantics of `.single()` and `.maybeSingle()`, and the `order('id')`
  listing.
- `EmailFormat` holds the e-mail regex `^[^\s@]+@[^\s@]+\.[^\s@]+$` and the
  mask `(.{2}).+(@.+)` → `$1***$2`.
- `Mime` holds `getMimeFromFilename`.
- `Text` and `Wrappers` hold string helpers and `Option`/`Result`.

A few source functions exist in more than one copy, and each is modelled
once:

- `adminController.js` carries `getStoragePath` and `getMimeFromFilename`
  with the same text as `userFileController.js`, so `Admin` uses
  `UserFiles.StoragePath` and `Mime.MimeFromFilename`.
- The legacy routes at the end of `server.js` (lines 615-719) are the same
  code as `legacyController.js`, and `Legacy` models both.
- `fileIcon` and the byte branch of `fmtSize` are the same in both page
  scripts.

Some behaviours of the code are easy to miss, and the model keeps them as
written:

- An OTP is `100000 + ⌊random·900000⌋`, so it has six digits and never
  starts with 0 (`AuthMemory.OtpCode`).
- Once the failed-login counter of `server.js` is at 5 or more, every
  further wrong password sets `locked_until` again, 15 minutes from that
  attempt (`Server.ReLockAfterExpiry`).
- The refresh handler of `server.js` deletes the presented token's row
  before it inserts the new one, and does not check the insert, so a failed
  insert leaves the user with no stored refresh token
  (`Server.ServerState.Refresh` with `insertFails`).
- Reset tokens are signed with the access-token secret. They therefore also
  open a WebSocket (`Ws.ResetTokenAdmitted`). The middleware refuses them
  only because they carry no user id (`Middleware.ResetTokenRefused`).

The login page stores the session in `sessionStorage`. The admin page reads
`sessionStorage`, but the user page reads `localStorage`. Each page is
modelled with the storage it uses, and `Pages.Storage` stands for either.

## Model

| member | source | states |
|---|---|---|
| Crypto.Sign | backend/src/config/jwt.js:11-14 | a signed token keeps the secret and the claims, and expires `ttl` seconds after the whole second of signing |
| Crypto.VerifySigned | backend/src/config/jwt.js:7-8 | a token verifies, with its own claims, under its own secret for at least `ttl - 1` seconds after signing |
| Crypto.VerifyExpired | backend/src/config/jwt.js:7-8 | from `ttl` seconds after signing on, a token never verifies |
| Crypto.VerifyOtherSecret | backend/src/config/jwt.js:4-5 | a token never verifies under the other secret, so an access token is no refresh token and the reverse |
| Crypto.VerifyUnsigned | backend/src/middleware/auth.js:16 | text the server never signed never verifies |
| Crypto.CompareHash | backend/src/controllers/authController.js:67 | `bcrypt.compare` accepts exactly the password that was hashed |
| Store.TheOne | backend/src/controllers/authController.js:57 | `.single()`/`.maybeSingle()` give a row exactly when one row matches, and that row is the match |
| Store.LookupByName | backend/src/controllers/authController.js:24 | with unique usernames, a lookup finds a row iff the name is taken, and it finds that account |
| Store.LookupByEmail | backend/src/controllers/authController.js:28 | with unique e-mails, a lookup finds a row iff the address is taken, and it finds that account |
| Store.Descending | backend/src/controllers/adminController.js:50 | `order('id', descending)` lists every id of the set once, in strictly descending order, and nothing else |
| Store.Database.SoftDeleteFile | backend/src/controllers/adminController.js:124-131 | the row with the id gets status 'deleted' and nothing else changes; the call reports whether a row had the id |
| AuthMemory.RegisterOutcome | backend/src/controllers/authController.js:16-29 | register answers 400 iff a field is missing, the username 409 iff the name is taken (checked before the e-mail), the e-mail 409 iff only the address is taken, and succeeds iff all checks pass |
| AuthMemory.Register | backend/src/controllers/authController.js:13-43 | on success exactly one account is added: active, role 'user', with a cost-12 hash; on failure the table is unchanged |
| AuthMemory.LoginCheck | backend/src/controllers/authController.js:48-69 | 400 iff a field is missing; 403 iff the name selects one account and it is disabled; every other refusal is 401 "Invalid username or password", an unknown name included; success only for that account, not disabled, whose hash matches |
| AuthMemory.LoginSucceeds | backend/src/controllers/authController.js:59-69 | every enabled account logs in with its own password; no failure counter exists to stop it |
| AuthMemory.RefreshCheck | backend/src/controllers/authController.js:98-122 | a refresh succeeds iff the token verifies under the refresh secret, the ledger holds it unexpired, and its user exists and is not disabled; every refusal is 401 |
| AuthMemory.Rotate | backend/src/controllers/authController.js:124-129 | after rotation the presented token is gone, the new one is present with its entry, and no other entry changes |
| AuthMemory.RotatedTokenRefused | backend/src/controllers/authController.js:124-129 | a rotated-out refresh token is refused afterwards |
| AuthMemory.SameSecondRefreshReissues | backend/src/controllers/authController.js:72-77 | a refresh in the same second as the login re-issues the very same refresh token, so rotation then leaves it valid |
| AuthMemory.LedgerOwnerIgnored | backend/src/controllers/authController.js:111-113 | the owner stored in the ledger plays no part in the refresh decision |
| AuthMemory.LedgerValidAtExpiry | backend/src/controllers/authController.js:111-113 | a ledger entry still works at the very millisecond it expires |
| AuthMemory.OtpCode | backend/src/controllers/authController.js:163 | the code is six decimal digits spelling 100000 + draw |
| AuthMemory.OtpCheck | backend/src/controllers/authController.js:173-179 | a code verifies iff email and code are given and a stored, unexpired entry holds that code; "Incorrect OTP" only for an unexpired entry with another code; every refusal is 400 |
| AuthMemory.OtpLifecycle | backend/src/controllers/authController.js:163-183 | a code just issued verifies within ten minutes, and once consumed it never verifies again |
| AuthMemory.ResetCheck | backend/src/controllers/authController.js:190-199 | a reset proceeds iff a token and a password are given and the token verifies under the access secret; the target is the token's e-mail, or "undefined" |
| AuthMemory.WithPassword | backend/src/controllers/authController.js:202-203 | exactly the accounts with that e-mail get the new hash; every other account is unchanged |
| AuthMemory.AccessTokenResetsNothing | backend/src/controllers/authController.js:190-203 | an ordinary access token passes the reset check but matches no account, so nothing changes |
| AuthMemory.ResetThenLogin | backend/src/controllers/authController.js:188-207 | after a reset an enabled account logs in with the new password |
| AuthMemory.AuthController.constructor | backend/src/controllers/authController.js:7-8 | the ledger and the code store start empty |
| AuthMemory.AuthController.Login | backend/src/controllers/authController.js:46-93 | a refused login changes nothing; a successful one issues the pair and adds exactly one ledger entry for the new refresh token, expiring in 7 days |
| AuthMemory.AuthController.Refresh | backend/src/controllers/authController.js:96-139 | a refused refresh changes nothing; a successful one issues a new pair and rotates the ledger |
| AuthMemory.AuthController.Logout | backend/src/controllers/authController.js:142-150 | logout always succeeds and removes only the given token, if any |
| AuthMemory.AuthController.CheckUsername | backend/src/controllers/authController.js:154-168 | no e-mail gives 400 and an unknown one 404, both storing nothing; otherwise the e-mail's code is overwritten with a fresh one valid 10 minutes, and the masked address is answered |
| AuthMemory.AuthController.VerifyOtp | backend/src/controllers/authController.js:171-185 | a matching code is consumed and exchanged for a 10-minute reset token; any refusal keeps the store |
| AuthMemory.AuthController.ResetPassword | backend/src/controllers/authController.js:188-207 | a refused reset changes no account; a successful one sets the new cost-12 hash on the token's e-mail |
| EmailFormat.ValidEmailOfParts | backend/src/controllers/authController.js:20-21 | every `local@domain.tld` with non-empty parts free of blanks and `@` passes the e-mail regex |
| EmailFormat.ValidEmailShape | backend/src/controllers/authController.js:20-21 | an address that passes has exactly one `@`, not first and at least four from the end, and no white space |
| EmailFormat.RunEnd | backend/src/server.js:255 | how far `.+` reaches: the run of non-line-terminators from a position |
| EmailFormat.LastAtIn | backend/src/server.js:255 | the last `@` in a range, as the backtracking `(@.+)` picks it |
| EmailFormat.MaskFromNoMatch | backend/src/server.js:255 | where no `@` lies far enough on, the mask leaves the text unchanged |
| EmailFormat.MaskValidEmail | backend/src/server.js:255 | for a valid e-mail, a local part of 3 or more characters is masked as first two + `***` + `@domain`; a shorter one is kept as is |
| Mime.MimeFromFilename | backend/src/controllers/userFileController.js:12-36 | an empty name gives octet-stream |
| Mime.MimeIsListed | backend/src/controllers/userFileController.js:12-36 | every answer is octet-stream or a type of the table |
| Mime.MimeOfExtension | backend/src/controllers/userFileController.js:12-36 | `stem.ext` gets the table type of the lower-cased extension, else octet-stream, whatever dots the stem holds |
| Mime.MimeIgnoresCase | backend/src/controllers/userFileController.js:14 | the type depends on the name only up to letter case |
| Mime.AfterLastUnderLower | backend/src/controllers/userFileController.js:14 | the text after the last dot of the lower-cased name is the lower-cased text after the last dot |
| Mime.LastDotUnderLower | backend/src/controllers/userFileController.js:14 | lower-casing keeps the last dot where it was |
| UserFiles.StoragePath | backend/src/controllers/userFileController.js:5-9 | null iff the marker is absent; otherwise the text after the first occurrence of the marker |
| UserFiles.StoragePathOfUrl | backend/src/controllers/userFileController.js:131 | the URL built at upload gives back its storage key, for any key |
| UserFiles.ReadCheck | backend/src/controllers/userFileController.js:177-191 | 404 iff the file is missing or not active; 403 iff it is active but the caller is not owner, admin or share recipient; for a readable file, success iff the URL holds a non-empty storage path, which it returns, and 500 otherwise |
| UserFiles.DeleteRightImpliesReadRight | backend/src/controllers/userFileController.js:250-257 | whoever may delete a file may read it |
| UserFiles.ShareReadsButCannotDelete | backend/src/controllers/userFileController.js:184-188 | a share lets a non-admin read a file but not delete it |
| UserFiles.DeleteFile | backend/src/controllers/userFileController.js:241-262 | 404 for a missing or inactive file and 403 for anyone but owner or admin, both changing nothing; otherwise the file is marked deleted and `file_deleted` goes to everyone |
| UserFiles.GetShares | backend/src/controllers/userFileController.js:265-284 | refused with 403 iff the caller does not own the file (admins too); otherwise exactly the usernames of the file's share rows |
| UserFiles.NotFound | backend/src/controllers/userFileController.js:303-313 | exactly the requested names no user has, each drawn from the request |
| UserFiles.NotFoundOne | backend/src/controllers/userFileController.js:303 | a single requested name is reported iff no user has it |
| UserFiles.NotFoundConcat | backend/src/controllers/userFileController.js:303 | the filter distributes over concatenation of the request, so the reported names keep request order |
| UserFiles.NotFoundCounts | backend/src/controllers/userFileController.js:303 | a missing name is reported as many times as it was requested, a found one never |
| UserFiles.WithShares | backend/src/controllers/userFileController.js:303-313 | the upsert adds one row per found user, keyed by (file, user) and owned by the caller, and keeps every other row |
| UserFiles.ShareTwice | backend/src/controllers/userFileController.js:303-313 | sharing with the same users again adds nothing |
| UserFiles.ShareFile | backend/src/controllers/userFileController.js:287-320 | a non-owner gets 403 and nothing changes; the owner's shares become the upsert over the found users |
| UserFiles.UnshareFile | backend/src/controllers/userFileController.js:323-347 | 400 without a name, 403 for a non-owner, 404 for an unknown name, all changing nothing; when the name is given, the caller owns the file and the user is found, it always succeeds and exactly that user's share row goes |
| UserFiles.OwnEntries | backend/src/controllers/userFileController.js:46-51 | one entry per own active file, newest id first, marked as the caller's, carrying that file's name, size and URL |
| UserFiles.SharedEntries | backend/src/controllers/userFileController.js:60-83 | one entry per active file shared with the caller, not theirs, named after the owner of the share row or '?', carrying that file's name, size and URL |
| UserFiles.EntriesComplete | backend/src/controllers/userFileController.js:85-97 | every own active file and every active file shared with the caller appears in the listing |
| UserFiles.GetFiles | backend/src/controllers/userFileController.js:39-104 | the listing is the caller's own entries followed by the shared ones |
| UserFiles.ListedFilesReadable | backend/src/controllers/userFileController.js:85-97 | every listed file is active and passes the read check for the caller |
| UserFiles.UploadFile | backend/src/controllers/userFileController.js:107-164 | 400 without a file; otherwise one active row under `user/timestamp+ext`, and `file_uploaded` goes to admins and the uploader |
| UserFiles.UploadNoticeAudience | backend/src/controllers/userFileController.js:158-159 | a socket receives the upload notice iff its token is an admin's or the uploader's |
| Admin.OwnerName | backend/src/controllers/adminController.js:61 | 'anonymous' iff the file has no owner row; never empty |
| Admin.Listings | backend/src/controllers/adminController.js:54-62 | one listing row per id, in the given order |
| Admin.GetFiles | backend/src/controllers/adminController.js:44-68 | one row for each active file and only active files, each carrying that file's name, size, URL and owner name |
| Admin.GetFilesNewestFirst | backend/src/controllers/adminController.js:50 | the admin listing is in strictly descending id order |
| Admin.GetFilesComplete | backend/src/controllers/adminController.js:49-62 | every active file is listed, with its owner's name |
| Admin.ReadCheck | backend/src/controllers/adminController.js:79-82 | 404 iff no row has the id; otherwise succeeds iff the URL holds a non-empty storage path, which it returns |
| Admin.AdminStillReadsDeletedFile | backend/src/controllers/adminController.js:71-94 | a deleted file is refused to users but still served to admins, as if it were active |
| Admin.View | backend/src/controllers/adminController.js:148-153 | a view keeps the id and name, repeats the name as full name, is active iff the status is not 'disabled', and is never locked |
| Admin.Views | backend/src/controllers/adminController.js:148-153 | one view per id, in order |
| Admin.GetUsers | backend/src/controllers/adminController.js:139-159 | every account appears exactly once, as its view |
| Admin.Toggled | backend/src/controllers/adminController.js:166-167 | 'disabled' becomes 'active' and any other status 'disabled' |
| Admin.ToggleTwice | backend/src/controllers/adminController.js:166-167 | toggling twice restores an active or disabled account |
| Admin.ToggleTwiceOther | backend/src/controllers/adminController.js:166-167 | any other status ends at 'active' after two toggles |
| Admin.ToggleUser | backend/src/controllers/adminController.js:162-175 | 404 for a missing user, changing nothing; otherwise only that account's status flips |
| Admin.UnlockUser | backend/src/controllers/adminController.js:178-186 | always succeeds; sets 'active' on the account if it exists, re-enabling a disabled one |
| Admin.DeleteFile | backend/src/controllers/adminController.js:122-136 | succeeds iff a row has the id, whatever its status, and marks it deleted; 404 changes nothing |
| Admin.WithoutFilesOf | backend/src/controllers/adminController.js:192 | exactly the user's files are removed; every other file is kept unchanged |
| Admin.DeleteUser | backend/src/controllers/adminController.js:189-201 | the user's files are hard-deleted first; if that fails nothing changes, and the account goes only when both deletes succeed |
| Admin.DeleteUserLeavesNoFiles | backend/src/controllers/adminController.js:192-196 | after the delete no file of the user is left and every other file is untouched |
| Legacy.LeadingDigits | backend/src/controllers/legacyController.js:57 | the longest prefix of decimal digits, as `parseInt` reads it |
| Legacy.LeadingHex | backend/src/controllers/legacyController.js:57 | the longest prefix of hexadecimal digits, as `parseInt` reads it after `0x` |
| Legacy.Magnitude | backend/src/controllers/legacyController.js:57 | without a `0x` prefix, nothing is read iff the text is empty or starts with a non-digit |
| Legacy.LeadingDigitsOfDigits | backend/src/controllers/legacyController.js:57 | digits followed by a non-digit are read exactly |
| Legacy.ParseIntOfDecimal | backend/src/controllers/legacyController.js:57 | the decimal text of n, with any tail that starts with neither digit nor `x`, parses as n |
| Legacy.MagnitudeOfDecimal | backend/src/controllers/legacyController.js:57 | the digits of n read back as n |
| Legacy.ParseIntOfNegative | backend/src/controllers/legacyController.js:57 | a minus sign negates the number read |
| Legacy.ParseIntNaN | backend/src/controllers/legacyController.js:57-58 | text starting with no decimal digit, sign or blank is NaN |
| Legacy.ListFilter | backend/src/controllers/legacyController.js:53-65 | no or empty `user_id` means all files, 'anonymous' the ownerless ones, a NaN a 400, and anything else the owner `parseInt` reads |
| Legacy.ListFiles | backend/src/controllers/legacyController.js:51-73 | 400 "Invalid user_id" iff the filter is NaN; otherwise exactly the active files the filter keeps |
| Legacy.DeletedNeverListed | backend/src/controllers/legacyController.js:54 | a deleted file is never listed, whatever the filter |
| Legacy.ListByDecimalId | backend/src/controllers/legacyController.js:56-59 | the decimal text of an id filters on exactly that owner |
| Legacy.UploadOwner | backend/src/controllers/legacyController.js:20 | no or empty `user_id` means no owner; otherwise `parseInt` of it, NaN stored as null |
| Legacy.UploadPath | backend/src/controllers/legacyController.js:21-22 | the path starts with `anonymous/` without `user_id`, and with the given text and `/` otherwise |
| Legacy.LegacyUpload | backend/src/controllers/legacyController.js:15-47 | 400 without a file; a failed insert (a negative owner included) changes nothing; otherwise exactly one active row with the parsed owner and the public URL of the path |
| Legacy.AnonymousUploadListed | backend/src/controllers/legacyController.js:20-21 | an upload without `user_id` is ownerless and listed under 'anonymous' |
| Legacy.FileUrl | backend/src/controllers/legacyController.js:76-89 | the stored URL of any row with the id, deleted or not; 404 iff none |
| Legacy.DeleteFile | backend/src/controllers/legacyController.js:92-106 | succeeds iff a row has the id and marks it deleted; 404 changes nothing |
| Legacy.DeleteThenLookup | backend/src/controllers/legacyController.js:92-122 | after a delete the file drops out of every listing but its URL is still served |
| Middleware.RequireAuth | backend/src/middleware/auth.js:7-33 | "Authentication required" iff the header is absent or lacks `Bearer `; success iff the rest verifies, names an existing, not disabled user, which becomes `req.user`; every refusal is 401 |
| Middleware.RequireAdmin | backend/src/middleware/auth.js:37-41 | passes iff the user's role is 'admin', else 403 |
| Middleware.BearerToken | backend/src/middleware/auth.js:11-16 | the token is what follows the seven characters `Bearer `, and a valid one admits its user |
| Middleware.ResetTokenRefused | backend/src/middleware/auth.js:16-26 | a reset token verifies but names no user, so it gets the uniform 401 |
| Ws.TokenParam | backend/src/ws.js:23-27 | a captured token is non-empty and holds no `&` |
| Ws.AmpEnd | backend/src/ws.js:24 | `([^&]+)` captures up to the next `&` or the end |
| Ws.TokenParamSkip | backend/src/ws.js:24 | characters that cannot start `[?&]token=` do not change the match |
| Ws.TokenParamOfUrl | backend/src/ws.js:23-27 | `path?token=t` followed by nothing or `&…` yields exactly `t` |
| Ws.Admission | backend/src/ws.js:30-47 | admitted iff a token was captured and verifies under the access secret; the record holds the socket, `String(id)` and the role; a refusal closes with 4001 |
| Ws.ResetTokenAdmitted | backend/src/ws.js:40-46 | a reset token opens a socket, with user id "undefined" and no role |
| Ws.RefreshTokenRejected | backend/src/ws.js:40-44 | a refresh token never opens a socket |
| Ws.Sockets | backend/src/ws.js:59-66 | the sockets of the records, in registry order |
| Ws.TickPartition | backend/src/ws.js:58-68 | a tick keeps exactly the clients flagged alive and terminates exactly the others |
| Ws.Unmark | backend/src/ws.js:65 | every kept client is flagged not alive; other flags are unchanged |
| Ws.SecondTickSweeps | backend/src/ws.js:58-68 | when no client answers between two ticks, the second tick leaves no client |
| Ws.SilentClientSwept | backend/src/ws.js:58-68 | a client whose flag nothing sets between two ticks is gone after the second, whatever the other clients answer |
| Ws.NoneAliveSurvive | backend/src/ws.js:60-63 | when no client is alive, a tick removes all of them |
| Ws.PongKeeps | backend/src/ws.js:53-68 | a client that answers between two ticks survives the second |
| Ws.BroadcastEffect | backend/src/ws.js:79-86 | exactly the open, accepted clients whose send does not throw receive the message, and only a throwing send removes its client |
| Ws.DeliveredReaches | backend/src/ws.js:81-83 | every targeted client whose send does not throw receives the message |
| Ws.DeliveredFrom | backend/src/ws.js:81-83 | every socket that receives it is targeted and its send did not throw |
| Ws.KeptEffect | backend/src/ws.js:83 | a client leaves the registry iff it was targeted and its send threw |
| Ws.BroadcastToAll | backend/src/ws.js:79 | the default filter with open sockets reaches everyone and drops nobody |
| Ws.SameSocketSameClient | backend/src/ws.js:46-47 | with distinct sockets a socket has one record |
| Ws.WithoutEffect | backend/src/ws.js:51-52 | deleting removes exactly the socket's record |
| Ws.WithoutTwice | backend/src/ws.js:51-52 | closing twice is closing once |
| Ws.Gateway.constructor | backend/src/ws.js:11-18 | an empty registry with the heartbeat running |
| Ws.Gateway.Connect | backend/src/ws.js:30-55 | an admitted socket is appended once, flagged alive; a refused one leaves the registry alone |
| Ws.Gateway.Disconnect | backend/src/ws.js:51-52 | the socket's record is removed and nothing else |
| Ws.Gateway.Pong | backend/src/ws.js:53 | the socket is flagged alive |
| Ws.Gateway.Tick | backend/src/ws.js:58-68 | dead clients are terminated and removed, the rest are unmarked and pinged, in registry order |
| Ws.Gateway.Broadcast | backend/src/ws.js:79-86 | delivers to the targeted clients and drops exactly the ones whose send threw |
| Ws.Gateway.Shutdown | backend/src/ws.js:70 | the heartbeat stops |
| Server.NamedIsOne | backend/src/server.js:114-118 | with unique usernames, an account's name selects exactly that account |
| Server.Judge | backend/src/server.js:120-129 | the verdict is disabled iff inactive, locked iff active with a lock still running, else by the password; the lock is checked before the password |
| Server.AfterAttempt | backend/src/server.js:129-144 | a wrong password adds one to the counter and locks for 15 minutes iff it reaches 5; success clears both; a refused attempt changes nothing |
| Server.CounterOnlyResetBySuccess | backend/src/server.js:130-144 | the counter goes down only on a successful login |
| Server.FailuresCount | backend/src/server.js:130-137 | k wrong passwords from an unlocked account add k to the counter, and lock iff the count reaches 5 |
| Server.FiveFailuresLock | backend/src/server.js:126-137 | after five wrong passwords even the right one is refused as locked for 15 minutes |
| Server.ReLockAfterExpiry | backend/src/server.js:132-133 | once the counter is at 5, any wrong password after the lock ran out locks again at once |
| Server.LockExpires | backend/src/server.js:126-144 | after the lock runs out, the right password is accepted and clears the counter |
| Server.LoginCheck | backend/src/server.js:111-139 | 400 iff a field is missing, 401 for an unknown name, otherwise the account's verdict; success names that account |
| Server.RefreshCheck | backend/src/server.js:176-205 | a refresh succeeds iff the token verifies, exactly one stored row holds both the token and its user id (two such rows are refused), and that user is active; every refusal is 401 |
| Server.WithoutToken | backend/src/server.js:208 | every row holding the token goes, whoever owns it, and every other row stays |
| Server.WithoutTokenCounts | backend/src/server.js:208 | a row not holding the token keeps its multiplicity, and one holding it occurs no more |
| Server.WithoutTokenConcat | backend/src/server.js:208 | the delete distributes over concatenation, so the remaining rows keep table order |
| Server.DeletedTokenRevoked | backend/src/server.js:195-196 | after a logout or a rotation the token is refused as revoked |
| Server.StoredTokenRefreshes | backend/src/server.js:151-155 | the refresh token stored at login refreshes within its lifetime |
| Server.SameSecondLoginsRevoke | backend/src/server.js:151-155 | two logins of a user in the same second store the same token twice; with both rows present, refresh refuses that token as "Refresh token revoked" |
| Server.RegisterCheck | backend/src/server.js:76-91 | the corrected checks: 400 for a missing field or a bad e-mail, 409 iff the name or the address is taken, success otherwise |
| Server.RegisterVersionsAgree | backend/src/server.js:84-91 | the written and the corrected checks agree unless name and address belong to two different accounts |
| Server.RegisterSplitMatch | backend/src/server.js:84-91 | with the name on one account and the address on another, the written code reaches the insert and fails where 409 is meant |
| Server.RegisterSplitMatchExample | backend/src/server.js:84-99 | registering "alice" with bob's address answers 500 as written and 409 as corrected |
| Server.OtpCheck | backend/src/server.js:261-266 | "invalid or expired" iff given fields but the row is missing, used or expired; success iff an unused, unexpired row holds the code; every refusal is 400 |
| Server.OtpRowLifecycle | backend/src/server.js:247-267 | a fresh code verifies within ten minutes, a wrong one is refused without using the row, and once used it never verifies again |
| Server.WithNewPassword | backend/src/server.js:278-279 | the accounts with the e-mail get the new hash with counter and lock cleared; all others are unchanged |
| Server.ResetLiftsLock | backend/src/server.js:279 | after a reset the new password is accepted even inside the 15 minutes |
| Server.RequireAuth | backend/src/server.js:36-57 | "Authentication required" iff the header lacks `Bearer `; success iff the token verifies and names an active account; every refusal is 401 |
| Server.LockedAccountKeepsSession | backend/src/server.js:49 | a lock does not end a session: an active, locked account's access token still passes |
| Server.FileCheck | backend/src/server.js:355-362 | 404 iff the file is missing or inactive, 403 iff it is active but the caller is neither owner nor admin; otherwise the file |
| Server.FilesOfDeleted | backend/src/server.js:590 | exactly the user's files are marked deleted; the others are unchanged |
| Server.ServerState.constructor | backend/src/server.js:14-16 | all four tables start empty |
| Server.ServerState.Register | backend/src/server.js:73-105 | the corrected register: one active 'user' account with a cost-12 hash on success, nothing otherwise |
| Server.ServerState.Login | backend/src/server.js:108-171 | the account is updated by its attempt; on success the pair is issued, a row for the refresh token is appended, and the reply carries no hash |
| Server.ServerState.Refresh | backend/src/server.js:174-226 | a refused refresh changes nothing; a successful one deletes every row of the old token, then appends the new one unless the insert fails |
| Server.ServerState.Logout | backend/src/server.js:229-238 | logout always succeeds and deletes every row holding the given token |
| Server.ServerState.CheckUsername | backend/src/server.js:241-256 | 400 without an e-mail and 404 for an unknown one, storing nothing; otherwise one fresh, unused code row per e-mail, valid 10 minutes, and the masked address |
| Server.ServerState.VerifyOtp | backend/src/server.js:259-270 | a matching code marks its row used and yields a 10-minute reset token; a refusal changes nothing |
| Server.ServerState.ResetPassword | backend/src/server.js:273-282 | a refused reset changes nothing; otherwise the token's e-mail gets the new hash with counter and lock cleared |
| Server.ServerState.DeleteFile | backend/src/server.js:401-419 | the owner or an admin marks an active file deleted; any refusal changes nothing |
| Server.ServerState.ToggleActive | backend/src/server.js:559-570 | 404 for a missing user; otherwise only that account's `is_active` flips |
| Server.ServerState.Unlock | backend/src/server.js:573-584 | always succeeds; clears lock and counter on the account if it exists |
| Server.ServerState.DeleteUser | backend/src/server.js:587-597 | the user's files are marked deleted; the account goes unless its delete fails |
| Server.UnlockThenLogin | backend/src/server.js:573-584 | after an unlock the right password is accepted at once |
| LoginPage.Passed | frontend/src/script.js:76 | exactly the checks the password passes |
| LoginPage.Failed | frontend/src/script.js:77 | exactly the checks it fails |
| LoginPage.PassedPlusFailed | frontend/src/script.js:76-78 | every check is passed or failed, never both |
| LoginPage.FailedKeepsOrder | frontend/src/script.js:77 | the failed checks keep the list's order |
| LoginPage.Evaluate | frontend/src/script.js:67-79 | score + number failed = 5, a check is failed iff the password does not pass it, and the failed ones are in list order |
| LoginPage.AllChecksListed | frontend/src/script.js:68-74 | the list holds all five checks |
| LoginPage.PassingCheckCounts | frontend/src/script.js:76 | a passed check adds to the score |
| LoginPage.NonEmptyScoresOne | frontend/src/script.js:70-73 | every character falls under one of the four classes, so a non-empty password scores at least 1 |
| LoginPage.LongEnoughPlain | frontend/src/script.js:69 | without line breaks `.{8,}` means at least eight characters |
| LoginPage.StrengthIndex | frontend/src/script.js:104 | the index is in range and equals score - 1 for scores 1 to 5 |
| LoginPage.HintKeys | frontend/src/script.js:116-118 | one hint per failed check, in order |
| LoginPage.StrengthMeter | frontend/src/script.js:95-118 | hidden iff the password is empty; otherwise the level of the score, `min(score, 4)` lit bars, and as hints the failed checks' keys in list order |
| LoginPage.HintListed | frontend/src/script.js:67-73 | a check's hint key is listed iff the check is, as the five keys are distinct |
| LoginPage.MeterHintsFailures | frontend/src/script.js:95-118 | the meter shows a check's hint iff the password fails that check |
| LoginPage.SignupCheck | frontend/src/script.js:193-220 | sent iff the trimmed fields are all there, the e-mail passes, the passwords match and the score is at least 3; `msg.fill_all` iff a field is empty, `msg.email_invalid` iff only the e-mail fails, `msg.passwords_mismatch` iff those pass and the passwords differ, `msg.password_weak` iff those pass and the score is below 3 |
| LoginPage.GeneratedCodeAccepted | frontend/src/script.js:404 | every code the server draws passes the page's format check |
| LoginPage.OtpWithLetterRefused | frontend/src/script.js:402-404 | any non-digit inside the trimmed code is refused |
| LoginPage.DotState | frontend/src/script.js:299-310 | dot i is done iff i + 1 < step and current iff i + 1 = step |
| LoginPage.StepViewConsistent | frontend/src/script.js:299-316 | for each step exactly one panel shows, its dot is current, and a bar is filled iff the dot before it is done |
| LoginPage.ResetFormCheck | frontend/src/script.js:444-462 | no reset token is refused first; sent iff token and both fields are there, they match and score at least 3 |
| LoginPage.ForgotFlow.constructor | frontend/src/script.js:279-280 | no e-mail, no token, step 1 |
| LoginPage.ForgotFlow.ResetToStep1 | frontend/src/script.js:319-327 | clears the e-mail and the token and returns to step 1 |
| LoginPage.ForgotFlow.BackToStep1 | frontend/src/script.js:347-350 | back to step 1, nothing forgotten |
| LoginPage.ForgotFlow.BackToStep2 | frontend/src/script.js:351-354 | back to step 2 from step 3 |
| LoginPage.ForgotFlow.SendOtp | frontend/src/script.js:357-393 | an empty or invalid e-mail is refused locally; it moves to step 2 and stores the e-mail iff the address is valid and the server accepts it |
| LoginPage.ForgotFlow.VerifyOtp | frontend/src/script.js:400-433 | a badly formed code is refused locally; it moves to step 3 and stores the token iff the code is well formed and the server accepts it |
| LoginPage.ForgotFlow.Submit | frontend/src/script.js:440-470 | sends only with a reset token held, and sends that token with the new password |
| LoginPage.ForgotHappyPath | frontend/src/script.js:357-470 | an accepted e-mail, a server code and a strong password end in sending the server's reset token |
| I18n.LookupLang | frontend/src/i18n.js:189 | the language itself iff the table has it (or it is 'en'), else 'en' |
| I18n.T | frontend/src/i18n.js:188-192 | the current language's text, else the English text, else the key |
| I18n.UnknownLanguageIsEnglish | frontend/src/i18n.js:189 | a language the table lacks reads exactly like English |
| I18n.LookupFromTableOrKey | frontend/src/i18n.js:190 | the lookup returns an entry of the table or the key, never anything else |
| I18n.Applied | frontend/src/i18n.js:195-201 | an element changes iff its key translates to something other than the key, and then to that translation |
| I18n.AppliedTwice | frontend/src/i18n.js:195-201 | applying the same language twice is applying it once |
| I18n.AppliedForgetsOldText | frontend/src/i18n.js:199 | after a pass a translated element's text depends only on its key |
| I18n.ApplyI18n | frontend/src/i18n.js:195-201 | the loop leaves the elements' texts as `Applied` says |
| I18n.Toggled | frontend/src/i18n.js:205 | 'th' becomes 'en' and anything else 'th' |
| I18n.ToggleTwice | frontend/src/i18n.js:205 | toggling twice from 'th' or 'en' comes back; from anything else it ends in 'en' |
| I18n.InitialLang | frontend/src/i18n.js:186 | the preset language, else the stored one, else 'th'; never empty |
| I18n.LangState.constructor | frontend/src/i18n.js:186 | the page starts in the initial language |
| I18n.LangState.ToggleLang | frontend/src/i18n.js:204-210 | the language toggles and is stored, the button names the other language, and the texts are re-applied |
| I18n.ToggleSurvivesReload | frontend/src/i18n.js:186-206 | a reload without a preset starts in the language last toggled to |
| Pages.FileIcon | frontend/src/pages/user/script.js:63-73 | an empty or absent type is a clip; otherwise the icon of the first matching rule, in the source's order |
| Pages.FirstMatchClip | frontend/src/pages/user/script.js:72 | the first match is the clip iff no rule matches |
| Pages.FirstMatchIsFirst | frontend/src/pages/user/script.js:65-71 | the icon chosen is that of a matching rule with no earlier rule matching |
| Pages.ClipIffNoRuleMatches | frontend/src/pages/user/script.js:64-72 | a non-empty type shows the clip iff no rule matches |
| Pages.PrefixBeatsSubstring | frontend/src/pages/user/script.js:65-67 | an `image/` type is a picture whatever else it contains |
| Pages.PdfMime | backend/src/controllers/userFileController.js:14-22 | a `.pdf` name in any letter case gets `application/pdf` |
| Pages.PdfTypeIcon | frontend/src/pages/user/script.js:68 | `application/pdf` shows the PDF icon |
| Pages.PdfFilesGetPdfIcon | frontend/src/pages/user/script.js:63-73 | a `.pdf` upload, in any letter case, is listed with the PDF icon |
| Pages.FmtSizeBytes | frontend/src/pages/user/script.js:57-58 | a text iff the size is below 1024 |
| Pages.FmtSizeReadsBack | frontend/src/pages/user/script.js:58 | the text is at most four digits reading back as the size, then " B" |
| Pages.Storage.constructor | frontend/src/pages/admin/script.js:5 | the storage holds the given items |
| Pages.Storage.Get | frontend/src/pages/admin/script.js:5 | `getItem` gives the stored value iff the key is present |
| Pages.DisplayName | frontend/src/pages/user/script.js:42 | the full name when set, otherwise the username |
| Pages.Retried | frontend/src/pages/user/script.js:23 | the retry keeps the URL and carries the new bearer |
| UserPage.ApiFetch | frontend/src/pages/user/script.js:11-33 | a non-401 answer is returned untouched after one call; a 401 makes one refresh, then stores both tokens and retries once with the new bearer, or clears storage and leaves |
| UserPage.Admitted | frontend/src/pages/user/script.js:36-40 | admitted iff a stored user parses with role 'user' |
| UserPage.Guard | frontend/src/pages/user/script.js:36-40 | leaves and clears storage iff not admitted; otherwise changes nothing |
| UserPage.AdminNotAdmitted | frontend/src/pages/user/script.js:37 | an admin's session never passes the user page's guard |
| AdminPage.ApiFetch | frontend/src/pages/admin/script.js:11-33 | as on the user page, but a failed refresh removes exactly the three session items |
| AdminPage.EndSessionRemovesExactlyThree | frontend/src/pages/admin/script.js:26-28 | an item survives iff it is not a session item, with its value, and at most three go |
| AdminPage.Admitted | frontend/src/pages/admin/script.js:36-37 | admitted iff a stored user parses with role 'admin' |
| AdminPage.Guard | frontend/src/pages/admin/script.js:36-42 | leaves and removes the three session items iff not admitted; otherwise changes nothing |
| AdminPage.Panels | frontend/src/pages/admin/script.js:69-70 | the files panel shows iff the tab is 'files', the users panel iff it is 'users', never both |
| AdminPage.Tabs.constructor | frontend/src/pages/admin/script.js:59 | the files tab is active first |
| AdminPage.Tabs.Click | frontend/src/pages/admin/script.js:61-73 | the clicked tab becomes active, the panels follow it, and that tab's list loads |
| AdminPage.Owners | frontend/src/pages/admin/script.js:114-118 | the group keys: each owner that has a row, once |
| AdminPage.OfOwner | frontend/src/pages/admin/script.js:116-117 | a group holds only rows of the listing with that owner |
| AdminPage.GroupByOwner | frontend/src/pages/admin/script.js:114-118 | the loop builds a group for exactly the owners, each holding that owner's rows in listing order |
| AdminPage.OfOwnerAbsent | frontend/src/pages/admin/script.js:116 | an owner not seen yet has no rows so far |
| AdminPage.RowInOwnGroup | frontend/src/pages/admin/script.js:117 | every row is in its owner's group |
| AdminPage.GroupsPartition | frontend/src/pages/admin/script.js:114-118 | the group sizes add up to the number of rows, so each row is in exactly one group |
| AdminPage.GroupKeepsOrder | frontend/src/pages/admin/script.js:117 | a group keeps the listing's order |
| AdminPage.GroupsOfAdminListing | frontend/src/pages/admin/script.js:114-118 | each group of the admin listing is newest first |
| AdminPage.PluralSuffix | frontend/src/pages/admin/script.js:124 | an 's' iff more than one file and the language is 'en' |
| AdminPage.Buttons | frontend/src/pages/admin/script.js:213-225 | no buttons on one's own row; otherwise toggle first, unlock iff locked, and delete |
| AdminPage.Badges | frontend/src/pages/admin/script.js:208-210 | disabled iff inactive, locked iff locked, "you" iff it is one's own row |
| AdminPage.ControllerRowsNeverUnlockable | frontend/src/pages/admin/script.js:201 | against the controller backend no row is locked, so the unlock button never shows |

## Left out

- Supabase I/O: every `supabase.from(...)` and `supabase.storage` call is a map operation. A failing call is modelled only where a handler branches on it: the legacy insert (which also stands for a failed storage upload), the admin delete-user steps, the refresh-row insert. Other datastore errors (the 500 answers) are not modelled.
- Errors thrown by bcrypt, jsonwebtoken or Express, and their 500 answers: the libraries are abstract functions that do not fail.
- `decodeURIComponent`, the JWT text format and the `Authorization` header's raw text: a `decode` parameter turns text into a token, and a malformed escape is not modelled.
- The Latin-1 to UTF-8 re-encoding of upload names and the internals of `path.extname`: the name and its extension are parameters of `UserFiles.UploadFile`.
- Inherited JavaScript object keys in the MIME table (such as `constructor`): the table is exactly its listed keys.
- `testBuckets` in `legacyController.js`, `searchUsers` in `userFileController.js` and the user search route of `server.js` (434-455): listing lookups that decide nothing.
- The share stubs of `server.js` (422-431): they answer fixed bodies.
- The file-listing, upload, admin listing and admin download/preview routes of `server.js` (289-349, 457-525): they repeat the controller logic over the other schema without the parts modelled here.
- `server.js` admin user listing (544-556): it returns raw rows, `locked_until` included. `Admin.GetUsers` models the controller version, which sets `locked_until` to null. Against `server.js` the admin page can show the unlock button; `AdminPage.Buttons` covers that case for any row.
- `created_at` order of the user listings: row ids stand in for it.
- `Object.entries` key order in the admin page's grouping (integer-like owner names come first in JavaScript): `AdminPage.GroupByOwner` keeps first-appearance order.
- DOM rendering, class strings, alerts and redirects. A page "leaving" is a returned flag.
- `toLocaleString` in the lock message: `Server.ServerState.Login` answers "Account locked" without the date.
- `fmtSize` above 1023 bytes: the KB and MB branches use floating-point `toFixed`.
- The preview modal's choice of viewer on the admin page (264-292), the upload handler's `selectedFile`, and the navigation bar's logout request.
- The translation table: it is a parameter of `I18n.T`; the shipped Thai and English texts are not copied.
- `Math.random` and `Date.now`: a draw below 900000 and a millisecond clock are parameters.
- The `console.log` calls, including the development log of the OTP.
- Concurrency: each handler runs as one atomic step, as Node runs them on one thread.
- The WebSocket transport (send, ping, terminate and the `headers` event): the registry keeps only records and flags, and `isOpen` and `sendThrows` are parameters.
- Uniqueness of `refresh_tokens.token`: the table is a sequence with no such constraint, as nothing in the code requires one.
- Mime.MimeFromFilename: its own contract states only the empty-name case; the general mapping is stated by `Mime.MimeOfExtension` and `Mime.MimeIsListed`.
- UserFiles.GetFiles: the order of the shared entries is by descending id; the source leaves the order of `.in(...)` results to the database.
- Legacy.ListFiles: the listing is a set of ids; the order of the rows is up to the database.
- Server.UniqueLogins, Store.UniqueAccounts: the `users` table is assumed to keep usernames and e-mail addresses unique. No source file shows this schema. `Store.Database.Valid`, `Server.ServerState.Valid`, `Server.NamedIsOne`, `Store.LookupByName`, `Store.LookupByEmail` and `Server.RegisterVersionsAgree` rest on the assumption, and so does the 500 branch of `Server.RegisterAsWritten`. Without the constraints, the split-match registration inserts a second account with the taken username and answers 201 "Registration successful".
- Server.RegisterAsWritten: the username and the e-mail are interpolated into the PostgREST `or` filter without quoting. The e-mail regex admits `,`, `(` and `)`, as in "a,b@x.io", and such a value breaks or changes the filter, so the select finds nothing and a taken name reaches the insert. The model reads the filter as the exact union of the two equalities.
- UserFiles.DeleteFile: the route's `id` is taken as a number, and the `file_deleted` notice carries its plain decimal form. The source echoes the route text, so for `/files/007` it broadcasts "007" where the model broadcasts "7"; the row lookup is the same.
- Legacy.ParseInt: JavaScript's `parseInt` returns a double, while the model returns an exact integer. The two agree up to 2^53 in magnitude. Above that, JavaScript rounds: "9007199254740993" reads as 9007199254740992. `parseInt("-0")` is -0 in JavaScript and 0 here; both reach the database as 0, through the query text and through JSON. The function's properties are stated by the lemmas below.
- ParseIntOfDecimal: reading back exactly n is JavaScript's behaviour only for n up to 2^53; above that the model keeps the exact value, as the Legacy.ParseInt line says.
- MagnitudeOfDecimal: the same bound as ParseIntOfDecimal; above 2^53 the digits read back exactly here and rounded in JavaScript.
- ParseIntOfNegative: exact for -n down to -2^53. For "-0" JavaScript gives -0 where the model gives 0, which the database receives as the same 0.
- ListByDecimalId: the owner filter equals n in JavaScript only for n up to 2^53; a larger decimal id filters on the rounded double there.
- LoginPage.LongEnough: JavaScript's `.{8,}` counts UTF-16 code units and the model counts code points. A password with characters outside the Basic Multilingual Plane, such as emoji, can pass the length check in JavaScript with fewer than eight characters.
- EmailFormat.MaskValidEmail: the mask's `(.{2})` keeps two UTF-16 code units in JavaScript and two code points here. "😀ab@x.io" masks to "😀***@x.io" in JavaScript and to "😀a***@x.io" here.
- AdminPage.GroupByOwner: `byOwner = {}` inherits `Object.prototype` keys in JavaScript. For an owner named "constructor" (or "__proto__") the page's `push` throws; the model groups that owner like any other.
- I18n.LookupLang: `window._lang in _i18n` also accepts inherited keys such as "constructor"; the model accepts only the table's own languages and 'en'.

## Findings

| source | as written | input that shows it | evidently intended | confidence | as-written member | corrected member |
|---|---|---|---|---|---|---|
| backend/src/server.js:84-91 | `.or(username, email).maybeSingle()` yields null when the name and the address match two different rows, so the 409 is skipped and the insert runs; with the unique constraints the model assumes, it fails with 500, and without them a second account with the taken name is stored and the reply is 201 | accounts alice and bob; register username "alice" with e-mail "bob@ex.io" | 409 "Username or email already taken" whenever either is taken | not executed | Server.RegisterAsWritten (shown by Server.RegisterSplitMatchExample) | Server.RegisterCheck (used by Server.ServerState.Register) |
