# Session ledger and user self-service, in Dafny

A model of the authentication core of a NestJS/TypeORM back end. It covers:

- **Sessions** (`Ledger`). A session row is keyed by the token id `jtiAccess`. It is live while it is unrevoked and not yet expired.
- **Auth service** (`Auth`).
  - `login` checks credentials, appends one session row and issues an access/refresh claim pair that shares the row's token id.
  - `refresh` mints a new access token for a live session of an active user.
  - `logout` revokes a session; `me` looks a user up.
- **Bearer guard** (`Strategy`). It admits a request while its session is live, and records the session's last activity.
- **User self-service** (`Accounts`). It covers the partial profile update, the password change and the soft delete.
- **TTL parsing** (`Ttl`). A string such as `"15m"` becomes a millisecond offset; anything outside `^\d+[smhd]$` gives seven days.
- **Username derivation** (`UserNames`). The username is the cleaned first name, a dot, the cleaned last name, then the last three characters of the national id.
- **Transaction helper** (`Transactions`). The work runs between connect/begin and commit, or rollback, then release. The query runner is a class that records every call it receives.
- **Cross-service lemmas** (`Protocol`). These cover what a login, logout, deactivation or password change means for later refreshes, guarded requests and logins.

Tables are sequences of rows in table order, and a lookup returns the first matching row. The user table has a delete-date column, so every find on it, and the join that loads a session's user, skips soft-deleted rows (those with a `deletedAt`), as TypeORM does unless asked for deleted rows. Saves by primary key and the unique indexes still see those rows. Classes hold the tables that the services update in place. These are `UserTable` and `SessionTable`, plus the transaction helper's `QueryRunner`.

The following are all inputs to the model:

- The clock (`now`, in milliseconds).
- The random token id (`jti`, which must not already be in the session table).
- The password check and the hasher (opaque functions given to the services' constructors).
- The result of verifying a token's signature (`Option<Claims>`).
- The database's behaviour under a transaction (a `Driver`, which decides from the calls so far whether a call throws and what a query answers).

Three points where the code differs from its own comments. The model follows the code in each case:

- The comment on `createUserName` gives `john.doe.123` as an example. The code puts no dot before the digits (`john.doe123`); see `UserNames.NoDotBeforeDigits`.
- The comment in `addFromNow` lists `'900s'` as a fallback case. `"900s"` matches the pattern and gives fifteen minutes; see `Ttl.SecondsExamples`.
- `processTransaction` says it always releases the connection. `connect` and `startTransaction` sit outside its `try`, so when either throws there is no release; see `Transactions.OpeningFailurePropagates`.

Deactivating a user (`deleteUser`) does not revoke its sessions. What ends them is the soft-delete filter. `refresh` finds no owner for the session and answers that the session is invalid. The guard's join finds no user either, so reading `session.user.id` throws: the request fails, but with a server error rather than with Unauthorized. See `Protocol.DeactivationEndsSessions`.

## Model

| member | source | states |
|---|---|---|
| Ttl.Exec | src/utils/jwt.utilities.ts:4 | the pattern matches exactly the strings of one or more digits followed by one of `s`, `m`, `h`, `d` |
| Ttl.AddFromNow | src/utils/jwt.utilities.ts:2-22 | the expiry is never before `now`; any string outside the pattern gives exactly `now` plus seven days |
| Ttl.MatchedOffset | src/utils/jwt.utilities.ts:6-16 | for a matching string the offset is the parsed number times the unit's length in milliseconds |
| Ttl.DecimalRoundTrip | src/utils/jwt.utilities.ts:7 | parsing the decimal numeral of `n` gives back `n` |
| Ttl.LeadingZerosIgnored | src/utils/jwt.utilities.ts:7 | leading zeros do not change the parsed value |
| Ttl.NumeralOffset | src/utils/jwt.utilities.ts:9-16 | numeral of `n` plus a unit gives `now + n` times 1000, 60000, 3600000 or 86400000 |
| Ttl.PaddedNumeralOffset | src/utils/jwt.utilities.ts:4-16 | a zero-padded numeral means the same as the plain one |
| Ttl.MonotoneInValue | src/utils/jwt.utilities.ts:9-16 | for a fixed unit a larger number never gives an earlier expiry |
| Ttl.FifteenMinutes | src/utils/jwt.utilities.ts:4-16 | `"15m"` gives `now + 900000` |
| Ttl.SevenDays | src/utils/jwt.utilities.ts:4-16 | `"7d"` gives `now + 604800000` |
| Ttl.SecondsExamples | src/utils/jwt.utilities.ts:9-10 | `"3600s"` is one hour, and `"900s"` is fifteen minutes, not the fallback |
| Ttl.ZeroSeconds | src/utils/jwt.utilities.ts:4-21 | `"0s"` gives exactly `now` |
| Ttl.FallbackExamples | src/utils/jwt.utilities.ts:17-20 | `""`, `"15"`, `"1w"`, `"-5m"`, `"15 m"` and `"bogus"` all give `now + 604800000` |
| UserNames.StripMarks | src/utils/auth.utilities.ts:25 | no combining mark U+0300–U+036F is left; a string without marks is unchanged; a single character is dropped iff it is a mark |
| UserNames.StripMarksAppend | src/utils/auth.utilities.ts:25 | stripping distributes over concatenation, so every character that is not a mark is kept, in order |
| UserNames.ReplaceAll | src/utils/auth.utilities.ts:26-27 | every occurrence of the letter is replaced by `n` and every other character is kept |
| UserNames.ToLower | src/utils/auth.utilities.ts:28 | each character is lower-cased in place; the length is unchanged |
| UserNames.FirstToken | src/utils/auth.utilities.ts:29 | the result is the prefix before the first space: it holds no space and is the whole string or is followed by a space |
| UserNames.Trim | src/utils/auth.utilities.ts:30 | the result is the slice of the input between its leading and its trailing whitespace: everything removed is whitespace, and the result neither starts nor ends with whitespace |
| UserNames.Lowered | src/utils/auth.utilities.ts:24-28 | after mark removal, eñe replacement and lower-casing, no upper-case ASCII, mark or eñe remains |
| UserNames.LoweredChars | src/utils/auth.utilities.ts:24-28 | what remains is each character that is not a mark, in order, with an eñe replaced by `n` and then lower-cased; on text without marks, character for character |
| UserNames.Clean | src/utils/auth.utilities.ts:22-30 | the cleaned name is never longer than the input; what it contains is stated by the lemmas below |
| UserNames.CleanAscii | src/utils/auth.utilities.ts:22-30 | on printable ASCII text the cleaned name is the lower-cased text before the first space |
| UserNames.CleanTakesFirstWord | src/utils/auth.utilities.ts:22-30 | of a printable ASCII name with a space, only the first word is kept, lower-cased |
| UserNames.CleanLeadingSpace | src/utils/auth.utilities.ts:29-30 | a name that starts with a space cleans to the empty string, because `split(' ')[0]` is empty |
| UserNames.CleanExample | src/utils/auth.utilities.ts:22-30 | `"Ana Maria"` cleans to `"ana"` |
| UserNames.CleanIsClean | src/utils/auth.utilities.ts:22-30 | a cleaned name holds no space, no upper-case ASCII, no mark and no eñe, and has no whitespace at either end |
| UserNames.CleanFixesCleanNames | src/utils/auth.utilities.ts:22-30 | `clean` leaves a name that is already in clean form unchanged |
| UserNames.CleanIdempotent | src/utils/auth.utilities.ts:22-30 | cleaning twice is cleaning once, for every input |
| UserNames.LastThree | src/utils/auth.utilities.ts:32 | `slice(-3)`: the last three characters, or the whole string when it is shorter |
| UserNames.CreateUserName | src/utils/auth.utilities.ts:17-33 | the username is the cleaned first name, one dot, the cleaned last name and the national id's last three characters, and its length is the sum of theirs |
| UserNames.NoDotBeforeDigits | src/utils/auth.utilities.ts:32 | for names `clean` leaves unchanged and an id of length three or more, the username is `first + "." + last + lastThreeDigits`, with no second dot |
| UserNames.PrecleanedNamesAgree | src/utils/auth.utilities.ts:22-32 | cleaning the names beforehand does not change the username |
| Users.FindById | src/user/user.service.ts:24 | the row found has the id, is in the table and is not soft-deleted; there is no result iff every row with the id is soft-deleted or there is none |
| Users.FindByIdUnique | src/core/users/user.entity.ts:14-15 | with the primary key in force, looking up the id of a row that is not soft-deleted finds that row |
| Users.Replace | src/user/user.service.ts:36 | saving a loaded entity replaces the row with its id and leaves every other row as it was |
| Users.ReplaceKeepsUniqueKeys | src/core/users/user.entity.ts:17-30 | a replacement that collides with no other row keeps ids, usernames, emails and national ids unique |
| Users.SameKeysNeverCollide | src/core/users/user.entity.ts:17-30 | a row saved back with its id, username, email and national id unchanged cannot violate a unique index |
| Users.UserTable.constructor | src/core/users/user.entity.ts:13-63 | the table starts with the given rows, whose keys are unique |
| Users.UserTable.Save | src/user/user.service.ts:36 | the save fails with a unique violation iff the row clashes with another row, and otherwise replaces the row by id |
| Accounts.Merge | src/user/user.service.ts:28-34 | each of first name, last name, email, national id and phone is the request's value when given and the old one otherwise; no other field changes |
| Accounts.MergeIdempotent | src/user/user.service.ts:30-34 | applying the same update twice equals applying it once |
| Accounts.EmptyUpdateChangesNothing | src/user/user.service.ts:30-34 | an update that carries no field leaves the user as it was |
| Accounts.WithPassword | src/user/user.service.ts:56-59 | the password becomes the new hash and `updatedAt` becomes now; nothing else changes |
| Accounts.Deactivate | src/user/user.service.ts:81-83 | the user becomes inactive, with `deletedAt` and `updatedAt` set to now; nothing else changes and the row stays in the table |
| Accounts.DeactivatedIsHidden | src/user/user.service.ts:69-85 | with the primary key in force, once a user is soft-deleted no lookup by its id finds it |
| Accounts.UserService.constructor | src/user/user.service.ts:13-15 | the service works on the given table with the given password check and hasher |
| Accounts.UserService.Update | src/user/user.service.ts:17-42 | rejects another user's id and an unknown caller without change; otherwise saves the merged row, or fails on a unique clash |
| Accounts.UserService.ChangePassword | src/user/user.service.ts:44-67 | an unknown user or a failing old-password check is rejected without change; otherwise only that row's password and `updatedAt` change |
| Accounts.UserService.DeleteUser | src/user/user.service.ts:69-91 | fails without change unless both caller and target exist (they need not be equal); otherwise only the target is soft-deleted |
| Ledger.FindLive | src/auth/auth.service.ts:105-112 | the row found carries the token id and is live; there is no result iff no live row carries it |
| Ledger.Revoke | src/auth/auth.service.ts:130-133 | only unrevoked rows carrying the token id change, and they are revoked with reason and logout time; every other row is unchanged |
| Ledger.Touch | src/auth/strategies/jwt.strategy.ts:51 | only `lastSeenAt` changes, and only on the row with the given id |
| Ledger.RevokeEndsLiveness | src/auth/auth.service.ts:129-134 | after revoking a token id no live row carries it |
| Ledger.RevokeIdempotent | src/auth/auth.service.ts:130-133 | a second logout of the same token id changes nothing |
| Ledger.RevokeKeepsOtherTokens | src/auth/auth.service.ts:130-133 | revoking one token id does not change the live lookup of any other |
| Ledger.TouchKeepsLookup | src/auth/strategies/jwt.strategy.ts:50-51 | recording activity does not change which session is live, nor anything but its `lastSeenAt` |
| Ledger.RevokeKeepsUniqueKeys | src/auth/entities/session.entity.ts:19-21 | logout keeps ids and token ids unique |
| Ledger.TouchKeepsUniqueKeys | src/auth/entities/session.entity.ts:19-21 | activity updates keep ids and token ids unique |
| Ledger.SessionTable.constructor | src/auth/entities/session.entity.ts:12-52 | the table starts empty, and the first generated id is 1 |
| Ledger.SessionTable.Insert | src/auth/auth.service.ts:54-63 | a row with a fresh token id is appended with the next generated id; earlier rows are unchanged |
| Ledger.SessionTable.RevokeWhere | src/auth/auth.service.ts:130-133 | the conditional update leaves the table as `Revoke` says and keeps its keys unique |
| Ledger.SessionTable.TouchWhere | src/auth/strategies/jwt.strategy.ts:51 | the activity update leaves the table as `Touch` says and keeps its keys unique |
| Auth.OrDefault | src/auth/auth.service.ts:48 | a setting that is unset or empty falls back to the default; otherwise it is used as given |
| Auth.AddFromNow | src/auth/auth.service.ts:151-171 | the service's own copy of `addFromNow`: the expiry is never before `now`, and any string outside the pattern gives `now` plus seven days |
| Auth.AddFromNowCopiesAgree | src/auth/auth.service.ts:151-171 | the service's private copy of `addFromNow` agrees with the shared utility on every input |
| Auth.FindByIdentifier | src/auth/auth.service.ts:34-36 | the row found has the identifier as username or as email and is not soft-deleted; there is no result iff no such row exists |
| Auth.CheckCredentials | src/auth/auth.service.ts:34-45 | unknown, soft-deleted, inactive and wrong-password logins fail with the same error; success means an active matching user, not soft-deleted, whose password checks |
| Auth.CredentialsOfSoleMatch | src/auth/auth.service.ts:38-45 | when one user that is not soft-deleted answers to the identifier, login admits it iff it is active and the password checks |
| Auth.IssueTokens | src/auth/auth.service.ts:65-87 | access and refresh claims share subject, token id and username; only the refresh claim is typed `refresh`; each token has its TTL; the body repeats the stored expiry and a summary without the password |
| Auth.Refresh | src/auth/auth.service.ts:91-127 | a failed verification gives Unauthorized and a wrong type gives BadRequest, both before any lookup; success needs a live session whose user is found (not soft-deleted) and active, and mints that user's claims with the session's token id and no type |
| Auth.RefreshAcceptedIff | src/auth/auth.service.ts:104-115 | with unique keys, a refresh-typed token is accepted iff a live row carries its token id and belongs to an active user that is not soft-deleted |
| Auth.Me | src/auth/auth.service.ts:137-147 | an unknown or soft-deleted id gives Unauthorized; otherwise the summary of the row with that id |
| Auth.MeIgnoresPassword | src/auth/auth.service.ts:140-146 | the answer of `me` does not depend on any stored password |
| Auth.AuthService.constructor | src/auth/auth.service.ts:18-24 | the service works on the given tables, settings and password check |
| Auth.AuthService.Login | src/auth/auth.service.ts:26-89 | a rejected login leaves the session table unchanged; an accepted one appends exactly one live row with the fresh token id and the refresh expiry, and returns the matching tokens |
| Auth.AuthService.Logout | src/auth/auth.service.ts:129-135 | always acknowledged; revokes exactly the unrevoked rows of the token id |
| Strategy.Authenticate | src/auth/strategies/jwt.strategy.ts:36-60 | fails with Unauthorized iff no live row carries the token id; fails on reading the user's id when the joined user is absent or soft-deleted; otherwise returns that user's id and the session's id and company, with the token's username and id |
| Strategy.TouchKeepsAuthentication | src/auth/strategies/jwt.strategy.ts:50-51 | recording activity never changes the guard's answer |
| Strategy.AuthenticatesTheSession | src/auth/strategies/jwt.strategy.ts:37-59 | with unique keys, the request is admitted iff the row carrying the token id is live and its user is not soft-deleted, and is then attributed to that row's id and user; a live row whose user is soft-deleted gives the missing-relation failure |
| Strategy.JwtStrategy.constructor | src/auth/strategies/jwt.strategy.ts:25-34 | the guard works on the given session table, reading users through the given user table |
| Strategy.JwtStrategy.Validate | src/auth/strategies/jwt.strategy.ts:36-60 | the answer is that of `Authenticate` whether or not the activity write lands; the write is issued whenever a live row is found, before the user is read, and changes only that row's `lastSeenAt` |
| Transactions.QueryRunner.constructor | src/database/transactions.ts:13 | a fresh runner has made no call |
| Transactions.QueryRunner.Perform | src/database/transactions.ts:15-32 | the call is recorded, and it throws as the database decides |
| Transactions.QueryRunner.Query | src/database/transactions.ts:67 | the query is recorded; its answer or its error is the database's |
| Transactions.RunBatch | src/database/transactions.ts:63-71 | a batch that succeeds made one call and gave one answer per statement |
| Transactions.RunBatchShape | src/database/transactions.ts:63-71 | the statements run in order after the earlier calls; every call but the last went through; a failure is the last call's error; on success the i-th answer is the one given to the i-th query |
| Transactions.FailureEndsBatch | src/database/transactions.ts:66-69 | after a statement fails, no later statement is run |
| Transactions.Transaction | src/database/transactions.ts:9-34 | the first call is connect; release is called iff connect and begin went through; a success means both went through and gives one result per statement |
| Transactions.RollBack | src/database/transactions.ts:26-29 | the catch block records one rollback and always fails: with the caught error when the rollback goes through, with the rollback's own error when it throws |
| Transactions.RollbackErrorReplaces | src/database/transactions.ts:26-32 | when a statement fails, the rollback throws and release goes through, the caller sees the rollback's error, not the statement's |
| Transactions.OpeningFailurePropagates | src/database/transactions.ts:15-16 | when connect or begin throws, that error propagates and nothing else is called, not even release |
| Transactions.CallShape | src/database/transactions.ts:13-33 | once begun: connect, begin, the statements, then commit, rollback, or commit and rollback, then exactly one release, last |
| Transactions.SuccessCommits | src/database/transactions.ts:18-25 | a success committed, never rolled back, and answered each statement in order |
| Transactions.FailureRollsBack | src/database/transactions.ts:26-29 | when a statement throws, the batch stops at it, the next calls are rollback then release, nothing is committed, and the transaction fails |
| Transactions.StatementErrorRethrown | src/database/transactions.ts:26-29 | when rollback and release succeed, the failing statement's error is what the caller sees |
| Transactions.CommitErrorRethrown | src/database/transactions.ts:23-29 | a failing commit is rolled back, and when rollback and release succeed its error is what the caller sees |
| Transactions.ReleaseErrorPrevails | src/database/transactions.ts:30-33 | a release that throws decides the outcome |
| Transactions.NothingThrows | src/database/transactions.ts:9-34 | against a database that never throws: connect, begin, every statement, commit, release, and success |
| Transactions.RunStatements | src/database/transactions.ts:63-71 | the loop leaves the runner and its result as `RunBatch` describes |
| Transactions.ProcessTransaction | src/database/transactions.ts:9-34 | the calls and the outcome are those of `Transaction`, about which the lemmas above speak |
| Transactions.ExecuteQueryInTransaction | src/database/transactions.ts:43-51 | one transaction around one statement; on success the answer is that statement's |
| Transactions.ExecuteMultipleQueriesInTransaction | src/database/transactions.ts:59-73 | one transaction around all the statements; on success one result per statement |
| Protocol.LoginThenRefresh | src/auth/auth.service.ts:47-126 | until the session expires, the login's refresh token yields the very access token login issued, and that token is admitted for the new session |
| Protocol.SessionExpires | src/auth/auth.service.ts:104-115 | past the refresh lifetime neither token of the login is accepted |
| Protocol.LogoutEndsSession | src/auth/auth.service.ts:129-134 | after logout neither the refresh nor the access token of that session is accepted |
| Protocol.LogoutSparesOtherSessions | src/auth/auth.service.ts:130-133 | a logout leaves the tokens of every other session as they were |
| Protocol.DeactivationEndsSessions | src/user/user.service.ts:81-85 | deactivation revokes nothing, yet a live session of the user can no longer refresh (Unauthorized), and its access token fails in the guard on the missing user |
| Protocol.NewPasswordAdmits | src/user/user.service.ts:56-61 | after a password change, login by username with the new password succeeds for an active user that is not soft-deleted, given a sound hasher |

## Left out

- UserNames.StripMarks: the canonical decomposition of `normalize('NFD')` is not modelled. Precomposed letters such as `á` are kept rather than split into letter and mark. Only marks already present are removed.
- UserNames.ToLower: only ASCII letters are lower-cased. The Unicode case mapping of `toLowerCase` is not modelled.
- Ttl.AddFromNow: integers are unbounded. JavaScript's double precision for very large numerals is not modelled, and the result is an instant in milliseconds rather than a `Date`.
- Password hashing and comparison (`hashPassword`, `comparePassword`, `bcrypt.compare`, `compareSync`) are opaque functions passed to the services. Salting is not modelled.
- JWT signing and verification: a signed token is its claims plus its lifetime string. Verification is an input that yields the claims or nothing. Signature and expiry checks inside the library are not modelled.
- Time and randomness: `Date.now()`, `new Date()` and `randomUUID()` are the `now` and `jti` parameters. Each call uses one instant.
- Asynchrony: every call is sequential. The guard's un-awaited activity update is a `touchLands` flag. The isolation and atomicity of `dataSource.transaction` around the login's insert are not modelled.
- Auth.AuthService.Login: the insert cannot fail, because the token id is required to be fresh. A database failure inside the login's transaction is not modelled.
- `@UpdateDateColumn`: `updatedAt` changes only where the code sets it. The update that TypeORM applies on every save is not modelled.
- Accounts.UserService.Update: a save that violates a unique index returns `UniqueViolation`. In the source it is a database exception. Other save failures are not modelled.
- Relations: `relations: { user: true }` is modelled as a lookup by the session's `userId` that skips a soft-deleted user. A session whose user row is gone altogether is treated the same way.
- Transactions.ProcessTransaction: the callback is the work of the two wrappers, running a list of statements. Arbitrary callbacks are not modelled. The runner from `createQueryRunner()` is passed in fresh by the caller. Query parameters and answers are uninterpreted.
- Controllers, modules, bootstrapping and DTO validation are not part of this model. Neither is the mismatch between the login DTO's field name and the field the controller reads.

