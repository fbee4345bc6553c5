# Shared to-dos: a verified model of the backend

The backend is a web service over a handful of tables and one in-memory store. This project models
its stateful protocols in Dafny and proves what they keep over whole runs:

- **Login limiter** (`RateLimiter`, `LoginProtocol`): a pruned list of failure times per IP, and the
  login requests that check it, wait on the database, and only then record or reset.
- **Lists, items and shares** (`Permissions`, `Sharing`, `SharingInvariant`, `SharingHistory`,
  `AccessControl`, `Noninterference`, `TodoService`): every handler behind the permission
  dependency, with `create_share` split into pre-check and commit so that anything may run between:
  a set holds the suspended requests, each with the target and role it asked for.
- **Accounts, sessions, password resets and Google sign-in** (`Accounts`, `AccountsHistory`,
  `AccountsAnswers`, `ResetRace`, `AuthService`): one machine over the users, sessions and reset-token tables and the
  limiter, and a second one in which completions of a reset overlap.

## How the model is built

The handlers are methods of the classes `LoginLimiter`, `TodoService` and `AuthService`, which change
their tables in place as the source does. Each is proved against a specification function: `Recorded`
and `Check`; `Decide`, `DecideInsert` and `Apply`; `Step` of `Accounts`. The theorems are about runs of
those functions. `Sharing.Decide` says what a handler commits (at most one row written or deleted) and
answers; `Apply` commits it, cascading a list's deletion to its items and shares.

Many theorems read the tables back from the log of a run. `Histories.Latest(log, hit, clear)` says
that some entry is a hit and no later entry clears it; a table "equals its history" when a row is
there exactly if the log has such an entry. Those definitions mention requests and answers only.
What a request is answered and what it changes is stated beside them, from its own parameters, the
rows it finds and the log's roles and passwords (`Served`, `CommitEnds`, `LogsIn`, `Refuses`,
`RegistersNew`, `SignsInExisting`, `MailsReset`), not through the functions the handlers are built from.

## Assumptions

- Generated ids and tokens do not repeat. For list and item ids this is the hypothesis `FreshIds`. In
  `Accounts` nothing is assumed: a repeated id or token hits the primary key or the UNIQUE column and
  gives a 500, after the first commit where the source commits twice (the `NoSession` answers).
- SHA-256 and argon2 are the free constructors `Sha256` and `Argon2`: equal hashes, equal inputs.
- The clock does not go back, where a lemma says so (`NoneLaterThan`, `ClockMoves`, `NotAfter`).
- Handlers are atomic, except login in `LoginProtocol`, `create_share` in `Sharing` and the completion
  of a reset in `ResetRace`, which run as two steps with anything in between.
- Tables are maps keyed by primary key (or by the unique token hash). A unique constraint, a foreign
  key or the CHECK on roles answers 500, 409 or 404 exactly where the source lets it.

## Where the code and its documents differ

- After 10 failures further attempts should be refused (`docs/planning/prd-1-auth.md:77`). When k
  logins overlap the code lets up to attempts - 1 + k failures into a window (`LockoutBound`), and
  that many do occur (`LockoutBoundIsTight`).
- Reset tokens should be single-use (`docs/planning/prd-1-auth.md:137`). The code reads the token
  without locking it: serial completions succeed once (`CompletesOnce`), and k overlapping ones at
  most k times (`OverlapBoundsCompletions`), which can happen (`OverlapBoundIsTight`).
- The comment at `backend/app/shares/router.py:56` gives a deleted target user as the cause of a
  foreign-key violation. No handler deletes users; `CommitAnswers` shows that the list's deletion is
  the only cause.
- The comment at `backend/app/auth/router.py:52` promises the same body for a taken address; the
  body's `user` is null there and the account otherwise. The model keeps the two answers apart.
- Google-only accounts should be told to use Google on a reset request
  (`docs/planning/prd-1-auth.md:140`). The code answers every request alike and mails nothing to
  them (`MailGoesToPasswordAccounts`).

## Model

| member | source | states |
|---|---|---|
| RateLimiter.LoginLimiter.RecordFailedLogin | backend/app/auth/rate_limiter.py:41-50 | the store afterwards: this IP's expired times evicted, now appended, other IPs untouched |
| RateLimiter.LoginLimiter.CheckLoginRateLimit | backend/app/auth/rate_limiter.py:53-67 | 429 with the configured Retry-After from `attempts` recent failures on; changes nothing |
| RateLimiter.LoginLimiter.ResetFailedLogins | backend/app/auth/rate_limiter.py:70-74 | exactly this IP's entry is gone |
| RateLimiter.RecordEvicts | backend/app/auth/rate_limiter.py:46-50 | after a record the list holds the new time and the old ones inside the window, and nothing else |
| RateLimiter.EvictionIsInvisible | backend/app/auth/rate_limiter.py:22-74 | after any run of records and resets the pruned store decides as the full history since the last reset would |
| RateLimiter.IpsAreIsolated | backend/app/auth/rate_limiter.py:22-74 | the verdict on one IP is the one of the run with all other IPs' events removed |
| RateLimiter.ClockMustNotGoBack | backend/app/auth/rate_limiter.py:44-60 | without the clock assumption the two decisions differ, on a run of two failures |
| RateLimiter.StoresAreSorted | backend/app/auth/rate_limiter.py:46-50 | under a clock that does not go back every stored list is sorted and not later than now |
| RateLimiter.BlockedUntilUnlock | backend/app/auth/rate_limiter.py:58-61 | blocked exactly until the attempts-th newest failure leaves the window |
| LoginProtocol.LockoutInvariant | backend/app/auth/router.py:83-108 | recent failures plus logins past the check never exceed attempts - 1 + k |
| LoginProtocol.LockoutBound | backend/app/auth/router.py:83-108 | at every moment of every interleaving with at most k logins of an IP in flight, its live failures number at most attempts - 1 + k |
| LoginProtocol.LockoutBoundIsTight | backend/app/auth/router.py:83-108 | for every k from 1 on some interleaving with at most k in flight reaches that number |
| LoginProtocol.SerialIsArriveFinish | backend/app/auth/router.py:83-108 | a serial login is the two-step protocol with nothing in between |
| LoginProtocol.LockoutHolds | backend/app/auth/router.py:83-106 | every try during a lockout is refused and leaves the IP's failures as they were |
| LoginProtocol.LockoutEnds | backend/app/auth/rate_limiter.py:53-67 | a lockout admits again exactly from its unlock time, whatever was tried meanwhile; the Retry-After seconds suffice |
| SharingInvariant.OwnerActions | backend/app/authz/permissions.py:13-43 | owner-only actions are granted exactly to the list's owner |
| SharingInvariant.NeverBroken | backend/app/authz/permissions.py:48-77 | with valid role texts no wired action meets a ValueError |
| SharingInvariant.DecideIsSound | backend/app/authz/dependencies.py:60-91 | every commit comes with the ownership, existence and freshness facts that justify it |
| Sharing.StepIsDecision | backend/app/shares/router.py:22-63 | every request but the second half of create_share is answered and committed as decided (one already suspended is not begun again); only passed checks suspend a request, with the caller, target and role it asked for |
| SharingInvariant.Reachable | backend/app/models/share.py:13-26 | over every interleaving: foreign keys and role CHECK hold, no share names its list's owner, suspended creates never will |
| SharingHistory.RoleEqualsHistory | backend/app/authz/dependencies.py:60-82 | the role from the tables is the one the log gives (creator, else the role last asked for with success and not revoked or deleted since), and resolving it never raises |
| SharingHistory.ShareFromHistory | backend/app/shares/router.py:22-114 | a share row holds a role iff that is the role the latest successful create or change request asked for, with no later revocation or list deletion |
| SharingHistory.UsersFromHistory | backend/app/auth/dependencies.py:21-25 | known users are exactly those who signed up in the log |
| SharingHistory.PendingEqualsHistory | backend/app/shares/router.py:27-45 | a create_share is between its checks and its insert iff the log has its checks passed for that caller, list, target and role, with no commit since |
| SharingHistory.OwnerFromHistory | backend/app/lists/router.py:21-31 | a list belongs to exactly the creator in the log, until its deletion |
| SharingHistory.RevocationBindsNextRequest | backend/app/shares/router.py:101-114 | a revoked user is denied every action on the list from the next request on |
| SharingHistory.OnlyOwnersChangeRoles | backend/app/shares/router.py:22-114 | nobody's role on a list changes except by its owner's request or by founding the list |
| SharingHistory.RowsAreConserved | backend/app/shares/router.py:37-60 | over every interleaving, 201 answers for a pair minus revocations and cascades is 0 or 1 and tells whether the row is there |
| SharingHistory.OneWinnerPerRemoval | backend/app/shares/router.py:44-57 | between two successful creates for one pair the row was removed |
| SharingHistory.CommitAnswers | backend/app/shares/router.py:44-60 | a suspended create_share ends with 201, its requested role stored and shown, iff the role is valid, the list is there and the row is not; else 500, 409 or 404 with nothing stored; a request not suspended has no second half |
| SharingHistory.NoServerErrors | backend/app/shares/router.py:58-60 | with schema-valid roles and fresh ids no request is answered 500 |
| SharingHistory.OwnerNeverChanges | backend/app/models/list_.py:13-15 | a list's owner is the same at any two moments of its life |
| SharingHistory.DeleteIsExact | backend/app/lists/router.py:83-92 | a deletion takes the list, its items and its shares, and no other row |
| SharingHistory.DeletedForGood | backend/app/authz/dependencies.py:60-82 | after a deletion no row mentions the list, everyone is denied on it and no dashboard shows it, for the rest of the run |
| SharingHistory.ItemNeverMoves | backend/app/models/item.py:13-14 | an item keeps its list |
| SharingHistory.ItemFieldsFromHistory | backend/app/items/router.py:24-62 | each field of a live item is the last value sent: at creation, or non-null in an accepted patch |
| SharingHistory.ItemsAreCounted | backend/app/items/router.py:18-76 | a live list has as many items as successful creates minus successful deletes under its path |
| SharingHistory.NamesEqualHistory | backend/app/lists/router.py:67-80 | a live list carries the name of its creation or its latest successful rename |
| AccessControl.UnpermittedIsNotFound | backend/app/authz/dependencies.py:74-82 | unless the role the log gives suffices for the request (any to read, owner or editor for items, owner for the rest), it is answered 404 and changes nothing, on every verb |
| AccessControl.WiredActions | backend/app/authz/permissions.py:13-43 | the action wired to each endpoint is granted to exactly the roles that suffice for it, and denied to all others |
| AccessControl.SignedOutIsRefused | backend/app/auth/dependencies.py:21-25 | a caller who never signed up is answered 401 on every endpoint, and nothing changes |
| AccessControl.PermittedIsServed | backend/app/authz/dependencies.py:60-91 | if the log's role suffices, the list exists, and answer and change are exactly those the handler promises, from the request and the rows |
| AccessControl.CreateListIsServed | backend/app/lists/router.py:21-31 | a signed-up caller founds the list with the name sent and is shown it |
| AccessControl.DashboardEqualsHistory | backend/app/lists/router.py:35-53 | the dashboard holds exactly the lists on which the log gives the caller a role, with their current rows |
| AccessControl.UnknownRolesRaise | backend/app/authz/permissions.py:48-66 | a share with a role text outside the schema raises for its user, unless the owner, and nothing changes |
| AccessControl.UnknownActionsRaise | backend/app/authz/permissions.py:69-77 | an action outside the table raises for everybody but strangers |
| AccessControl.OnlyEditorsChangeItems | backend/app/items/router.py:18-76 | a list's items change only by requests of its owner or an editor |
| AccessControl.OnlyOwnersChangeLists | backend/app/lists/router.py:67-92 | a list is renamed or removed only by its owner |
| Noninterference.StrangerIsDenied | backend/app/authz/dependencies.py:3-5 | a stranger's request is decided alike on a list and on its absence |
| Noninterference.AimedElsewhere | backend/app/items/router.py:50-52 | requests on other lists decide alike with the list erased, also when they name its items |
| Noninterference.HiddenStep | backend/app/lists/router.py:20-92 | requests aimed at a list change nothing outside it |
| Noninterference.StrangerSeesNothing | backend/app/authz/dependencies.py:50-91 | dropping from a run all other users' requests aimed at a list, its creation included, leaves every answer to a lifelong stranger unchanged; the shorter run ends in the same state with the list erased |
| TodoService.TodoService.CreateList | backend/app/lists/router.py:21-31 | the new row, owned by the caller, and nothing else |
| TodoService.TodoService.ListLists | backend/app/lists/router.py:35-53 | each readable list exactly once, owned first, precisely those the permission check grants; drops nothing when owners hold no shares |
| TodoService.TodoService.GetList | backend/app/lists/router.py:57-64 | the row to whoever may read it, 404 otherwise |
| TodoService.TodoService.Guard | backend/app/authz/dependencies.py:50-91 | the permission dependency: 401, 404, 500 or let the handler run |
| TodoService.TodoService.RenameList | backend/app/lists/router.py:68-80 | tables and answer as decided |
| TodoService.TodoService.DeleteList | backend/app/lists/router.py:84-93 | tables and answer as decided, cascade included |
| TodoService.TodoService.CreateItem | backend/app/items/router.py:19-29 | tables and answer as decided |
| TodoService.TodoService.ListItems | backend/app/items/router.py:33-40 | exactly the list's items |
| TodoService.TodoService.UpdateItem | backend/app/items/router.py:44-62 | field-by-field update equals the decided patch; an item of another list is 404 |
| TodoService.TodoService.DeleteItem | backend/app/items/router.py:66-76 | tables and answer as decided; an item of another list is 404 |
| TodoService.TodoService.PrecheckShare | backend/app/shares/router.py:22-42 | 400, 404, 409 or go on, before the insert |
| TodoService.TodoService.CommitShare | backend/app/shares/router.py:44-63 | the insert under CHECK, primary key and foreign keys, with the mapping of violations |
| TodoService.TodoService.CreateShare | backend/app/shares/router.py:22-63 | checks and insert in a row: the pre-check's refusal, or the outcome of committing exactly the requested target and role |
| TodoService.TodoService.ListShares | backend/app/shares/router.py:67-72 | exactly the list's shares |
| TodoService.TodoService.ChangeRole | backend/app/shares/router.py:76-98 | tables and answer as decided, which `PermittedIsServed` pins to the requested role |
| TodoService.TodoService.RevokeShare | backend/app/shares/router.py:102-114 | tables and answer as decided |
| Accounts.BeforeAt | backend/app/auth/router.py:60 | the longest at-sign-free beginning of the address |
| Accounts.Reachable | backend/app/models/user.py:13-28 | addresses and set subjects stay unique, every account can sign in, sessions and reset tokens have users, the latter with a password |
| Accounts.AccountsStay | backend/app/auth/oauth.py:222-236 | over any stretch of a run accounts stay, with their address, a set subject, and whether they have a password |
| AccountsHistory.SessionsEqualHistory | backend/app/auth/dependencies.py:9-26 | a request is answered with a user iff its cookie was issued to that user within the time-to-live, with no later logout of it and no later reset of the user; with no cookie or any other one it is refused, and nothing ever changes |
| AccountsHistory.DecoyNeverResolves | backend/app/auth/router.py:51-58 | the decoy token of a duplicate registration never identifies anyone |
| AccountsHistory.ResolveEqualsHistory | backend/app/auth/session.py:22-29 | the session query finds the user the log gives, at any time and for any token |
| AccountsHistory.PasswordsEqualHistory | backend/app/auth/router.py:60-67 | the stored password is the one of registration or of the latest completed reset |
| AccountsHistory.LoginAcceptsLatestPassword | backend/app/auth/router.py:83-108 | a login is accepted iff the IP is not locked and the address and latest password are the account's |
| AccountsAnswers.LoginEqualsHistory | backend/app/auth/router.py:83-112 | an unlocked login giving an account's address and latest password clears the IP's failures and opens that account's session; one giving no account's is answered 401 and its time recorded |
| AccountsAnswers.LoginIsSerial | backend/app/auth/router.py:83-108 | what a login does to the limiter is the serial login of the protocol, accepted iff the log makes its address and password correct |
| AccountsHistory.GoogleAccountsStayPasswordless | backend/app/auth/oauth.py:222-231 | an account created through Google never acquires a password |
| AccountsHistory.ResetsEqualHistory | backend/app/auth/router.py:200-229 | a reset completes for a user iff its token was mailed to that user within the hour and not spent since; otherwise it is refused and nothing changes |
| AccountsAnswers.MailGoesToPasswordAccounts | backend/app/auth/router.py:144-161 | a request stores an unused token for one hour for exactly the account with the address, if it has a password; otherwise it is ignored and nothing changes |
| AccountsHistory.ValidateIffComplete | backend/app/auth/router.py:173-211 | validate accepts a token iff complete would, and changes nothing |
| AccountsHistory.CompletionIsExact | backend/app/auth/router.py:213-224 | one completion uses the token, sets the password, ends all the user's sessions, and touches no other row |
| AccountsHistory.CompletesOnce | backend/app/auth/router.py:202-211 | a token that completed a reset is refused by validate and complete for ever after |
| ResetRace.OverlapBoundsCompletions | backend/app/auth/router.py:200-224 | with at most k completions of a token between read and commit, at most k succeed over the whole run: single use when none overlap |
| ResetRace.OverlapBoundIsTight | backend/app/auth/router.py:200-224 | for every k, k overlapping completions of one token can all succeed |
| ResetRace.HeldRowsStay | backend/app/auth/router.py:213-224 | whatever runs between read and commit, the rows a completion read are still there and the invariant holds |
| ResetRace.SerialIsBeginCommit | backend/app/auth/router.py:200-224 | read and commit with nothing in between are the whole completion |
| AccountsHistory.MatchesAtMostTwo | backend/app/auth/oauth.py:216-220 | the match on subject or address hits at most two accounts |
| AccountsAnswers.AmbiguousCallbackChangesNothing | backend/app/auth/oauth.py:205-220 | a callback lacking a claim is rejected, one matching two accounts fails; neither changes anything |
| AccountsAnswers.CallbackSignsIn | backend/app/auth/oauth.py:216-238 | exactly which account a callback signs in, links (only the subject changes) or creates (with which name), by who holds the subject and the address |
| AccountsAnswers.ProfilesEqualHistory | backend/app/auth/oauth.py:205-236 | every account has the address and display name of its creation, Google's name or else the local part, and the subject of its creation or linking |
| AccountsHistory.SubjectIsStable | backend/app/auth/oauth.py:216-238 | once a subject is stored on an account, every later successful callback with it signs that account in |
| AccountsAnswers.RegistrationCreatesIfFree | backend/app/auth/router.py:48-73 | a registration founds exactly its account and session iff no account has the address, and changes nothing otherwise |
| AccountsAnswers.LockedIffLogSaysSo | backend/app/auth/router.py:83-108 | a login is answered 429, with the window as Retry-After and nothing changed, iff the log holds `attempts` logins from the IP inside the window whose address and password were no account's, with no correct one from it since |
| AccountsAnswers.OnlyOwnTables | backend/app/auth/router.py:116-191 | which tables each handler leaves alone; logout deletes exactly the session of a non-empty cookie |
| AuthService.AuthService.CreateSession | backend/app/auth/session.py:13-19 | exactly one session row added, or none when the token hash is taken |
| AuthService.AuthService.GetSessionUser | backend/app/auth/session.py:22-29 | the user of the unexpired session with this token hash |
| AuthService.AuthService.InvalidateSession | backend/app/auth/session.py:32-34 | exactly the session of this token is gone |
| AuthService.AuthService.InvalidateAllUserSessions | backend/app/auth/session.py:37-46 | exactly the sessions of other users remain |
| AuthService.AuthService.Register | backend/app/auth/router.py:43-73 | tables and answer are the machine's step |
| AuthService.AuthService.Login | backend/app/auth/router.py:77-112 | tables, limiter and answer are the machine's step |
| AuthService.AuthService.Logout | backend/app/auth/router.py:116-127 | tables and answer are the machine's step |
| AuthService.AuthService.RequireAuth | backend/app/auth/dependencies.py:9-26 | the user of the cookie, or 401 |
| AuthService.AuthService.PasswordResetRequest | backend/app/auth/router.py:139-170 | tables and answer are the machine's step |
| AuthService.AuthService.PasswordResetValidate | backend/app/auth/router.py:174-191 | the machine's answer; changes nothing |
| AuthService.AuthService.PasswordResetComplete | backend/app/auth/router.py:195-229 | all three effects together, or none |
| AuthService.AuthService.OAuthGoogleCallback | backend/app/auth/oauth.py:201-238 | tables and answer are the machine's step |

## Left out

- CompletesOnce: for handlers that run one after the other; what overlapping completions can do is `OverlapBoundsCompletions`.
- RevocationBindsNextRequest: for handlers that run one after the other, because an editor's write may commit after a revocation that ran between its check and its commit.
- Interleaving inside handlers other than login, `create_share` and the completion of a reset, transaction isolation, and errors of refreshing a row deleted meanwhile.
- The order of query results (`ORDER BY` items, unordered dashboards): answers with several rows are sets keyed by id, and the dashboard loop runs over the rows in any order.
- HTTP plumbing: routing, request schemas, cookie flags, CSRF tokens, headers other than Retry-After, logging.
- Request validation: role texts are arbitrary here and an invalid one meets the table's CHECK; lengths of names, contents and passwords are not bounded.
- Reading the client's IP, and the settings' validators: an IP and the limits are parameters.
- Delivery of reset mails, and its failures, which the source only logs.
- The steps of Google sign-in before the verified claims: state nonce, code exchange, ID-token checks.
- Timing equality of login failures, entropy of tokens, strength of hashes.
- Time stamps of rows, the migrations, and the features that exist only in planning documents.
