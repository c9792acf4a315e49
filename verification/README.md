# Verified model of the admin backend

A Dafny model of a FastAPI administration backend and proofs about it: the life of an admin account
(login, lockout, sessions, one-time codes, password reset), role-based access control (roles, screens,
grants, assignments, seeding) and the helpers with inductive content (redaction, paging, UTF-8
truncation, slugs, generated codes).

`dafny verify dfyconfig.toml` checks everything.

## How the model is built

**The account machine.** `AuthModel` gives three tables (admins, one-time codes by email key, password
history) and one step function per request. A `Run` is any sequence of requests at non-decreasing
times, from any tables; `RunExists` shows that every such sequence is one. The invariants and the
claims about whole runs are in `Lockout`, `ResetCodes`, `Sessions` and `PasswordHistory`. Two modules
refine the atomic view. In `Interleaving` login, refresh, logout and reset are a load and a commit,
and those steps of different requests interleave freely; `OverlappingResets` says which password a session
then rests on. In `Provenance` a reset may stop after any of its four commits.

**The services as they run.** `AuthService` and `RbacService` are the same operations in the source's
form: classes with mutable fields for the tables, for the loaded objects and for the request's
session, methods that change fields and commit, and the source's loops. Every request method ensures
that its reply and its final tables are exactly those of the step function, so what is proved about
steps and runs holds for the methods.

`AuthRequests` and `RbacRequests` pin the step functions from the other side: for every request they say
in which cases it gets which answer, and what each table holds afterwards, in terms of the tables, the
settings and literal values, without the functions the steps are built from.

**Access control.** `RbacModel` has the four tables and the request steps. `RbacSafety` proves the
no-lockout invariant and the facts about seeding, `Grants` the order, round trip and frame of grant
replacement, `ScreenRuns` what generated codes do over runs. `Authorisation` joins both machines in
the decision of `require_permission` and shows what that decision means.

**Modelling choices.**
- Times are integers in microseconds. A request reads the clock once.
- A stored hash is the bytes bcrypt was given, so verification is equality of truncated bytes. A char
  is a Unicode scalar value.
- A decoded token is its claims; `Malformed` is any string `decode_token` rejects. A token is rejected
  from its expiry on (section 4.1.4 of RFC 7519). Where a proof needs them distinct, token
  identifiers are fresh (section 4.1.7 of RFC 7519), which is a condition on the run.
- Lower-casing by Python and by the database are two arbitrary functions in `Settings`. A lookup that
  meets two rows ends in `MultipleRows`, as `scalar_one_or_none` does.
- The one-time code row is keyed by the email as sent, while the admin is found by folded email;
  claims about codes are per key.
- A login refused after an expired lock was cleared on the loaded object may or may not have that
  persisted by the audit write on the same session. `auditCommits` is free, and all claims hold
  either way.
- `ORDER BY created_at DESC` breaks ties by row id, an arbitrary fixed order.
- Row identifiers of roles and screens come from a counter that stands for fresh UUIDs.
- The schema's unique role names are a precondition of the methods that look a role up by name, and
  an invariant of every run from the seeded tables (`AlwaysSafe`).
- A screen code is a string: the methods and the freshness theorem do not need it to be a slug. For
  codes outside ASCII, which slugs exclude, Python's `isdigit` is wider than the model's.

**Findings.**
- Truncation makes a password check inexact exactly when the stored password has 72 bytes or more
  (`CheckIsExactIff`); the schema's limit of 13 characters rules that out.
- A reset that stops after its third commit has changed the password without using up the code
  (`CodeLivesUntilFourthCommit`), so one issued code can store two passwords
  (`OneCodeStoresTwoPasswords`).
- A reset that overlaps other requests need not end the session they open. The session rests on a
  replaced password if and only if a reset has changed it since the login's load and the last one did
  not bring it back (`CheckedIff`). Such a reset commits between the load and the commit of a request
  of the session, or had itself loaded the row when no session was stored (`SurvivedResets`); the
  latter commits after a login that is over, because the commit writes changed columns only. Both
  happen (`LoginAcrossReset`, `ResetAcrossLogin`).
- Resubmitting the grants one has just read loses the role's flags on inactive screens, which the list
  does not show, and nothing else (`ResubmissionKeepsAllIff`); a run of three requests from the seed
  gets there (`GrantLostInARun`).
- The throttle's fixed windows allow 2·max−1 codes within one window length, and that many is reached
  (`IssueRateBound`, `IssueBoundIsReached`); max itself is the bound if and only if it is 1
  (`LimitIsExactIff`).
- The docstring of `logout` speaks of the current session. The service function ends whatever session
  is stored, for any unexpired access token of the admin: the token's own if and only if the token
  names the stored one (`LogoutEndsOwnSessionIff`), and otherwise a newer one
  (`StaleLogoutEndsNewerSession`). The route asks for a current token first.

## Model

| member | source | states |
|---|---|---|
| AuthModel.RowStep | app/services/auth_service.py:62-261 | the full effect of every request on any admin row: which requests touch it and how, and that all others leave it as it was |
| AuthModel.RunExists | app/services/auth_service.py:54-261 | every clock-ordered sequence of requests is a run from any tables, so claims about runs are not vacuous |
| AuthModel.AdminsFixed | app/repositories/auth_repository.py:25-38 | no request of the account machine adds or removes an admin |
| AuthRequests.LookupFindsIff | app/repositories/auth_repository.py:12-18 | a lookup finds an admin if and only if that admin's email, and no other's, folds to what was sent, and nobody if and only if none does |
| AuthRequests.LoginIgnoresSpelling | app/repositories/auth_repository.py:13-16 | two spellings that fold to one email log in alike, in answer and tables |
| AuthRequests.IssuedClaims | app/core/security.py:28-75 | every claim of both tokens: whose, which kind and session, until when, and the permissions at issue in the access token |
| AuthRequests.UnknownLogin | app/services/auth_service.py:65-67 | nobody found: invalid credentials without a count, and no change |
| AuthRequests.LoginWhileLocked | app/services/auth_service.py:69-71 | while the lock lasts a login is refused whatever the password, with no change |
| AuthRequests.LoginWithWrongPassword | app/services/auth_service.py:72-83 | the count restarts after an expired lock; below the limit the answer names what is left and the count is stored, at the limit the account is locked for the lockout minutes |
| AuthRequests.LoginWithRightPassword | app/services/auth_service.py:84-96 | an active account gets tokens, a cleared counter and the new session; an inactive one is told so and changes at most by its expired lock |
| AuthRequests.RefreshAnswers | app/services/auth_service.py:120-160 | a refresh token of an active admin rotates the session if and only if it names the stored one; an inactive admin is told so; refusals change nothing |
| AuthRequests.OtherTokensRefused | app/services/auth_service.py:151-185 | any other token is refused by refresh and logout alike, with no change |
| AuthRequests.LogoutAnswers | app/services/auth_service.py:163-185 | an unexpired access token of an existing admin clears that admin's session and nothing else |
| AuthRequests.PayloadRefusals | app/services/auth_service.py:120-148 | exactly when a token's claims are accepted, and exactly when the refusal is for an inactive account |
| AuthRequests.CodeRequestIsSilent | app/services/auth_service.py:190-193 | a code request under any email that is not an active admin's answers like a served one and changes nothing |
| AuthRequests.CodeRequestAnswers | app/services/auth_service.py:194-220 | an active admin's request: new row, new window, counted or throttled, with every stored field |
| AuthRequests.CodeRequestTellsNothing | app/services/auth_service.py:190-220 | the answer does not tell an unknown or inactive account from an active one with room in its window |
| AuthRequests.VerifySucceedsIff | app/services/auth_service.py:223-233 | a verification succeeds if and only if an active admin sends 12345 before the row expires; it sets the mark only, and one error covers all failures |
| AuthRequests.ResetAnswers | app/services/auth_service.py:236-261 | the opaque failure, the repeated password and the completed reset, each exactly when, with the admin row, the code and the history afterwards |
| AuthRequests.ResetOfNobody | app/services/auth_service.py:239-241 | a reset for nobody fails opaquely and changes nothing |
| AuthService.GetAdminByEmail | app/repositories/auth_repository.py:12-18 | the one admin whose folded email matches, as LookupFindsIff says, none, or the error for several; the tables stay as they are |
| AuthService.Authenticate | app/services/auth_service.py:62-89 | field by field, the login decision: lock, cleared expired lock, failed check, lockout, inactive account, new session; only the admin's row changes, and only when the source saves it |
| AuthService.IssueSession | app/services/auth_service.py:92-117 | both tokens name one session, that session is stored, nothing else changes |
| AuthService.Login | app/api/v1/auth.py:45-69 | tables and reply are those of the login step, whether or not the audit write commits the session |
| AuthService.AdminOfPayload | app/services/auth_service.py:120-148 | the admin a token stands for, or the error the source raises: unknown, inactive, or not the current session |
| AuthService.Refresh | app/services/auth_service.py:151-160 | tables and reply are those of the refresh step |
| AuthService.Logout | app/services/auth_service.py:163-185 | tables and reply are those of the logout step |
| AuthService.GenerateOtp | app/services/auth_service.py:188-220 | tables and reply are those of the request-a-code step: silent for unknown or inactive accounts, new row, new window, throttled, or counted |
| AuthService.VerifyOtp | app/services/auth_service.py:223-233 | tables and reply are those of the verify step |
| AuthService.AddHistory | app/repositories/password_history_repository.py:13-21 | appends exactly one row |
| AuthService.TrimHistory | app/repositories/password_history_repository.py:34-47 | keeps the newest rows of the admin by id and every row of others; keeps everything when there is nothing to keep |
| AuthService.CheckReset | app/services/auth_service.py:237-251 | the checks of a reset, in order, with their errors; the tables stay as they are |
| AuthService.CommitReset | app/services/auth_service.py:252-260 | the four commits in order leave the tables of a completed reset |
| AuthService.UpdatePassword | app/services/auth_service.py:236-261 | tables and reply are those of the reset step |
| Passwords.EncodingIsUtf8 | app/core/security.py:15-17 | the bytes of every character are in the ranges of sections 3 and 4 of RFC 3629 and carry its code point |
| Passwords.EncodeInjective | app/core/security.py:15-17 | UTF-8 (section 3 of RFC 3629) is injective on strings |
| Passwords.CheckIsExactIff | app/core/security.py:15-25 | comparing truncated passwords is string equality for every login attempt if and only if the stored password encodes to fewer than 72 bytes |
| Passwords.AcceptedPasswordCheckIsExact | app/schemas/fields.py:18-31 | every password of accepted length fits, so any login string verifies exactly when it is the password |
| Lockout.CounterStaysOk | app/services/auth_service.py:68-87 | in every run 0 <= failed < max, and a row with a lock has a zero counter |
| Lockout.FailuresAreConserved | app/services/auth_service.py:68-87 | initial counter + failing checks = max * lockouts + forgiven failures + current counter, at every point of every run |
| Lockout.FailureRateBound | app/services/auth_service.py:68-87 | any window of the lockout length without a login or reset holds at most max failing checks of an admin |
| Lockout.LongSpanBound | app/services/auth_service.py:68-87 | a span T without a login or reset holds at most max * (T / lockout + 1) failing checks |
| Lockout.LockHoldsThroughout | app/services/auth_service.py:68-80 | in every run, from a lockout to its end the account stays locked and every login is refused without a change, unless a reset completes between |
| Lockout.LockedIff | app/services/auth_service.py:68-80 | an account that starts unlocked is locked at a request if and only if the time of an earlier lockout is running and no reset has completed since |
| Lockout.UnlockedLoginIff | app/services/auth_service.py:70-89 | when no lockout's time is running a login succeeds if and only if the password is right and the account active |
| Lockout.LockHoldsExactly | app/services/auth_service.py:68-80 | one login directly after the last allowed failure: refused unchecked before the end of the lockout, and from then on the right password is enough |
| Lockout.RemainingCountsDown | app/services/auth_service.py:74-83 | the attempts left in the reply to a wrong password are max minus the stored counter |
| ResetCodes.RunProjects | app/services/auth_service.py:188-261 | seen from one key every run is a log of issuances, verifications and resets that changes the code row by the three rules only |
| ResetCodes.RequestCountIsExact | app/services/auth_service.py:194-220 | the stored count is the number of codes issued since the window started and not used up by a reset, and none is as late as the window's end |
| ResetCodes.StoredCountIsExact | app/services/auth_service.py:194-220 | the same for the stored row of any run |
| ResetCodes.IssueRateBoundWithResets | app/services/auth_service.py:194-220 | in every run any sliding interval of the window length with R completed resets of a key holds at most (R + 2) * max - 1 codes issued for it |
| ResetCodes.IssueRateBound | app/services/auth_service.py:194-220 | any sliding interval of the window length holds at most 2 * max - 1 codes issued for a key, in every run without a completed reset for it |
| ResetCodes.IssueBoundIsReached | app/services/auth_service.py:194-220 | for all limits some run issues 2 * max - 1 codes in one interval, so the bound is sharp |
| ResetCodes.LimitIsExactIff | app/services/auth_service.py:194-220 | max bounds every window length of every reset-free run if and only if it is 1, while 2 * max - 1 always does |
| ResetCodes.ResetFollowsProtocol | app/services/auth_service.py:188-261 | every completed reset has an earlier issuance, then a verification with the right code, nothing issued or reset between, all before the code's expiry |
| ResetCodes.OneIssuancePerReset | app/services/auth_service.py:236-261 | two completed resets of a key rest on two issuances, the later one after the earlier reset |
| ResetCodes.CodeRefusedIff | app/services/auth_service.py:194-220 | an active admin's request for a code is refused if and only if the window is open and its limit used up |
| ResetCodes.ResetIsPossible | app/services/auth_service.py:188-261 | from any tables in which a code can be requested an active admin can ask for one, verify it and store any password that is not reused, at any times within its life |
| Sessions.PointerNeverReturns | app/services/auth_service.py:92-96 | in every run a session identifier that stops being the stored one never becomes it again |
| Sessions.IssuedPairIsLinked | app/core/security.py:28-75 | both tokens of a pair name the admin and the session stored by the request, with their kinds and expiries, and the access token carries that of the refresh token |
| Sessions.AcceptedIffCurrent | app/services/auth_service.py:129-148 | in any later state a token of an issued pair is accepted if and only if its session is the stored one |
| Sessions.IssuedRefreshWorksIff | app/services/auth_service.py:151-160 | an issued refresh token can be exchanged if and only if it has not expired and its session is the stored one |
| Sessions.RefreshTokenIsSingleUse | app/services/auth_service.py:151-160 | a refresh token exchanged once is refused ever after |
| Sessions.OlderPairIsRefused | app/services/auth_service.py:92-96 | once a newer pair is issued both tokens of an older one are refused in every later state |
| Sessions.ResetRestoresAccess | app/services/auth_service.py:252-260 | after a completed reset the new password logs in and the replaced one fails, whatever lock or counter stood before, until another request touches the admin |
| Sessions.ResetOrLogoutEndsSessions | app/services/auth_service.py:163-185 | a completed reset or logout makes every token accepted in any earlier state, issued in the run or before it, refused for the rest of the run |
| Sessions.ResetOrLogoutEndsOldSessions | app/services/auth_service.py:163-185 | the same for both tokens of every pair issued earlier in the run |
| Sessions.LogoutEndsOwnSessionIff | app/services/auth_service.py:163-185 | logout with any unexpired access token clears the stored session and nothing else; that is the token's own session if and only if the token names the stored one |
| Sessions.StaleLogoutEndsNewerSession | app/services/auth_service.py:175-185 | after two logins a logout with the first access token, no longer accepted, ends the second session |
| Interleaving.InvHolds | app/services/auth_service.py:92-96 | with loads and commits interleaved freely, pending commits only store identifiers that are fresh and distinct |
| Interleaving.PointerNeverReturns | app/services/auth_service.py:92-96 | a replaced session identifier never becomes the stored one again, in any interleaving |
| Interleaving.AtMostOnePairAccepted | app/services/auth_service.py:140-148 | in every interleaved state at most one issued pair has a token that is accepted for an admin |
| Interleaving.AtomicIsLoadThenCommit | app/services/auth_service.py:62-96 | a commit directly after its load leaves the admin rows of the atomic request |
| OverlappingResets.SessionDescends | app/services/auth_service.py:92-96 | in every interleaved state a stored session descends from a login's load, or the start, through refreshes that each presented the session stored at their load |
| OverlappingResets.RootIsChecked | app/services/auth_service.py:74-89 | that login checked the password stored at its load |
| OverlappingResets.CheckedIff | app/services/auth_service.py:252-260 | it checked the password stored now if and only if no reset changed it since that load or the last one brought it back |
| OverlappingResets.SurvivedResets | app/services/auth_service.py:255-259 | a reset that changes the password and leaves the session standing commits between the load and the commit of a request of its chain, or had loaded the row without a session |
| OverlappingResets.CheckedWithoutOverlap | app/services/auth_service.py:255-259 | without such resets the stored session rests on the stored password |
| OverlappingResets.LoginAcrossReset | app/services/auth_service.py:62-96 | a login that loads before a reset commits and commits after it leaves a session of the replaced password |
| OverlappingResets.ResetAcrossLogin | app/services/auth_service.py:255-259 | so does a reset that loads before a login with no session stored and commits after it |
| PasswordHistory.NewestFirstSorts | app/repositories/password_history_repository.py:24-31 | the listing is ordered newest first |
| PasswordHistory.NewestFirstPermutes | app/repositories/password_history_repository.py:24-31 | the listing has every row as often as the table |
| PasswordHistory.RecentAreNewest | app/repositories/password_history_repository.py:24-31 | the listing is as long as the limit allows, with descending times, and leaves out no later row than it takes |
| PasswordHistory.TrimKeepsLast | app/repositories/password_history_repository.py:34-47 | trimming chronological rows leaves exactly the last ones, in order |
| PasswordHistory.TrimToNothingKeepsAll | app/repositories/password_history_repository.py:39-40 | with depth 0 trimming keeps every row |
| PasswordHistory.TrimFrame | app/repositories/password_history_repository.py:34-47 | trimming never touches another admin's rows |
| PasswordHistory.TableIsLastReplaced | app/services/auth_service.py:245-259 | at every point the table holds exactly the last depth replaced passwords, listed newest first |
| PasswordHistory.NewPasswordIsNew | app/services/auth_service.py:245-251 | a completed reset sets none of the last depth + 1 passwords |
| PasswordHistory.NearbyPasswordsDiffer | app/services/auth_service.py:245-259 | any depth + 2 consecutive passwords of an admin are pairwise distinct |
| Provenance.WholeResetIsFourCommits | app/services/auth_service.py:252-260 | a reset that runs to its end is the one that stops after its fourth commit |
| Provenance.StoppedStores | app/services/auth_service.py:252-260 | what is stored after each number of commits: history, trimmed history, admin row, spent code; a refused reset stores nothing |
| Provenance.SessionHasOrigin | app/services/auth_service.py:252-260 | at every commit point a stored session descends through refreshes from a login that checked the password stored now, or from the session of the start while the password is still that of the start |
| Provenance.SessionDescends | app/services/auth_service.py:252-260 | when no session is stored at the start it is always such a login |
| Provenance.ReplacedPasswordIsOnRecord | app/services/auth_service.py:252-259 | whenever the stored password changes, wherever the reset stopped, the replaced hash is in the history |
| Provenance.CodeLivesUntilFourthCommit | app/services/auth_service.py:242-260 | after n commits a further reset passes its checks if and only if n < 4, the code has not expired and the password is not reused |
| Provenance.OneCodeStoresTwoPasswords | app/services/auth_service.py:252-260 | after one issuance and one verification a reset stopped after its third commit and a whole one store two new passwords |
| RbacService.GetRoleByName | app/repositories/role_repository.py:54-56 | the role with the name, if any |
| RbacService.EnsureNameAvailable | app/services/role_service.py:23-26 | available exactly when no other role has the name |
| RbacService.CreateRole | app/services/role_service.py:29-39 | tables and reply are those of the step |
| RbacService.StoreRole | app/repositories/role_repository.py:59-65 | setting the payload's fields one by one applies exactly the payload to the one row |
| RbacService.RolePayloadPatches | app/services/role_service.py:60-68 | applying the payload changes the provided fields and no others |
| RbacService.UpdateRole | app/services/role_service.py:58-75 | tables and reply are those of the step, with both guards of super_admin and the name check |
| RbacService.DeleteRole | app/services/role_service.py:78-87 | tables and reply are those of the step |
| RbacService.ScreenGrantsForRole | app/repositories/role_repository.py:75-100 | the rows of the left join of active screens with the role's grants |
| RbacService.GetRoleGrants | app/services/role_service.py:90-98 | those rows, or not found |
| RbacService.ReplaceRoleGrants | app/repositories/role_repository.py:103-108 | the role's grants are exactly the new ones, all others stay |
| RbacService.UpdateRoleGrants | app/services/role_service.py:101-132 | tables and reply are those of the step: protection, normalisation, unknown screens, replacement, read-back |
| RbacService.CreateScreen | app/services/screen_service.py:26-40 | tables and reply are those of the step, with the bootstrap grant |
| RbacService.UpdateScreen | app/services/screen_service.py:61-73 | tables and reply are those of the step |
| RbacService.DeleteScreen | app/services/screen_service.py:76-85 | tables and reply are those of the step |
| RbacService.EnsureCatalog | app/database/scripts/seed_rbac.py:29-34 | the loop over the catalog leaves the seeded tables |
| RbacService.AssignSuperAdmin | app/database/scripts/seed_rbac.py:37-47 | the admin holds the role afterwards, and nothing else changes |
| RbacService.JoinSelectsGrants | app/repositories/rbac_repository.py:20-29 | the rows of the four-table inner join carry exactly the grants of active held roles on active screens |
| RbacService.ScreenGrantsForAdmin | app/repositories/rbac_repository.py:17-34 | the loop over the joined rows collects exactly those grants |
| RbacService.ExpandGrants | app/services/rbac_service.py:15-22 | the loop collects exactly the permission names of the grants |
| RbacRequests.CreateRoleAnswers | app/services/role_service.py:29-32 | a role is created if and only if its name is free, with everything it was given |
| RbacRequests.UpdateRoleSucceedsIff | app/services/role_service.py:58-68 | an update succeeds if and only if the role exists, super_admin keeps its name and stays active, and the new name is free; otherwise which error |
| RbacRequests.UpdateRoleStores | app/repositories/role_repository.py:59-65 | on success each provided field has the new value, every other field and row the old one |
| RbacRequests.DeleteRoleAnswers | app/services/role_service.py:78-82 | deletion deactivates an existing role other than super_admin and touches nothing else |
| RbacRequests.UpdatedRoleGives | app/services/role_service.py:58-68 | after an update holders have what the other active roles give, and what this one gives if it is active now |
| RbacRequests.DeactivationIsImmediate | app/services/role_service.py:58-68 | deactivation by an update leaves exactly the permissions of the other active roles |
| RbacRequests.CreateScreenAnswers | app/repositories/screen_repository.py:16-31 | a screen is created if and only if its code is new, with what was given and a read and write grant for super_admin, and no other grant changes |
| RbacRequests.UpdateScreenAnswers | app/services/screen_service.py:61-66 | refused only to deactivate S1 to S4; otherwise the provided fields, and nothing else; code and id never change |
| RbacRequests.DeleteScreenAnswers | app/services/screen_service.py:76-80 | deactivates any screen but S1 to S4 and touches nothing else |
| RbacRequests.ScreenRemovalIsImmediate | app/services/screen_service.py:76-80 | deleting a screen takes exactly its two permissions from everyone |
| RbacRequests.ReplacementRefused | app/services/role_service.py:102-104 | grants of unknown roles and of super_admin are refused with no change |
| RbacRequests.AssignmentStores | app/database/scripts/seed_rbac.py:37-47 | exactly this admin gets exactly the role named super_admin |
| RbacRequests.AssignmentCreatesRole | app/database/scripts/seed_rbac.py:61-71 | without such a role it is created first, active |
| RbacRequests.CatalogAddsItsOwn | app/database/scripts/seed_rbac.py:74-100 | from any tables every screen and grant that seeding adds is that of a catalog entry |
| RbacRequests.SeedMakes | app/database/scripts/seed_rbac.py:19-34 | the role, the six screens with names and order, and their grants, from empty tables |
| RbacRequests.SeededAdminHoldsAll | app/models/enums.py:53-66 | an admin assigned after seeding holds exactly the eleven permissions that routes can require |
| RbacSafety.RequestKeepsSafe | app/services/role_service.py:58-132 | every role, screen, grant, seeding and assignment request keeps the no-lockout invariant |
| RbacSafety.SeededIsSafe | app/database/scripts/seed_rbac.py:29-34 | seeding empty tables establishes it |
| RbacSafety.AlwaysSafe | app/services/screen_service.py:17-85 | in every state of every run from the seed exactly one role is named super_admin, it is active and reads every screen, S1 to S4 are present and active, and names, codes and references are sound |
| RbacSafety.SuperAdminIsNeverLockedOut | app/services/role_service.py:58-105 | whoever ever held super_admin has S1.R, S1.W, S2.R, S3.R, S3.W, S4.R and S4.W in every later state |
| RbacSafety.AssignedAdminIsNeverLockedOut | app/database/scripts/seed_rbac.py:37-47 | the same for every admin ever assigned by the script |
| RbacSafety.SeedingOnlyAdds | app/database/scripts/seed_rbac.py:61-100 | from any tables seeding keeps every role, screen, grant and assignment as it was |
| RbacSafety.SeedingIsIdempotent | app/database/scripts/seed_rbac.py:29-34 | from any tables seeding twice is seeding once |
| RbacSafety.ReseedingIsNoOp | app/database/scripts/seed_rbac.py:29-34 | in every state of every run from the seed it changes nothing |
| Grants.ActiveScreensInOrder | app/repositories/role_repository.py:86-96 | the listing has every active screen exactly once, strictly ordered by (sort_order, code) |
| Grants.RowsAscend | app/repositories/role_repository.py:95 | rows ascend by sort order, and where that is equal by code in dictionary order |
| Grants.RowsAreScreens | app/repositories/role_repository.py:79-100 | a row is listed if and only if an active screen has its code, name and sort order and its flags are those stored, or none |
| Grants.ReplacementSucceedsIff | app/services/role_service.py:105-115 | a replacement succeeds if and only if every submitted code names an active screen; otherwise the error has exactly the other codes and nothing changes |
| Grants.ReplacementShows | app/services/role_service.py:106-132 | afterwards each listed screen shows the flags submitted last for it, write implying read, and none when none were submitted |
| Grants.OtherRolesKeepGrants | app/repositories/role_repository.py:103-108 | other roles keep their grants and read back the same list |
| Grants.OthersKeepPermissions | app/repositories/role_repository.py:103-108 | admins without the role keep exactly their permissions |
| Grants.ResubmissionReadsBack | app/services/role_service.py:90-132 | submitting the list just read is accepted and reads back the same |
| Grants.ResubmissionKeepsAllIff | app/services/role_service.py:90-132 | it keeps all the role's flags if and only if the role has none on inactive screens |
| Grants.HiddenFlagsAreLost | app/services/role_service.py:101-132 | granting an unprotected screen and deactivating it makes the next resubmission take the grant away |
| Grants.GrantLostInARun | app/services/role_service.py:101-132 | a run of three requests from the seed reaches such a state |
| Grants.RoundTripInEveryRun | app/services/role_service.py:90-132 | the round trip holds at every point of every run from the seed |
| ScreenCodes.ParsePrint | app/repositories/screen_repository.py:80-83 | parsing a printed number gives it back |
| ScreenCodes.NextScreenCode | app/repositories/screen_repository.py:75-83 | the loop computes one past the largest suffix |
| ScreenCodes.MaxSuffixIsLeast | app/repositories/screen_repository.py:79-83 | the largest suffix is no more than any bound on the suffixes in use |
| ScreenCodes.DecimalValue | app/repositories/screen_repository.py:82 | a string of digits has its decimal value, leading zeros counting nothing |
| ScreenCodes.NextCodeIsOnePast | app/repositories/screen_repository.py:79-83 | the generated code is S and a number, larger than that of every such code and one past some, or 1 |
| ScreenCodes.NextCodeIsFresh | app/repositories/screen_repository.py:75-83 | the generated code is a slug that no screen has, leading zeros included |
| ScreenRuns.CreateScreenFailsIff | app/services/screen_service.py:26-32 | creating a screen reports a duplicate if and only if a code was given that exists |
| ScreenRuns.GeneratedCodeIsUsed | app/services/screen_service.py:26-40 | without a code it succeeds and adds one screen with a new slug |
| ScreenRuns.CodesGrow | app/repositories/screen_repository.py:86-99 | no request removes or changes a screen code |
| ScreenRuns.LaterCodesAreLarger | app/repositories/screen_repository.py:75-83 | over any run suffixes of codes generated later are strictly larger |
| Authorisation.PermissionsAreHeld | app/services/rbac_service.py:10-22 | a permission is in the computed set if and only if an active role of the admin grants it on an active screen |
| Authorisation.ReadComesFromItsScreen | app/services/rbac_service.py:17-21 | a role gives the read permission of a screen only through its own grant on that screen |
| Authorisation.GrantedIff | app/api/deps.py:24-63 | a request passes if and only if its token is an unexpired access token of an active admin with the stored session, and the admin holds the permission; it is denied exactly when only the last part fails |
| Authorisation.UnauthenticatedIff | app/api/deps.py:24-45 | a request is attributed to nobody if and only if its token speaks for nobody, and told inactive exactly for an unexpired access token of an inactive admin |
| Authorisation.ClaimedPermissionsIgnored | app/api/deps.py:57-60 | the decision does not depend on the permissions a token claims |
| Authorisation.RoleRemovalIsImmediate | app/services/role_service.py:78-82 | deactivating a role leaves exactly the permissions of the other active roles |
| Authorisation.IssuedTokenOpensIff | app/api/deps.py:36-63 | an issued access token passes in a later state if and only if its lifetime lasts, its session is stored and the tables grant the permission |
| Authorisation.LogoutRevokesToken | app/api/v1/auth.py:236-244 | logging out with an accepted token succeeds, and the token is refused from then on |
| Authorisation.SuperAdminPasses | app/api/deps.py:48-63 | with a current token whoever ever held super_admin passes all administration checks, at every point of every run |
| Authorisation.GetCurrentAdmin | app/api/deps.py:36-45 | resolves the admin and makes it the ambient actor, or reports the error and leaves the actor alone |
| Authorisation.CheckPermission | app/api/deps.py:48-84 | decides as stated, leaves the ambient actor as it was unless granted, and records exactly one entry for a denial |
| Authorisation.DenialSays | app/api/deps.py:66-84 | the entry of a denial: action, actor, details and request fields |
| Authorisation.DenialIsFiledUnder | app/api/deps.py:87-99 | the resource type of each screen's permissions |
| Redaction.RedactMasks | app/utils/redact.py:17-26 | afterwards every sensitive key, at any depth, holds the mask |
| Redaction.FixedIffMasked | app/utils/redact.py:17-26 | redaction changes nothing if and only if nothing is left to mask |
| Redaction.RedactTwice | app/utils/redact.py:29-33 | redaction is idempotent |
| Redaction.ClearPlacesStay | app/utils/redact.py:17-26 | at every place not under a sensitive key the keys, lengths and leaves are the same |
| Redaction.SensitivePlacesMasked | app/utils/redact.py:25-26 | the first sensitive field on the way to any place holds the mask only |
| Redaction.CredentialsAreMasked | app/utils/redact.py:5-33 | wherever a redacted dictionary has a field named password, new_password, confirm_password, hashed_password, access_token, refresh_token or otp, it holds *** |
| Redaction.OtherPlacesAreKept | app/utils/redact.py:5-33 | every place not under one of these seven names keeps its leaf, keys or length, and no place is added |
| Audit.EntryParts | app/services/audit_service.py:33-52 | each part of an entry is the redacted part of the same name; a given actor wins, the ambient one stands in for none |
| Audit.EntryHidesCredentials | app/services/audit_service.py:45-48 | in details, payload and response, at any depth, a field with one of the seven names holds *** |
| Audit.RecordEntry | app/services/audit_service.py:17-54 | appends the redacted entry with the given or ambient actor, or nothing when the write fails; the log stays fully masked |
| Audit.LogGrowsMasked | app/services/audit_service.py:38-54 | over any sequence of writes the log only grows and every entry is fully masked |
| Paging.PagesPartition | app/utils/pagination.py:1-2 | pages 1 to total_pages, one after the other, are all matching rows in order |
| Paging.ListingHolds | app/repositories/role_repository.py:40-47 | a listing's rows are the matching rows from its offset on |
| Paging.ListingCounts | app/schemas/common.py:21-29 | it names its page and limit, counts all matching rows, and the pages are the fewest that hold them |
| Paging.PageSizes | app/schemas/common.py:21-29 | every page before the last is full, the last is not empty, later ones are empty |
| Slug.SlugCharacters | app/utils/validate.py:5 | the allowed characters are ASCII letters and digits, and the hyphen between them |
| Slug.SlugIsThePattern | app/utils/validate.py:5-12 | the pattern's strings are exactly the non-empty ones of allowed characters with no hyphen at an end or next to another |

## Left out

- Lockout.FailureRateBound: requests are atomic; the counter is read and written without a row lock, so overlapping logins can exceed the bound.
- Lockout.LongSpanBound: the same, and the lockout length is taken as positive so that the quotient exists.
- ResetCodes.IssueRateBoundWithResets: requests are atomic, and the count stored at the start is within the limits.
- Interleaving.PointerNeverReturns: an UPDATE writes the columns the request changed, as the ORM does; code and history rows are not part of that machine.
- Interleaving.AtomicIsLoadThenCommit: stated for the requests that commit the admin row, themselves or by the audit write after a refused login.
- OverlappingResets.SessionDescends: the checks of a reset on code and history are taken as passed, so a reset may bring any password.
- Provenance.ReplacedPasswordIsOnRecord: `created_at` grows from one history row of the admin to the next.
- PasswordHistory.TableIsLastReplaced: the admin starts without history and `created_at` grows from reset to reset; with depth 0 trimming keeps everything (`TrimToNothingKeepsAll`).
- Provenance.SessionHasOrigin: requests other than a stopped reset are atomic here; overlapping ones are the subject of OverlappingResets.
- Passwords.AcceptedPasswordCheckIsExact: uses the length limits of an accepted password; the character classes of the strength pattern are not modelled and only narrow the set.
- Paging.PagesPartition: rows have a fixed total order; the listings order by a time alone, which leaves ties to the database.
- RbacService.UpdateScreen: the payload is applied field by field rather than by a loop over a dictionary.
- Sessions.IssuedPairIsLinked: expiries are exact; the JWT library compares whole seconds, and the email, username and roles claims are not modelled. Token lifetimes are positive, since a refresh token is decoded as soon as it is made.
- bcrypt, JWT signing, SQL and the ORM's caching of loaded rows are reduced to values, maps and sequences; a commit never fails.
- One clock reading per request; `update_password` reads the clock twice.
- `asyncio.timeout` and the artificial delay in `login`: cancellation points belong to the runtime.
- Surrogate code points, which Python strings can hold and UTF-8 cannot encode.
- Column length limits, and database collation of screen codes: codes are ordered by their characters.
- HTTP routing, middleware, response envelopes, exception handlers, tracing, logging, configuration and migrations: no state worth proving.
- Users, zones and query categories: they repeat the uniqueness checks of roles.
- `seed_admin.py` rewrites hashes outside the service rules; runs start after it. The loop of `seed` over all admins repeats the assignment step.
- Audit entries of requests other than a denied one: they go through `RecordEntry` with other arguments.
