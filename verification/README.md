# score-counter services in Dafny

A model of the two bookkeeping services of the score-counter browser app. The
auth service keeps a list of credential records and a "current user" entry. The
session service keeps a list of numeric-score sessions, each owned by a user.
Each session is active until it is ended. Both services read and write the
browser's local key-value store.

The store is an immutable record `Storage.Store` with one field per key:
`users`, `currentUser` and `sessions`. `None` means nothing is stored under that
key. Each service operation is a pure function from a store to a new store, plus
the value it returns when it returns one. The session service reads the same
`currentUser` entry that the auth service writes. That link is modelled
directly: `Lifecycle.LoginSetsCurrentUserId` and
`Lifecycle.LogoutClearsCurrentUserId` state it.

Modules:
- `Wrappers`: `Option`.
- `ArrayOps`: the JavaScript array methods the services use (`find`, `some`, `filter`).
- `Models`: `User` and `Session` records.
- `Storage`: the store.
- `Auth`: `register`, `login`, `logout`, `getCurrentUser`, `getUsers`.
- `Sessions`: the session service, including the score statistics.
- `Lifecycle`: properties that relate several operations.

This is the numeric-score version of the session service, and the model follows
its code:
- `startSession` does not end a session the user already has open (later
  versions of the app do). It only appends the new one. As a result `getActiveSession` keeps returning the older
  session (`Lifecycle.StartWhileActiveKeepsOlder`). The dashboard disables its
  start button while a session is active.
- This version has no session names, win/loss options, event log, `deleteSession`,
  `removeEvent` or storage migration. Those belong to later versions of the
  service that are not part of this model.

## Model

| member | source | states |
|---|---|---|
| ArrayOps.FindIndex | src/app/services/session.service.ts:31 | `find` stops at the first element that satisfies the predicate; returns nothing exactly when no element does |
| ArrayOps.Any | src/app/services/auth.service.ts:15 | `some` is true exactly when some element satisfies the predicate |
| ArrayOps.Filter | src/app/services/session.service.ts:53 | every kept element satisfies the predicate and comes from the list; every satisfying element is kept |
| ArrayOps.FilterCount | src/app/services/session.service.ts:53 | `filter` keeps each satisfying value as many times as it occurs and drops every other value entirely |
| ArrayOps.FilterAppend | src/app/services/session.service.ts:53 | filtering distributes over concatenation, so kept elements stay in stored order |
| Auth.GetUsers | src/app/services/auth.service.ts:41-44 | the user list is empty when nothing is stored under the users key, and is the stored list otherwise |
| Auth.Register | src/app/services/auth.service.ts:13-20 | succeeds exactly when no stored user has the username; a failure leaves the store unchanged; a success appends the record at the end, so the list grows by one |
| Auth.RegisterPreservesUnique | src/app/services/auth.service.ts:13-20 | registration keeps stored usernames pairwise distinct |
| Auth.RegisterTwiceFails | src/app/services/auth.service.ts:15 | a second registration of the same username fails, whatever the password |
| Auth.Login | src/app/services/auth.service.ts:22-30 | succeeds exactly when a stored record has both the username and the password; the first such record becomes the current user; a failure changes nothing; the user list is never changed |
| Auth.RegisterThenLogin | src/app/services/auth.service.ts:13-30 | right after a successful registration, the same credentials log in, and the current user is the registered record |
| Auth.GetCurrentUser | src/app/services/auth.service.ts:36-39 | the stored current-user record, or nothing when the key is unset |
| Auth.LoginThenGetCurrentUser | src/app/services/auth.service.ts:22-39 | after a successful login, `getCurrentUser` returns the first record with both credentials; after a failed login it returns what it returned before |
| Auth.Logout | src/app/services/auth.service.ts:32-34 | afterwards `getCurrentUser` returns nothing; the users and sessions are untouched |
| Sessions.GetCurrentUserId | src/app/services/session.service.ts:12-15 | the empty string when no current user is stored, else the current user's username |
| Sessions.GetSessions | src/app/services/session.service.ts:69-72 | the session list is empty when nothing is stored under the sessions key, and is the stored list otherwise |
| Sessions.SaveAllSessions | src/app/services/session.service.ts:74-76 | after the write, reading the sessions gives back exactly the written list; the other keys are untouched |
| Sessions.SaveSession | src/app/services/session.service.ts:78-82 | the stored list gains exactly the given session at its end |
| Sessions.Ended | src/app/services/session.service.ts:33-34 | an ended session is inactive and has the end date set; id, owner, start date and scores are kept |
| Sessions.Scored | src/app/services/session.service.ts:43 | a scored session has the score appended after its old scores; every other field is kept |
| Sessions.StartSession | src/app/services/session.service.ts:17-27 | exactly one session is appended at the end: fresh id, owned by the current user, active, no scores, no end date; every previously stored session is unchanged |
| Sessions.EndSession | src/app/services/session.service.ts:29-37 | when the first session with the id is active, it becomes inactive with the end date set, and nothing else changes; when the id is absent or that session is inactive, the store is unchanged |
| Sessions.AddScore | src/app/services/session.service.ts:39-46 | when the first session with the id is active, the score is appended to its scores (length grows by one), and nothing else changes; when the id is absent or that session is inactive, the store is unchanged |
| Sessions.GetActiveSession | src/app/services/session.service.ts:48-50 | the first stored session that is active and owned by the current user; nothing exactly when no such session exists |
| Sessions.GetUserSessions | src/app/services/session.service.ts:52-54 | lists only sessions owned by the current user, and lists every one of them as many times as it is stored |
| Sessions.UserSessionsInStoredOrder | src/app/services/session.service.ts:52-54 | splitting the stored list at any point splits the user's sessions at the same point, so they come in stored order |
| Sessions.MaxOf | src/app/services/session.service.ts:63 | `Math.max` over the scores returns one of the scores, and it is at least every score |
| Sessions.MinOf | src/app/services/session.service.ts:64 | `Math.min` over the scores returns one of the scores, and it is at most every score |
| Sessions.ReduceIsSum | src/app/services/session.service.ts:61 | the `reduce` left fold with `+` from an initial value adds the scores' sum to that value |
| Sessions.SumAppend | src/app/services/session.service.ts:43 | appending a score adds it to the sum |
| Sessions.GetSessionStats | src/app/services/session.service.ts:56-67 | with no scores, total, max and min are 0 and count is absent; otherwise total is the sum, count is the number of scores, and max and min are scores that bound every score, so min <= max |
| Sessions.ScoredStats | src/app/services/session.service.ts:39-67 | adding a score raises the total by that score and the count by one; it becomes the new max or min exactly when it beats the old one |
| Lifecycle.EndSessionIdempotent | src/app/services/session.service.ts:29-37 | ending a session twice equals ending it once, whatever the second timestamp |
| Lifecycle.AddScoreAfterEndIsNoOp | src/app/services/session.service.ts:39-46 | once a session is ended, adding a score to it changes nothing |
| Lifecycle.StartThenActive | src/app/services/session.service.ts:17-27 | a user with no active session who starts one gets that session as their active session |
| Lifecycle.StartWhileActiveKeepsOlder | src/app/services/session.service.ts:17-27 | starting a session while one is active leaves the older session active, and it is still the one reported as active |
| Lifecycle.StartExtendsUserSessions | src/app/services/session.service.ts:52-54 | after a start, the user's session list is the old list followed by the new session |
| Lifecycle.FreshSessionLifecycle | src/app/services/session.service.ts:17-46 | with a fresh id, start then one score then end: one session is appended (inactive, with that score and both dates) and earlier sessions are unchanged |
| Lifecycle.LoginSetsCurrentUserId | src/app/services/auth.service.ts:22-30 | after a successful login, the session service's current user id is the username that logged in |
| Lifecycle.NothingStored | src/app/services/session.service.ts:69-72 | with nothing stored, both services see no users, no current user, no sessions and no active session |
| Lifecycle.LogoutClearsCurrentUserId | src/app/services/auth.service.ts:32-39 | after logout there is no current user, the current user id is empty, and the users and sessions are unchanged |

Helpers without a row: `Sessions.Reduce` is the `reduce` fold at
src/app/services/session.service.ts:61; its row is `Sessions.ReduceIsSum`.
`Sessions.Sum` is the reference sum that fold is compared with. `HasId`,
`OwnedBy`, `ActiveOwnedBy`, `Auth.NamedAs` and `Auth.HasCredentials` are the
predicates the lists are searched with.

## Left out

- ArrayOps.Filter: its own contract states membership only. The number of copies kept is stated by `ArrayOps.FilterCount` and the order by `ArrayOps.FilterAppend`. Keeping them in one contract made every proof that unfolds `Filter` too costly.
- `avg` in `getSessionStats`: it divides floating-point numbers and formats the result with `toFixed`, and floating point is out of scope.
- Scores are JavaScript `number`s. The model uses unbounded integers: no fractions, no NaN, no rounding.
- Id generation (`Date.now()` and `Math.random()`): this is nondeterministic. `StartSession` takes the new id as a parameter. Nothing forces the id to be fresh, because the source does not guarantee that either. With a duplicated id, `endSession` and `addScore` act on the earliest session that has it.
- `new Date()`: the current time is a `nat` parameter `now`.
- `localStorage` and the JSON encoding: the store holds decoded values, and encoding then decoding gives the value back unchanged. A malformed stored value would make `JSON.parse` throw, and the model has no such state.
- The objects returned by `getActiveSession` and `getUserSessions` are copies in the source. The model returns values, so aliasing does not arise.
- The login, register and dashboard components, routing and app configuration: these are views and wiring that only call the services.
- The route guards and `user.model.ts` are not part of this model.
