# Goal tracker back end: a Dafny model

This project models the Express back end of a personal goal tracker. Users
register and log in. They keep **goals**, split each goal into
**milestones** and record dated **logs** (with up to three images) against a
milestone.

- **Counters.** Each goal counts its milestones, its finished milestones and
  its logs. Each milestone counts its logs.
- **Sessions.** Each user has one session-token slot (`refreshToken`) that
  login fills, refresh rotates and logout empties.
- **Guard.** Every resource route sits behind a guard that reads a
  `Bearer <token>` header.

## Layout

- **`Records.dfy`** holds the four tables (`User`, `Goal`, `Milestone`,
  `Log`), the status codes, and the `Store` class: the four collections as
  map fields that the handlers update in place.
- **One file per route file.** `Goals.dfy`, `Milestones.dfy`, `Logs.dfy`,
  `Auth.dfy` and `Users.dfy` follow the same pattern for each route:
  - a specification function from the collections before the request to an
    `Outcome` (status code plus collections after), with its contract;
  - a handler method on `Store` that updates the fields step by step, in the
    route's own order, and is proved to produce exactly that outcome;
  - GET routes are read-only methods with their own contracts.
- **`Middleware.dfy`** models the guard `verifyUser`: header parsing, then
  an update of the request's `user` field.
- **`Jwt.dfy`** is a transparent stand-in for jsonwebtoken and bcryptjs.
  - A token is its claims, escaped and joined by dots behind a tag naming
    the secret.
  - Verifying a signed token gives its claims back.
  - The two secrets reject each other's tokens.
  - A token never contains a space.
- **`Counters.dfy`** states that every counter equals the number of records
  naming it. It proves which handlers keep that and which break it.
- **`Sessions.dfy`** states that every non-empty slot holds a refresh token
  naming its own user. It proves the session life cycle on top of that:
  - register then login;
  - login then refresh;
  - rotation and reuse detection;
  - logout then refresh.
- **`Scenario.dfy`** follows one goal through its life on an empty store (one lemma).

### Inputs the handlers receive as parameters

Values that come from outside the handler are parameters:

- the caller's id (the identity the guard attached);
- request fields (an absent field is `""`, because JavaScript treats it as
  false);
- the id a new record receives;
- the time a token is issued;
- whether the request carried a `jwt` cookie (`hadCookie` in logout);
- the image paths the upload middleware stored;
- the record a `findOne` on a non-key field returns. This is constrained by
  a predicate: `FindsByEmail` or `FindsBySlot`.

Where a handler dereferences a record that is missing, JavaScript throws a
TypeError. Express answers that with 500. The model keeps every save done
before the throw.

### Version chosen where the source is faulty

For each fault listed under Findings, the model has an as-written member and
a corrected one. The `Store` handler methods choose as follows:

- **Crashes that make a route useless** (register, log create, user edit):
  the handler methods follow the corrected definition, and the as-written
  definition sits beside it.
- **Logic quirks** (`finish`, milestone delete, the milestone lists,
  logout): the handler methods follow the code as written.
- **Invariant and life-cycle lemmas** use the corrected definitions.

## Model

| member | source | states |
|---|---|---|
| Records.WithoutLogsOfMilestone | server/routes/milestones.js:161 | `deleteMany({milestoneId})` keeps exactly the logs of other milestones, unchanged |
| Records.WithoutLogsOfGoal | server/routes/goals.js:115 | `deleteMany({goalId})` on logs keeps exactly the logs of other goals, unchanged |
| Records.WithoutMilestonesOfGoal | server/routes/goals.js:118 | `deleteMany({goalId})` on milestones keeps exactly the milestones of other goals, unchanged |
| Jwt.Split | server/middleware/verify.js:7 | `split(' ')`: the first piece is the longest separator-free prefix, followed by the separator or the end; there are at least two pieces exactly when the separator occurs |
| Jwt.SignAccess | server/routes/auth.js:59-70 | an access token never contains a space |
| Jwt.SignRefresh | server/routes/auth.js:73-81 | a refresh token never contains a space |
| Jwt.VerifySignedAccess | server/middleware/verify.js:9-13 | verifying an access token with the access secret returns exactly the userData and issue time it was signed with |
| Jwt.VerifySignedRefresh | server/routes/auth.js:136-141 | verifying a refresh token with the refresh secret returns the user id and issue time it was signed with |
| Jwt.SecretsDistinct | server/routes/auth.js:68-79 | a token signed with one secret fails verification with the other |
| Jwt.SignRefreshInjective | server/routes/auth.js:169-177 | two refresh tokens are equal only for the same user and issue time |
| Jwt.MatchesUpToLimit | server/routes/auth.js:24-56 | `compare` accepts a password against its own hash, and another password exactly when both agree on the first 72 characters bcryptjs reads; up to that length only the same password matches |
| Jwt.LongPasswordsCollide | server/routes/auth.js:24-56 | two passwords sharing their first 72 characters match each other's hash, whatever follows |
| Middleware.ExtractToken | server/middleware/verify.js:7 | the token is the space-free run right after `"Bearer "`, ended by a space or the end of the header |
| Middleware.SecondComponent | server/middleware/verify.js:7 | the header `"Bearer a b"` yields the token `"a"` |
| Middleware.BearerRoundTrip | server/middleware/verify.js:5-7 | a space-free token passes the prefix test and is extracted unchanged from its `Bearer` header |
| Middleware.VerifyUser | server/middleware/verify.js:3-24 | a missing header or one without the `"Bearer "` prefix gives 401; a token that fails verification gives 403; in both cases `req.user` is unchanged and `next` is not reached; otherwise `req.user` is exactly the decoded firstName, lastName, id and profilePicture and `next` is reached |
| Middleware.AccessTokenPasses | server/middleware/verify.js:9-21 | an access token issued at login passes the guard with the identity it was signed with |
| Middleware.RefreshTokenRefused | server/middleware/verify.js:9-13 | a refresh token presented as a bearer token fails verification (403) |
| Goals.GetGoals | server/routes/goals.js:12-42 | by id: 404 if absent, else 403 if not the caller's, else 200 with that goal; by userId: 403 unless it is the caller, 404 if the caller has no goals, else exactly the caller's goals; neither parameter: no response |
| Goals.CreateGoal | server/routes/goals.js:47-73 | a missing field gives 400; a title used by any goal of any user gives 409; both leave the store unchanged; otherwise exactly one goal is added, owned by the caller, with the form's fields and the starting counter value |
| Goals.PostGoal | server/routes/goals.js:47-73 | the handler's new store and status are those of `CreateGoal` |
| Goals.EditGoal | server/routes/goals.js:78-101 | 404 if absent, 403 if not owned, both without change; otherwise only that goal changes: its four editable fields take the form's values, owner and counters are kept, 200 |
| Goals.PutGoal | server/routes/goals.js:78-101 | the handler's new store and status are those of `EditGoal` |
| Goals.RemoveGoal | server/routes/goals.js:106-127 | 404 or 403 without change; otherwise the goal, exactly its milestones and exactly its logs are removed; other records and users stay unchanged |
| Goals.DeleteGoal | server/routes/goals.js:106-127 | the handler's new store and status are those of `RemoveGoal` |
| Milestones.GetMilestones | server/routes/milestones.js:12-61 | by id: 404 / 403 / 200 with the milestone; the userId and goalId branches list goal records (the caller's goals, or nothing when the unknown `goalId` filter is kept), never milestones |
| Milestones.GetMilestonesFixed | server/routes/milestones.js:26-58 | with the Milestone table queried: by userId, exactly the caller's milestones; by goalId, exactly the caller's milestones of that goal; 403 / 404 as in the source, and 200 exactly when the list is non-empty |
| Milestones.CreateMilestone | server/routes/milestones.js:67-99 | a missing field gives 400; an unknown goal or an existing (title, endDate, goalId) triple gives 409; both leave the store unchanged; otherwise one incomplete milestone owned by the caller is added and only its goal's `numOfMilestones` rises by 1 |
| Milestones.PostMilestone | server/routes/milestones.js:67-99 | the handler's new store and status are those of `CreateMilestone` |
| Milestones.EditMilestone | server/routes/milestones.js:105-147 | 404, 403 and a missing goal under finish/resume (500) change nothing. `finish` completes the milestone and raises the goal's finished count by 1 whatever the previous state. `resume` on a complete milestone clears it and lowers the count by 1, and on an incomplete one changes nothing. Any other selector overwrites only title, description and endDate |
| Milestones.PutMilestone | server/routes/milestones.js:105-147 | the handler's new store and status are those of `EditMilestone` |
| Milestones.EditMilestoneFixed | server/routes/milestones.js:117-125 | under `finish`, the goal's finished counter rises by one exactly when the milestone was incomplete and stays put exactly when it was complete (then nothing changes); every other request behaves as written |
| Milestones.FinishTwiceCountsTwice | server/routes/milestones.js:117-124 | as written, two `finish` requests raise the finished count by 2 |
| Milestones.FinishFixedIdempotent | server/routes/milestones.js:117-125 | corrected, a second `finish` leaves the store as the first left it |
| Milestones.FinishThenResume | server/routes/milestones.js:117-135 | finish then resume restores the goal table, and the whole store when the milestone started incomplete |
| Milestones.RemoveMilestone | server/routes/milestones.js:152-176 | 404 or 403 without change. A missing goal gives 500 after the milestone's logs are deleted. Otherwise the milestone and exactly its logs are removed, while the goal table stays unchanged because the lowered counters are never saved |
| Milestones.DeleteMilestone | server/routes/milestones.js:152-176 | the handler's new store and status are those of `RemoveMilestone` |
| Milestones.RemoveMilestoneFixed | server/routes/milestones.js:164-170 | like the as-written delete, but the goal's `numOfMilestones` drops by 1 and its finished count by 1 exactly when the milestone was complete |
| Milestones.CreateThenRemoveFixed | server/routes/milestones.js:80-170 | creating a milestone and then deleting it with the corrected delete restores the whole store |
| Logs.GetLogs | server/routes/logs.js:13-89 | by id: 404 / 403 / 200; by userId: 403 before any lookup, 404 when empty, else exactly the caller's logs; by milestoneId or goalId: 404 for an unknown parent, 403 for another user's parent, else exactly the logs naming it; by date: exactly the caller's logs on that date; in every branch 200 exactly when the answer is non-empty, and no reply when no parameter is given |
| Logs.CreateLog | server/routes/logs.js:105-153 | more than 3 images gives 500, a missing field 400, an unknown goal or milestone 404, all without change; otherwise the log is added with at most 3 images, and the goal's and the milestone's `numOfLogs` each rise by exactly 1 |
| Logs.CreateLogAsWritten | server/routes/logs.js:92-137 | as written, no request creates a log: a request with files fails in the upload middleware, and one without reaches the undeclared `images` and gives 500; the refusals 400 and 404 are as in the corrected handler |
| Logs.AsWrittenNeverCreates | server/routes/logs.js:123-137 | where the corrected handler creates a log the as-written one answers 500 with the store unchanged; without files, the two agree on every refusal |
| Logs.PostLog | server/routes/logs.js:110-153 | the handler's new store and status are those of `CreateLog` |
| Logs.RemoveLog | server/routes/logs.js:158-182 | 404 or 403 without change. A missing goal gives 500 without change. A missing milestone gives 500 after the goal's count was lowered and saved. Otherwise only that log is removed and the goal's and milestone's `numOfLogs` each drop by 1 |
| Logs.DeleteLog | server/routes/logs.js:158-182 | the handler's new store and status are those of `RemoveLog` |
| Logs.CreateThenRemove | server/routes/logs.js:143-176 | creating a log and deleting it restores every table, both counters included |
| Auth.RegisterAsWritten | server/routes/auth.js:11-40 | as written: a missing field or a used address gives 400, an unused address gives 500, and the store never changes |
| Auth.Register | server/routes/auth.js:11-40 | a missing field or a used address gives 400 without change; otherwise exactly one user is added, with the hashed password, as the only holder of that address; the as-written handler gives 500 there |
| Auth.PostRegister | server/routes/auth.js:11-40 | the handler's new store and status are those of `Register` |
| Auth.Login | server/routes/auth.js:45-96 | missing email or password gives 401, unknown email 404, wrong password 403, none touching any slot or cookie. On success only that user's slot changes: it holds the new refresh token, which is also set as the cookie. The access token verifies to the user's identity |
| Auth.PostLogin | server/routes/auth.js:45-96 | the handler's new store, status, token and cookie are those of `Login` |
| Auth.Logout | server/routes/auth.js:101-117 | 403 when the caller is not `:id`, 404 when the lookup finds nobody, both without change and the cookie kept; otherwise the slot of the user the lookup returned is emptied, and the cookie is cleared exactly when the request carried one |
| Auth.LogoutMissesCaller | server/routes/auth.js:105-110 | as written, when the lookup returns another user the caller's own token survives the logout |
| Auth.LogoutFixed | server/routes/auth.js:101-117 | looking the caller up by `_id`: 403 / 404 as before, otherwise the caller's own slot is emptied and the cookie cleared exactly when the request carried one |
| Auth.PostLogout | server/routes/auth.js:101-117 | the handler's new store, status and cookie are those of `Logout` |
| Auth.Refresh | server/routes/auth.js:122-189 | no cookie gives 401. A cookie no slot holds gives 403, and if it verifies as a refresh token naming an existing user, only that user's slot is emptied. A held cookie gives 200: only the holder's slot changes, to a new refresh token that is also the new cookie, and the new access token names the holder |
| Auth.GetRefresh | server/routes/auth.js:122-189 | the handler's new store, status, token and cookie are those of `Refresh` |
| Users.ProfileHidesSecrets | server/routes/users.js:17-29 | two records have the same profile exactly when they differ at most in password hash and session token |
| Users.GetUser | server/routes/users.js:10-30 | 403 when the caller is not `:id`, 404 when absent, else 200 with only id, names, picture, email and creation time |
| Users.EditUser | server/routes/users.js:52-76 | 403, then 400 unless `edit` is `"true"`, then 404, then 500 without a file, all without change; otherwise only that user changes, in exactly picture, first name, last name and email |
| Users.EditUserAsWritten | server/routes/users.js:34-76 | as written no request edits a user: with a file the upload middleware fails, and without one the handler fails on `req.file.path` |
| Users.PutUser | server/routes/users.js:52-76 | the handler's new store and status are those of `EditUser` |
| Users.RemoveUser | server/routes/users.js:79-91 | 403 / 404 without change; otherwise only the user record is removed, while goals, milestones and logs are untouched |
| Users.DeleteUser | server/routes/users.js:79-91 | the handler's new store and status are those of `RemoveUser` |
| Counters.CreateGoalKeepsMilestoneCounts | server/routes/goals.js:57-63 | a goal created with counters 0 keeps every milestone counter exact |
| Counters.EditGoalKeepsMilestoneCounts | server/routes/goals.js:87-94 | editing a goal keeps every milestone counter exact |
| Counters.RemoveGoalKeepsMilestoneCounts | server/routes/goals.js:115-121 | deleting a goal with its cascade keeps every milestone counter exact |
| Counters.CreateMilestoneKeepsMilestoneCounts | server/routes/milestones.js:80-93 | creating a milestone keeps every milestone counter exact |
| Counters.FinishIncompleteKeepsMilestoneCounts | server/routes/milestones.js:117-124 | finishing an incomplete milestone keeps the counters exact |
| Counters.ResumeKeepsMilestoneCounts | server/routes/milestones.js:127-135 | resume keeps the counters exact |
| Counters.EditFixedKeepsMilestoneCounts | server/routes/milestones.js:116-146 | the corrected edit keeps the counters exact for every selector |
| Counters.FinishCompleteBreaksMilestoneCounts | server/routes/milestones.js:117-124 | as written, finishing a complete milestone leaves its goal's finished count wrong |
| Counters.RemoveFixedKeepsMilestoneCounts | server/routes/milestones.js:164-170 | the corrected delete keeps the counters exact |
| Counters.RemoveAsWrittenBreaksMilestoneCounts | server/routes/milestones.js:164-170 | as written, every successful delete leaves the goal's `numOfMilestones` wrong |
| Counters.CreateLogKeepsCounts | server/routes/logs.js:139-147 | creating a log keeps all milestone and log counters exact |
| Counters.LogCountsAfterInsert | server/routes/logs.js:143-147 | adding one log and raising its goal's and milestone's `numOfLogs` by 1 keeps the log counters exact |
| Counters.RemoveLogKeepsCounts | server/routes/logs.js:167-176 | deleting a log keeps all milestone and log counters exact |
| Counters.LogCountsAfterRemove | server/routes/logs.js:170-176 | removing one log and lowering its goal's and milestone's `numOfLogs` by 1 keeps the log counters exact |
| Counters.CreateGoalKeepsLogCounts | server/routes/goals.js:57-63 | a goal created with its counters at 0 keeps every log counter exact |
| Counters.EditGoalKeepsLogCounts | server/routes/goals.js:87-94 | editing a goal keeps every log counter exact |
| Counters.CreateMilestoneKeepsLogCounts | server/routes/milestones.js:80-86 | a milestone created with `numOfLogs` 0 keeps the log counters exact |
| Counters.EditMilestoneKeepsLogCounts | server/routes/milestones.js:116-146 | editing a milestone never disturbs a log counter |
| Counters.RemoveMilestoneLeavesLogCount | server/routes/milestones.js:161-168 | deleting a milestone that has logs leaves its goal's `numOfLogs` too high, with the delete as written and with the corrected one |
| Sessions.OneHolder | server/routes/auth.js:83-84 | when every slot names its own user, no two users hold the same live token |
| Sessions.RegisterKeepsSlotsBound | server/routes/auth.js:28-35 | register keeps every slot bound to its user |
| Sessions.LoginKeepsSlotsBound | server/routes/auth.js:83-84 | login keeps every slot bound to its user |
| Sessions.LogoutKeepsSlotsBound | server/routes/auth.js:109-110 | logout keeps every slot bound to its user |
| Sessions.RefreshKeepsSlotsBound | server/routes/auth.js:131-181 | refresh, both rotation and reuse detection, keeps every slot bound to its user |
| Sessions.UserHandlersKeepSlotsBound | server/routes/users.js:52-91 | editing and deleting users keep every slot bound to its user |
| Sessions.RegisteredUserCanLogIn | server/routes/auth.js:18-59 | after registering, the address finds only the new user, and logging in with the chosen password succeeds with an access token naming them |
| Sessions.LoginThenRefresh | server/routes/auth.js:73-93 | the cookie a login sets is held by exactly that user, and a refresh with it succeeds |
| Sessions.RefreshRotates | server/routes/auth.js:131-188 | after a refresh at a later time, nobody holds the old cookie; presenting it again gives 403 and empties the slot of the user it names |
| Sessions.LogoutThenRefresh | server/routes/auth.js:105-150 | after the caller logs out, nobody holds their old cookie: refresh with it gives 403 and the slot stays empty |
| Sessions.ForgedCookieChangesNothing | server/routes/auth.js:136-150 | a cookie nobody holds that does not verify gives 403 and changes no slot |
| Scenario.GoalLifeCycle | server/routes/milestones.js:80-170 | on an empty store: create a goal, add a milestone, finish it; the goal counts 1 milestone, 1 finished. The as-written delete leaves both at 1; the corrected delete brings both to 0 |

## Left out

- Persistence failures are left out: every save and delete is taken to
  succeed. This drops the `if (!result) return 500` branches and the
  partial states a failed save would leave.
- Schema validation by Mongoose is left out. That covers required fields on
  save, the cast of dates, and the cast error a malformed id raises.
- Dates are opaque strings compared for equality; `new Date(...)` parsing in
  the by-date log query is not modelled.
- The two model files are taken as intended.
  - `server/models/milestones.js:13` and `server/models/logs.js:13`
    register `goalSchema`, which is undefined in those files. The handlers
    are modelled as if each file registered its own schema.
  - server/models/users.js and server/server.js are not part of this model.
    The user fields come from the routes that read them. A new user's
    picture and slot start empty.
- Token signing is a transparent stand-in for jsonwebtoken. Expiry
  (`expiresIn`) is not modelled, and the clock is the parameter `now`. Two
  refreshes in the same second therefore give the same token, which is why
  `Sessions.RefreshRotates` assumes a later time.
- Password hashing is a transparent stand-in for bcryptjs without a salt.
  It keeps bcryptjs's 72-byte limit (`Jwt.Significant`), counting
  characters rather than UTF-8 bytes, which agree for ASCII passwords.
- Jwt.MatchesUpToLimit / Auth.Login: a password longer than 72 UTF-8 bytes
  that is not ASCII is cut at 72 characters rather than 72 bytes, so the
  model can reject a long non-ASCII password that bcryptjs accepts. It never
  accepts one that bcryptjs rejects, because 72 characters cover at least
  72 bytes.
- File uploads are left out. Multer's disk storage, directory creation and
  file names built from `Date.now()` are not modelled. Stored image paths
  are parameters, and the three-file limit is an explicit check in
  `Logs.CreateLog`.
- Response bodies and messages are left out, and so are cookie options. The
  model keeps status codes, data the GET routes return, the access token,
  and whether the `jwt` cookie is kept, cleared or set.
- Asynchrony is left out: each request is one atomic step. Two details of
  the source are affected.
  - Reuse detection clears the victim's slot after the 403 has been sent.
    The model makes that change part of the same step.
  - In the error branches of that callback the source tries to send a
    second response. The client still sees 403. What the failed second
    send does to the process is not modelled.
- A failed upload is modelled as status 500. The `fs` ReferenceError in an
  upload callback stands for "the request fails". Whether Express answers
  500 or the process stops is not modelled.
- Mongoose's `strictQuery` setting is not modelled directly. Its effect on
  the two lookups by non-existent fields becomes a parameter: `strictQuery`
  in `Milestones.GetMilestones`, and the `matched` user in `Auth.Logout`.
- `Counters.LogCountsExact` is not claimed for goal or milestone deletes.
  - Milestone delete never lowers the goal's `numOfLogs`, in either version
    (`Counters.RemoveMilestoneLeavesLogCount`).
  - Goal delete would need every log to name the goal of its own milestone,
    and log creation never checks that.
- Log creation checks neither the owner of the goal and milestone nor that
  the milestone belongs to the goal. The model does the same.
- Milestone delete lowers the goal's counters in memory
  (server/routes/milestones.js:164-168) but never saves the goal. The model
  follows the code, and `Milestones.RemoveMilestoneFixed` saves it;
  `Scenario.GoalLifeCycle` shows both.
- Goals.CreateGoal and Milestones.CreateMilestone take the starting value of
  the counters as a number (`initial`, `initialLogs`); the counter lemmas
  use 0. The routes set no counter (server/routes/goals.js:57-63,
  server/routes/milestones.js:80-86) and the schemas give no default
  (server/models/goals.js:9-11, server/models/milestones.js:9), so as
  written each counter starts absent. The first `+= 1` on it
  (server/routes/milestones.js:92,120, server/routes/logs.js:143,146) then
  gives NaN, and saving NaN into a Number field most likely fails with 500
  after the child record was already stored. The model assumes the counters
  are numbers set outside these routes and does not model that failure.

## Findings

| source | as written | input that shows it | evidently intended | confidence | as-written member | corrected member |
|---|---|---|---|---|---|---|
| server/routes/auth.js:20 | `foundUser._id` is read before the null check on line 22 | a complete registration with an address no user has | the new user is stored and 201 answered | not executed | Auth.RegisterAsWritten | Auth.Register |
| server/routes/logs.js:123-136 | `images` is declared with `const` inside both branches of the `if` and read after it | a complete log form without files naming an existing goal and milestone | the log is stored with its image paths and both `numOfLogs` rise, 201 | not executed | Logs.CreateLogAsWritten | Logs.CreateLog |
| server/routes/logs.js:95 | the upload destination calls `fs.mkdirSync` but logs.js never imports `fs` | a log form with one image | the image is stored and the log created | not executed | Logs.AsWrittenNeverCreates | Logs.CreateLog |
| server/routes/users.js:37 | the upload destination calls `fs.mkdirSync` but users.js never imports `fs` | `PUT /users/:id?edit=true` with a picture, by that user | picture, names and email are overwritten, 201 | not executed | Users.EditUserAsWritten | Users.EditUser |
| server/routes/milestones.js:117-120 | `finish` raises `numOfMilestonesFinished` even for a complete milestone | `finish` twice on one incomplete milestone | the finished count rises once | not executed | Milestones.FinishTwiceCountsTwice | Milestones.EditMilestoneFixed |
| server/routes/milestones.js:164-168 | the lowered counters are set on `foundGoal`, which is never saved | delete a finished milestone of a goal that counts it | `numOfMilestones` and `numOfMilestonesFinished` drop | not executed | Counters.RemoveAsWrittenBreaksMilestoneCounts | Milestones.RemoveMilestoneFixed |
| server/routes/milestones.js:31 | the list by userId and by goalId queries the Goal table | `GET /milestones?userId=<caller>` when the caller has one goal and no milestones | 404, or the caller's milestones | not executed | Milestones.GetMilestones | Milestones.GetMilestonesFixed |
| server/routes/auth.js:105 | the user is looked up by field `id`, which users do not have | two logged-in users, where the lookup returns the other one | the caller's own slot is emptied | not executed | Auth.LogoutMissesCaller | Auth.LogoutFixed |
