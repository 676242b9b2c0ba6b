# Election System: the server-side voting lifecycle

The Election System is a Next.js application. Voters redeem a single-use
voting code, stage their name on it, and cast one ballot for a candidate.
Administrators log in and watch the tallies and recent activity. This project
models the API route handlers that carry that lifecycle. They work on a store
of four tables:

- voting codes: id to code, staged voter name, `isUsed` and `usedAt`;
- candidates: id to name, party, description and position;
- votes: a sequence of (voting code id, candidate id) rows in insertion order;
- users: email to id, name, password hash and role.

Modules:

- `Schema` holds the rows, the store snapshot `Db` and the replies (`Ok` body
  or `Error` status and message). It also holds the vote counts and the
  invariants the lifecycle is meant to keep: codes are unique, there is at most
  one vote per code, `isUsed` holds exactly when a vote references the code,
  used codes carry a time, and votes reference existing rows.
- `Text` holds ASCII `toUpperCase`/`toLowerCase`, `trim`, and the string order
  that `orderBy` uses.
- `Sorting` sorts a set by a total order. It stands for the database's
  `orderBy`.
- There is one module per route: `VoteRoute`, `VotingCodeRoute`,
  `RegisterRoute`, `AdminLoginRoute`, `AdminCandidatesRoute` and
  `AdminUsersRoute`. Each states what its handler replies and what it writes,
  as a function over the store, together with the lemmas about it.
- `Store` holds the class `ElectionStore`, whose fields are the four tables.
  The three handlers that write are methods that update those fields in place.
  Each method's contract ties its reply and the new tables to the route's
  function over the tables as they were, and keeps the store's invariants.
  The handlers that only read (admin login, the two admin views) stay functions
  over a snapshot of the store, so they cannot write.
- `Lifecycle` relates the handlers to one another. The two admin views agree
  on a consistent store. A walk-through takes one code from redemption to the
  results.

The bcrypt functions `hash` and `compare` are function parameters (`hash`,
`verify`). So are the current time (`now`) and the id the database gives a new
user (`newId`).

## Model

| member | source | states |
|---|---|---|
| VoteRoute.Commit | src/app/api/vote/route.ts:8-56 | Each guard, in order, gives its own status and message: 400 if either id is missing; 404 "Invalid voting session" for an unknown code; 400 "already been used" if the code is used or any vote references it; 404 "Invalid candidate" for an unknown candidate. Success happens exactly when all guards pass. A rejection leaves the store unchanged. A success writes the vote and marks the code, and returns the code's previously staged `voterName`. |
| VoteRoute.Record | src/app/api/vote/route.ts:36-50 | The transaction as one step: exactly one `Vote(codeId, candidateId)` is appended, and that code gets `isUsed = true` and `usedAt = now`. Every other code, the candidates and the users are unchanged. |
| VoteRoute.CommitKeepsOneVotePerCode | src/app/api/vote/route.ts:22-50 | Every commit keeps "at most one vote per code". |
| VoteRoute.CommitKeepsUsedIffVoted | src/app/api/vote/route.ts:22-50 | Every commit keeps "`isUsed` exactly when a vote references the code". |
| VoteRoute.CommitKeepsConsistent | src/app/api/vote/route.ts:22-50 | Every commit keeps all of the store's invariants. |
| VoteRoute.SecondCommitFails | src/app/api/vote/route.ts:22-24 | After a successful commit, any second commit with the same code is rejected: as "already used" when it names a candidate. It writes nothing, and exactly one vote references the code. |
| VoteRoute.CommitCountsOneBallot | src/app/api/vote/route.ts:36-42 | A successful commit adds one to its candidate's count and nothing to any other candidate's count. |
| Store.ElectionStore.CastVote | src/app/api/vote/route.ts:8-56 | The guard chain with early returns, then the vote row and the code's `isUsed`/`usedAt` written together. The reply and the new tables are those of `VoteRoute.Commit` over the old tables. A consistent store stays consistent. |
| VotingCodeRoute.Redeem | src/app/api/auth/voting-code/route.ts:8-46 | 400 exactly when the code or the name is missing. 401 "Invalid voting code" exactly when no stored code equals the upper-cased input. 401 "already been used" exactly when the matching code is used. Errors write nothing. On success only that code's `voterName` changes, to the trimmed name; it stays unused. The reply carries the matched code's id and the trimmed name. |
| VotingCodeRoute.RenameKeepsCodes | src/app/api/auth/voting-code/route.ts:35-39 | Staging a name keeps every code's spelling and `isUsed`, so codes stay unique. |
| VotingCodeRoute.RedeemAgainReplacesName | src/app/api/auth/voting-code/route.ts:35-39 | Redeeming again before voting overwrites the staged name. It ends in the same store and reply as redeeming with the second name alone. |
| VotingCodeRoute.RedeemIdempotent | src/app/api/auth/voting-code/route.ts:35-39 | Redeeming twice with the same name is redeeming once. |
| VotingCodeRoute.RedeemFindsAnyCase | src/app/api/auth/voting-code/route.ts:16-33 | Any spelling that upper-cases to a stored code finds that code: it is refused if used, and otherwise gets a session for that id with the trimmed name. |
| VotingCodeRoute.RedeemFindsLowerCase | src/app/api/auth/voting-code/route.ts:16-19 | A stored upper-case code is found from its lower-case spelling. |
| VotingCodeRoute.RedeemIgnoresVotes | src/app/api/auth/voting-code/route.ts:18-28 | The reply and the write do not depend on the vote table; only `isUsed` is consulted. |
| VotingCodeRoute.RedeemKeepsConsistent | src/app/api/auth/voting-code/route.ts:35-39 | A redemption keeps all of the store's invariants. |
| Store.ElectionStore.RedeemCode | src/app/api/auth/voting-code/route.ts:8-46 | It looks the code up, checks it and overwrites one row's `voterName`. The reply and the new tables are those of `VotingCodeRoute.Redeem`. Codes stay unique, and a consistent store stays consistent. |
| RegisterRoute.Register | src/app/api/auth/register/route.ts:9-33 | 400 "Passwords do not match" exactly when the confirmation differs; this is checked before the lookup. 400 "User already exists" exactly when the email, as sent, is taken. Errors write nothing. On success exactly one user is added under that email, with role VOTER and the hash of the password. Existing users and the other tables are untouched. The reply is the new user without its password. |
| RegisterRoute.RegisterTwiceFails | src/app/api/auth/register/route.ts:13-19 | The same email cannot register a second time, whatever the second request holds, and the refusal writes nothing. |
| RegisterRoute.RegisterAddsNoAdmin | src/app/api/auth/register/route.ts:23-30 | Registration never changes which accounts are administrators. |
| Store.ElectionStore.Register | src/app/api/auth/register/route.ts:9-33 | It inserts the new user in place. The reply and the new tables are those of `RegisterRoute.Register`. |
| AdminLoginRoute.AdminLogin | src/app/api/auth/admin-login/route.ts:9-44 | 400 exactly when the email or password is missing. Success happens exactly when the lower-cased email names an ADMIN whose stored hash `verify` accepts. Every other failure is the same 401 "Invalid admin credentials". The success body is that account without its password. |
| AdminLoginRoute.AdminLoginIgnoresEmailCase | src/app/api/auth/admin-login/route.ts:17-19 | The case of the typed email makes no difference, and only an account stored under a lower-case email can log in. |
| AdminLoginRoute.RegisterKeepsAdminLogin | src/app/api/auth/admin-login/route.ts:21-35 | Registering a voter changes the reply to no admin-login request. |
| AdminCandidatesRoute.OrderedIds | src/app/api/admin/candidates/route.ts:6-13 | The candidate ids in list order: each stored candidate exactly once, ordered by name ascending. |
| AdminCandidatesRoute.ListCandidates | src/app/api/admin/candidates/route.ts:6-18 | The handler lists as many entries as there are candidates. |
| AdminCandidatesRoute.ListCandidatesOrdered | src/app/api/admin/candidates/route.ts:6-13 | Every entry is a stored candidate; every stored candidate appears; none appears twice; the list is ordered by name. |
| AdminCandidatesRoute.ListCandidatesCounts | src/app/api/admin/candidates/route.ts:6-18 | Each entry carries its candidate's own fields, and `votes` is the number of vote rows naming it. |
| AdminCandidatesRoute.TalliesAddUpToVotes | src/app/api/admin/candidates/route.ts:15-18 | When every vote names an existing candidate, the entries' `votes` add up to the number of votes. |
| AdminUsersRoute.CodeStatistics | src/app/api/admin/users/route.ts:7-42 | `totalCodes` is the number of codes and `usedCodes` the number of used codes. `availableCodes` is non-negative and `usedCodes + availableCodes = totalCodes`. `participationRate` is '0' exactly when there are no codes, and otherwise the used/total fraction. |
| AdminUsersRoute.OrderedUsed | src/app/api/admin/users/route.ts:14-32 | The used codes, each exactly once, most recently used first. |
| AdminUsersRoute.RecentActivity | src/app/api/admin/users/route.ts:14-34 | The list has min(20, number of used codes) entries. |
| AdminUsersRoute.UsersReport | src/app/api/admin/users/route.ts:7-44 | `totalCodes` is the number of codes and `usedCodes` the number of used codes; `availableCodes` is non-negative and the two add up to `totalCodes`. `recentActivity` holds at most 20 entries, each a used code, most recently used first. |
| AdminUsersRoute.RecentActivityListsUsed | src/app/api/admin/users/route.ts:14-34 | At most 20 entries. Each is a distinct used code with its own code, name, time and ballots, and the entries are ordered by `usedAt` descending. |
| AdminUsersRoute.RecentActivityAllWhenFew | src/app/api/admin/users/route.ts:32-33 | When at most 20 codes are used, every used code is listed. |
| AdminUsersRoute.RecentActivityIsLatest | src/app/api/admin/users/route.ts:32-33 | No used code left off the list was used later than any code on it. |
| Lifecycle.UsedCodesCountVotes | src/app/api/admin/users/route.ts:8-10 | On a consistent store, `usedCodes` is the number of votes. |
| Lifecycle.TalliesMatchUsedCodes | src/app/api/admin/candidates/route.ts:15-18 | On a consistent store, the candidates' vote counts add up to the dashboard's `usedCodes`. |
| Lifecycle.ActivityShowsOneBallot | src/app/api/admin/users/route.ts:21-30 | On a consistent store, every recent-activity entry shows exactly one ballot: the name and party of the candidate that the code's vote names. |
| Lifecycle.Walkthrough | src/app/api/vote/route.ts:8-56 | Code ABC12345, typed in lower case, is redeemed for " Alice " and staged as "Alice". A vote for x succeeds and returns "Alice". A second vote with the same code is refused as already used. Afterwards x has one vote, y has none, and the store is consistent. An unknown code is refused with 401. |
| Schema.AtMostOneVoteEach | src/app/api/vote/route.ts:22-24 | When at most one vote per code holds, no code is referenced by more than one vote. |
| Text.TrimSpec | src/app/api/auth/voting-code/route.ts:38 | The trimmed name is the input with its leading and trailing whitespace removed. It neither starts nor ends with whitespace. |
| Text.ToUpperIgnoresCase | src/app/api/auth/voting-code/route.ts:17 | Upper-casing gives the same result whatever the case of the input. |

## Left out

- The React pages (home, login, vote, results and admin). They hold presentation and `localStorage` session handling, not server logic.
- AdminUsersRoute.CodeStatistics: when there are codes, `participationRate` is `((used / total) * 100).toFixed(1)`, which is floating point. The model keeps the fraction it formats (`Percentage(used, total)`), not the string.
- The seed script, which generates random codes in a uniqueness loop against the database (randomness and I/O).
- The public `GET /api/candidates` route. It is a single `findMany` by name, already covered by the admin candidates list.
- The bcrypt internals. `hash` and `compare` are parameters, so no property depends on how they work.
- Concurrency. The read in the vote handler is not atomic with its transaction, so two parallel requests can both pass the guards. The model runs requests one after another and treats the transaction as one atomic step.
- JSON parsing, HTTP plumbing, the logging, and the catch-all 500 replies for thrown exceptions.
- The shape of the JSON bodies. `Error(status, message)` stands for both keys the handlers use for the error text: `error` in the vote and register handlers, `message` in the voting-code and admin-login handlers. The `success: true` field of the success bodies is not modelled.
- Body fields of other types. A field is `Some(s)` when it is the string `s`. It is `None` when it is absent or another falsy value (`null`, `0`, `false`); the `!x` guards treat these like the empty string. A truthy field that is not a string, such as a number or an object, passes those guards and is outside the model. The source then replies with whichever later check fails first (a 401 for an unknown or used code, a 404 or 400 in the vote guards), or with the 500 when `toUpperCase`, `trim`, `toLowerCase`, a lookup or bcrypt throws.
- Case mapping and `trim` cover ASCII only. Upper- and lower-casing map `a`-`z` and `A`-`Z`. `trim` removes space, tab, line feed, carriage return, form feed and vertical tab, not the rest of the Unicode whitespace set.
- Real timestamps: `usedAt` is the natural number `now` that the caller passes in.
- Ids that the database generates are parameters (`newId`). The vote rows' own `id` and `createdAt` columns are not modelled.
- Ties in `orderBy`. The database leaves the order of equal names or equal `usedAt` unspecified; the model breaks ties by id. Strings are compared by code point, not by a database collation.
- Where the database sorts a null `usedAt` under `orderBy: { usedAt: 'desc' }`. The model sorts it as the oldest. On a consistent store every used code has a time, so this does not arise.
- RegisterRoute.Register: the email, password, name and confirmation are strings, so a request that leaves some of them out is outside the model. The handler does not check them for presence: the `!==` check and the email lookup still run on `undefined`. A missing password sent with a confirmation gets 400 "Passwords do not match". If both are missing and the email is taken, the reply is 400 "User already exists". Otherwise `bcrypt.hash` throws on the missing password, giving the 500 reply.
