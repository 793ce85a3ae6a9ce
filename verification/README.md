# Pool membership and guess submission, modelled in Dafny

This project models the two server route modules of a sports-prediction pool
service: `server/src/routes/poll.ts` (count pools, create a pool, join a pool
by its code, list the caller's pools) and `server/src/routes/guess.ts` (count
guesses, submit a guess). Each handler is a short sequential decision
procedure over the database; here the database is an immutable `Store` value
and each handler is a pure function from a store and its inputs to an answer
and the next store.

- `wrappers.dfy` — `Option`.
- `schema.dfy` — module `Schema`: the pools, participants, games and guesses
  tables; the lookups the handlers run (by code, by (user, pool), by
  (participant, game)); the store invariant `Valid` (distinct codes, rows
  reference existing rows, one participant per user and pool, one guess per
  participant and game, an owner is a member and a pool has an owner exactly
  when it has members).
- `codes.dfy` — module `Codes`: the join code is the generator's output
  upper-cased.
- `polls.dfy` — module `Polls`: `PoolCount`, `CreatePool`, `JoinPool`,
  `Summarize`, `ListPolls`.
- `poll_laws.dfy` — module `PollLaws`: invariant preservation, the
  write-once ownership claim, create/join round trip, duplicate join.
- `guesses.dfy` — module `Guesses`: `GuessCount`, `SubmitGuess`.
- `guess_laws.dfy` — module `GuessLaws`: invariant preservation, duplicate
  guess, order of checks, the strict start-time cutoff.
- `requests.dfy` — module `Requests`: any sequence of requests keeps the
  invariant, every owner and every stored guess.
- `scenarios.dfy` — module `Scenarios`: concrete walk-throughs.

Modelling choices:

- Row ids are positions in the table sequences, so a new pool's id is the
  number of pools before it, and the database's natural order is sequence
  order. Game ids are strings and games are a map to their start date.
- User ids are non-empty strings, as database keys are. The join handler's
  `!poll.ownerId` test (`poll.ts` line 82) is a truthiness test, which would
  also treat an empty owner id as unset; with non-empty ids it means exactly
  "no owner", which is how the model states it.
- The caller identity is an `Option<UserId>` for pool creation (verified or
  not) and a plain `UserId` for the routes behind the authentication hook.
- The clock is the integer parameter `now`, in the unit of game dates.
- The code generator is the parameter `generate: () -> string`.
- The handlers answer `Created` (HTTP 201) or `Rejected(e)`, and
  `Error.Message` gives the exact response message of each rejection.
- The guess cutoff follows the handler (`guess.ts` line 65): a submission is
  refused as started exactly when `game.date < now`, so a submission at
  `now == game.date` is accepted.
- The guess handler does not check that the game belongs to the pool, and
  neither does the model.

## Model

| member | source | states |
|---|---|---|
| Schema.MessagesDistinct | server/src/routes/guess.ts:38-67 | each rejection has its own message ("Participant not found in this poll", "User already guessed", "Game not found", "Game already started", and the join route's "Pool not found" and "User already joined"), so two rejections share a message exactly when they are the same rejection |
| Schema.PoolByCode | server/src/routes/poll.ts:61-64 | the lookup finds a pool carrying exactly the given code, and finds nothing exactly when no pool carries it |
| Schema.ParticipantOf | server/src/routes/guess.ts:29-36 | the lookup finds the caller's participant record in the pool, and finds nothing exactly when the caller has not joined it |
| Schema.GuessOf | server/src/routes/guess.ts:42-49 | the lookup finds a guess of that participant for that game, and finds nothing exactly when there is none |
| Schema.MembersOf | server/src/routes/poll.ts:126-137 | the ids of the pool's participant records: every listed one belongs to the pool, every record of the pool is listed, in store order |
| Schema.MembersOfCount | server/src/routes/poll.ts:115-119 | the member list is as long as the set of participant records of the pool |
| Codes.UpperCase | server/src/routes/poll.ts:22 | upper-casing keeps the length, leaves no lower-case letter, and changes each character only to its own upper-case form |
| Codes.NewCode | server/src/routes/poll.ts:21-22 | the code has the generator's length and is upper-case alphanumeric when the generator's output is alphanumeric |
| Codes.NewCodeIsCode | server/src/routes/poll.ts:21-22 | a six-character alphanumeric generator gives a six-character upper-case alphanumeric code |
| Codes.UpperCaseIdempotent | server/src/routes/poll.ts:22 | upper-casing a code a second time changes nothing |
| Polls.PoolCount | server/src/routes/poll.ts:8-12 | the pool count is the number of distinct pool ids stored, i.e. the pools table's length; it moves only with creates (see PollLaws.CreateCountsOnePool, PollLaws.JoinKeepsPools, GuessLaws.SubmitCounts) |
| Polls.CreatePool | server/src/routes/poll.ts:14-48 | the answer is the generated code; one pool is appended with the title, the code and the caller as owner; with a caller the caller's participant record is added, without one no record; games and guesses are untouched |
| Polls.JoinPool | server/src/routes/poll.ts:52-100 | an unknown code is rejected with "Pool not found" and a repeat member with "User already joined", both leaving the store unchanged; otherwise exactly one record (caller, pool) is added, an ownerless pool is claimed by the caller, an owned one keeps its owner, and nothing else changes |
| Polls.Summarize | server/src/routes/poll.ts:114-138 | a listing entry carries the pool's title, code and owner, the number of its participant records, and its first participants in store order, at most four |
| Polls.ListPolls | server/src/routes/poll.ts:103-139 | the listing holds exactly the pools the caller participates in, each once, in store order, each with its summary |
| PollLaws.CreatorListsNewPool | server/src/routes/poll.ts:24-139 | after an authenticated create, the creator's listing shows the new pool with the creator as owner and a participant count of one |
| PollLaws.JoinerListsPool | server/src/routes/poll.ts:93-113 | after a successful join, the joined pool appears in the joiner's listing |
| PollLaws.CreatePreservesValid | server/src/routes/poll.ts:24-46 | creating a pool with a free code keeps the store invariant |
| PollLaws.CreateOwnedHasOnlyOwner | server/src/routes/poll.ts:24-38 | with a verified caller, the new pool is owned by the caller, whose record is the pool's only participant |
| PollLaws.CreateAnonymousIsEmpty | server/src/routes/poll.ts:39-46 | without a caller, the new pool has the title and code, no owner and no participants |
| PollLaws.CreateThenFindByCode | server/src/routes/poll.ts:21-48 | the returned code looks up exactly the pool just created |
| PollLaws.CreateThenJoin | server/src/routes/poll.ts:48-100 | any user other than the creator who joins with the returned code is admitted to exactly the pool just created |
| PollLaws.CreateCountsOnePool | server/src/routes/poll.ts:8-46 | each create raises the pool count by exactly one and adds no guess |
| PollLaws.CreateKeepsPools | server/src/routes/poll.ts:26-45 | a create rewrites no existing pool's title, code or owner |
| PollLaws.JoinPreservesValid | server/src/routes/poll.ts:61-100 | a join keeps the store invariant, in particular at most one participant per user and pool |
| PollLaws.JoinTwiceRejected | server/src/routes/poll.ts:78-98 | repeating a successful join is rejected with "User already joined" and changes nothing |
| PollLaws.JoinKeepsPools | server/src/routes/poll.ts:82-91 | a join never overwrites an existing owner, never changes a title or code, and changes neither the pool count nor the guesses |
| PollLaws.JoinAddsOneMember | server/src/routes/poll.ts:93-98 | a successful join adds one record to the joined pool's member list and none to any other pool's |
| PollLaws.JoinClaimsOwnerless | server/src/routes/poll.ts:82-98 | the first join of an ownerless pool succeeds and makes the caller its owner and only participant |
| Guesses.GuessCount | server/src/routes/guess.ts:7-11 | the guess count is the number of distinct guess ids stored, i.e. the guesses table's length; it moves only with accepted submissions (see GuessLaws.SubmitCounts, PollLaws.CreateCountsOnePool, PollLaws.JoinKeepsPools) |
| Guesses.SubmitGuess | server/src/routes/guess.ts:13-80 | the checks report in order "Participant not found in this poll", "User already guessed", "Game not found", "Game already started", each leaving the store unchanged; acceptance happens exactly when all pass, and appends exactly one guess with the given scores, participant and game, changing nothing else |
| GuessLaws.SubmitPreservesValid | server/src/routes/guess.ts:29-76 | a submission keeps the store invariant, in particular at most one guess per participant and game |
| GuessLaws.SubmitTwiceRejected | server/src/routes/guess.ts:42-76 | repeating an accepted submission, with any scores at any time, is rejected with "User already guessed" |
| GuessLaws.DuplicateReportedBeforeStart | server/src/routes/guess.ts:42-67 | a repeat guess on a game that has started is reported as "User already guessed", not as started |
| GuessLaws.StartedExactlyWhenPast | server/src/routes/guess.ts:65-76 | once the earlier checks pass, "Game already started" is reported exactly when the game's date is before now, and the guess is stored exactly when it is not |
| GuessLaws.SubmitAtStartAccepted | server/src/routes/guess.ts:65-67 | a submission at exactly the game's date is accepted |
| GuessLaws.SubmitRecordsCallersGuess | server/src/routes/guess.ts:69-76 | the stored guess carries the given scores and game, belongs to the caller's one participant record in the pool, and earlier guesses are kept |
| GuessLaws.SubmitCounts | server/src/routes/guess.ts:7-78 | an accepted submission raises the guess count by one, a rejected one leaves it; pools, participants and games never change |
| Requests.RunKeeps | server/src/routes/poll.ts:82-91 | along any sequence of requests the store invariant holds, no owner once set is replaced, no title or code changes, and no stored guess changes |
| Scenarios.OwnedCreate | server/src/routes/poll.ts:21-38 | an authenticated create of "Friends League" returns "AB12CD" from the generator output "ab12cd", owned by and joined by its creator |
| Scenarios.AnonymousCreate | server/src/routes/poll.ts:39-48 | an anonymous create returns the upper-cased code and leaves the pool without owner or participants |
| Scenarios.FirstJoinClaims | server/src/routes/poll.ts:82-100 | the first joiner of the anonymous pool is admitted and becomes its owner |
| Scenarios.JoinRejections | server/src/routes/poll.ts:74-80 | a repeated join gets "User already joined" and an unknown code "Pool not found", both leaving the store as it was |
| Scenarios.GuessAroundCutoff | server/src/routes/guess.ts:29-78 | a participant's early guess is stored, repeats are rejected before and after the start, a late, unknown-game or outsider guess gets its own message, and a guess at the start date is accepted |

## Left out

- Polls.CreatePool: requires the generated code to be unused by any pool. Code uniqueness is enforced by a database constraint that is not part of this model; the collision path (both inserts failing, a server error) is not modelled, and the model never claims codes are unique on its own.
- Polls.CreatePool: the handler falls back to an ownerless insert on any failure of the owned branch, not only a failed token verification; the model takes the verification result as the `caller` input and does not model other failures.
- Codes.UpperCase: folds ASCII letters only; full Unicode upper-casing (which can change a string's length) is not modelled. Generated codes are drawn from ASCII letters and digits, where the two agree.
- `GET /polls/:id`: an unscoped lookup by id with no decision logic.
- HTTP status codes, request parsing and the authentication hook: an unauthenticated request never reaches the join, list or guess handlers, so `Unauthorized` is not part of the model.
- Polls.Summarize: the owner's name and the participants' avatar URLs come from the users table, which is not modelled; the entry carries the owner id and each sampled participant's user id instead.
- Guesses.SubmitGuess: scores are integers; the request parser also accepts non-integer numbers.
- Concurrency: check-then-insert races between concurrent requests are not modelled; requests are handled one at a time.
- Database-generated string ids are modelled as table positions.
- The mobile join screen and the server bootstrap are not part of this model.
