/**
 Sequences of requests against one store. Each request is handled to
 completion before the next one starts, as the handlers themselves do; the
 invariants of the single handlers then extend to every run.
 */
module Requests {
  import opened Wrappers
  import opened Schema
  import opened Codes
  import opened Polls
  import opened PollLaws
  import opened Guesses
  import opened GuessLaws

  datatype Request =
    | CreatePoolRequest(title: string, caller: Option<UserId>, generate: () -> string)
    | JoinPoolRequest(joiner: UserId, code: string)
    | SubmitGuessRequest(guesser: UserId, pollId: PollId, gameId: GameId,
                         firstTeamPoints: int, secondTeamPoints: int, now: int)

  /** A request the model covers in `s`: a create must draw a code no pool uses. */
  predicate Admissible(s: Store, req: Request) {
    req.CreatePoolRequest? ==> CodeFree(s, NewCode(req.generate))
  }

  /** The store after handling `req`, whether it was accepted or rejected. */
  function Apply(s: Store, req: Request): Store
    requires Admissible(s, req)
  {
    match req
    case CreatePoolRequest(title, caller, generate) => CreatePool(s, title, caller, generate).post
    case JoinPoolRequest(joiner, code) => JoinPool(s, joiner, code).post
    case SubmitGuessRequest(guesser, pollId, gameId, first, second, now) =>
      SubmitGuess(s, guesser, pollId, gameId, first, second, now).post
  }

  predicate AdmissibleRun(s: Store, reqs: seq<Request>)
    decreases |reqs|
  {
    |reqs| == 0 || (Admissible(s, reqs[0]) && AdmissibleRun(Apply(s, reqs[0]), reqs[1..]))
  }

  function Run(s: Store, reqs: seq<Request>): Store
    requires AdmissibleRun(s, reqs)
    decreases |reqs|
  {
    if |reqs| == 0 then s else Run(Apply(s, reqs[0]), reqs[1..])
  }

  /** Stored guesses are never changed or removed. */
  predicate GuessesKept(s: Store, t: Store) {
    |s.guesses| <= |t.guesses| && t.guesses[..|s.guesses|] == s.guesses
  }

  /** One request keeps the invariant, every owner, every title and code,
      and every guess. */
  lemma ApplyKeeps(s: Store, req: Request)
    requires Valid(s) && Admissible(s, req)
    ensures var t := Apply(s, req);
            Valid(t) && OwnersKept(s, t) && PoolsKept(s, t) && GuessesKept(s, t)
  {
    match req
    case CreatePoolRequest(title, caller, generate) =>
      CreatePreservesValid(s, title, caller, generate);
      CreateKeepsPools(s, title, caller, generate);
    case JoinPoolRequest(joiner, code) =>
      JoinPreservesValid(s, joiner, code);
      JoinKeepsPools(s, joiner, code);
    case SubmitGuessRequest(guesser, pollId, gameId, first, second, now) =>
      SubmitPreservesValid(s, guesser, pollId, gameId, first, second, now);
  }

  lemma KeptTransitive(s: Store, t: Store, u: Store)
    requires OwnersKept(s, t) && PoolsKept(s, t) && GuessesKept(s, t)
    requires OwnersKept(t, u) && PoolsKept(t, u) && GuessesKept(t, u)
    ensures OwnersKept(s, u) && PoolsKept(s, u) && GuessesKept(s, u)
  {
    assert u.guesses[..|s.guesses|] == u.guesses[..|t.guesses|][..|s.guesses|];
  }

  /** Along any run from a valid store: the invariant holds at the end (at
      most one participant per user and pool, at most one guess per
      participant and game, codes distinct, owners are members); an owner,
      once set, is never replaced; and no stored guess changes. */
  lemma {:induction false} RunKeeps(s: Store, reqs: seq<Request>)
    requires Valid(s) && AdmissibleRun(s, reqs)
    ensures var t := Run(s, reqs);
            Valid(t) && OwnersKept(s, t) && PoolsKept(s, t) && GuessesKept(s, t)
    decreases |reqs|
  {
    if |reqs| > 0 {
      var mid := Apply(s, reqs[0]);
      ApplyKeeps(s, reqs[0]);
      RunKeeps(mid, reqs[1..]);
      KeptTransitive(s, mid, Run(mid, reqs[1..]));
    } else {
      assert s.guesses[..|s.guesses|] == s.guesses;
    }
  }
}
