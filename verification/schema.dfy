/**
 This module is the abstract store the route handlers read and write: the
 pools, participants, games and guesses tables, the lookups the handlers run
 against them, and the store invariant: the uniqueness the database's
 constraints enforce, plus the ownership facts the handlers' own logic keeps
 (an owner is a member, and a pool is owned exactly when it has members).

 Row ids are positions: the n-th pool inserted has id n, and likewise for
 participants and guesses, so "the store's natural order" is sequence order.
 */
module Schema {
  import opened Wrappers

  /** User ids are database keys and are never empty, so the handler's
      truthiness test on an owner id means exactly "an owner is set". */
  type UserId = u: string | u != "" witness "u"
  type PollId = nat
  type ParticipantId = nat
  type GameId = string

  /** A pool ("poll" in the code): its title, its join code and an optional owner. */
  datatype Pool = Pool(title: string, code: string, ownerId: Option<UserId>)

  /** The join record binding one user to one pool. */
  datatype Participant = Participant(userId: UserId, pollId: PollId)

  /** A scheduled game; only its start date (milliseconds) matters here. */
  datatype Game = Game(date: int)

  /** One participant's predicted score for one game. */
  datatype Guess = Guess(participantId: ParticipantId, gameId: GameId,
                         firstTeamPoints: int, secondTeamPoints: int)

  datatype Store = Store(pools: seq<Pool>, participants: seq<Participant>,
                         games: map<GameId, Game>, guesses: seq<Guess>)

  /** The rejections the handlers send back, each with its response message. */
  datatype Error =
    | PoolNotFound
    | UserAlreadyJoined
    | ParticipantNotFound
    | UserAlreadyGuessed
    | GameNotFound
    | GameAlreadyStarted
  {
    function Message(): string {
      match this
      case PoolNotFound => "Pool not found"
      case UserAlreadyJoined => "User already joined"
      case ParticipantNotFound => "Participant not found in this poll"
      case UserAlreadyGuessed => "User already guessed"
      case GameNotFound => "Game not found"
      case GameAlreadyStarted => "Game already started"
    }
  }

  /** A handler's answer: a 201 with no payload, or a rejection. */
  datatype Status = Created | Rejected(error: Error)

  /** A handler's answer together with the store it leaves behind. */
  datatype Transition = Transition(status: Status, post: Store)

  /** Different rejections carry different messages, so a client can tell
      them apart by message alone. */
  lemma MessagesDistinct(a: Error, b: Error)
    ensures a.Message() == b.Message() <==> a == b
  {
  }

  /** The index of the first element satisfying `p`, if there is one. */
  function Find<T>(xs: seq<T>, p: T -> bool): (r: Option<nat>)
    ensures r.Some? ==> r.value < |xs| && p(xs[r.value])
    ensures r.Some? ==> forall j :: 0 <= j < r.value ==> !p(xs[j])
    ensures r.None? <==> forall j :: 0 <= j < |xs| ==> !p(xs[j])
  {
    if |xs| == 0 then None
    else if p(xs[0]) then Some(0)
    else match Find(xs[1..], p)
      case None => None
      case Some(i) => Some(i + 1)
  }

  /** The pool whose code is `code` (a lookup by the unique code column). */
  function PoolByCode(s: Store, code: string): (r: Option<PollId>)
    ensures r.Some? ==> r.value < |s.pools| && s.pools[r.value].code == code
    ensures r.None? <==> forall i :: 0 <= i < |s.pools| ==> s.pools[i].code != code
  {
    Find(s.pools, (pool: Pool) => pool.code == code)
  }

  /** The participant record of `user` in pool `pollId` (a lookup by the
      unique (userId, pollId) key). */
  function ParticipantOf(s: Store, user: UserId, pollId: PollId): (r: Option<ParticipantId>)
    ensures r.Some? ==> r.value < |s.participants| && s.participants[r.value] == Participant(user, pollId)
    ensures r.None? <==> Participant(user, pollId) !in s.participants
  {
    Find(s.participants, (p: Participant) => p == Participant(user, pollId))
  }

  /** The guess of participant `pid` for game `gameId` (a lookup by the
      unique (participantId, gameId) key). */
  function GuessOf(s: Store, pid: ParticipantId, gameId: GameId): (r: Option<nat>)
    ensures r.Some? ==> r.value < |s.guesses| && s.guesses[r.value].participantId == pid
                        && s.guesses[r.value].gameId == gameId
    ensures r.None? <==> !Guessed(s, pid, gameId)
  {
    Find(s.guesses, (g: Guess) => g.participantId == pid && g.gameId == gameId)
  }

  predicate Joined(s: Store, user: UserId, pollId: PollId) {
    Participant(user, pollId) in s.participants
  }

  predicate Guessed(s: Store, pid: ParticipantId, gameId: GameId) {
    exists i :: 0 <= i < |s.guesses| && s.guesses[i].participantId == pid && s.guesses[i].gameId == gameId
  }

  /** The ids of the participants of pool `pollId`, in insertion order. */
  function MembersOf(ps: seq<Participant>, pollId: PollId): (r: seq<ParticipantId>)
    ensures forall k :: 0 <= k < |r| ==> r[k] < |ps| && ps[r[k]].pollId == pollId
    ensures forall i :: 0 <= i < |ps| && ps[i].pollId == pollId ==> i in r
    ensures forall k, l :: 0 <= k < l < |r| ==> r[k] < r[l]
  {
    if |ps| == 0 then []
    else
      var earlier := MembersOf(ps[..|ps| - 1], pollId);
      if ps[|ps| - 1].pollId == pollId then earlier + [|ps| - 1] else earlier
  }

  /** Appending a participant extends exactly the member list of its own pool. */
  lemma MembersOfAppend(ps: seq<Participant>, p: Participant, pollId: PollId)
    ensures MembersOf(ps + [p], pollId)
            == MembersOf(ps, pollId) + (if p.pollId == pollId then [|ps|] else [])
  {
    assert (ps + [p])[..|ps|] == ps;
  }

  /** A pool no participant refers to has no members. */
  lemma {:induction false} MembersOfUnreferenced(ps: seq<Participant>, pollId: PollId)
    requires forall i :: 0 <= i < |ps| ==> ps[i].pollId != pollId
    ensures MembersOf(ps, pollId) == []
  {
    if |ps| > 0 {
      MembersOfUnreferenced(ps[..|ps| - 1], pollId);
    }
  }

  /** The ids of the rows of a table with `n` rows. */
  function RowIds(n: nat): (ids: set<nat>)
    ensures forall i: nat :: i in ids <==> i < n
  {
    if n == 0 then {} else RowIds(n - 1) + {n - 1}
  }

  /** A table with `n` rows has `n` distinct row ids. */
  lemma {:induction false} RowIdsCount(n: nat)
    ensures |RowIds(n)| == n
  {
    if n > 0 {
      RowIdsCount(n - 1);
      assert n - 1 !in RowIds(n - 1);
    }
  }

  /** The positions of the participant records of pool `pollId`. */
  function MemberSet(ps: seq<Participant>, pollId: PollId): set<nat> {
    set i: nat | i < |ps| && ps[i].pollId == pollId
  }

  lemma MemberSetAppend(ps: seq<Participant>, p: Participant, pollId: PollId)
    ensures MemberSet(ps + [p], pollId)
            == MemberSet(ps, pollId) + (if p.pollId == pollId then {|ps|} else {})
  {
    var qs := ps + [p];
    assert forall i :: 0 <= i < |ps| ==> qs[i] == ps[i];
  }

  /** The member list has one entry per participant record of the pool. */
  lemma {:induction false} MembersOfCount(ps: seq<Participant>, pollId: PollId)
    ensures |MembersOf(ps, pollId)| == |MemberSet(ps, pollId)|
  {
    if |ps| > 0 {
      var init := ps[..|ps| - 1];
      assert ps == init + [ps[|ps| - 1]];
      MembersOfCount(init, pollId);
      MemberSetAppend(init, ps[|ps| - 1], pollId);
      assert |ps| - 1 !in MemberSet(init, pollId);
    }
  }

  /** Pool codes are pairwise distinct. */
  predicate CodesUnique(pools: seq<Pool>) {
    forall i, j :: 0 <= i < j < |pools| ==> pools[i].code != pools[j].code
  }

  /** Every row points at an existing row of the table it references. */
  predicate ReferencesResolve(s: Store) {
    && (forall i :: 0 <= i < |s.participants| ==> s.participants[i].pollId < |s.pools|)
    && (forall i :: 0 <= i < |s.guesses| ==>
          s.guesses[i].participantId < |s.participants| && s.guesses[i].gameId in s.games)
  }

  /** A user joins a given pool at most once. */
  predicate OneParticipantPerUserAndPool(ps: seq<Participant>) {
    forall i, j :: 0 <= i < j < |ps| ==> ps[i] != ps[j]
  }

  /** A participant guesses a given game at most once. */
  predicate OneGuessPerParticipantAndGame(gs: seq<Guess>) {
    forall i, j :: 0 <= i < j < |gs| ==>
      gs[i].participantId != gs[j].participantId || gs[i].gameId != gs[j].gameId
  }

  /** A pool's owner is one of its participants, and a pool has an owner
      exactly when it has at least one participant. */
  predicate OwnershipConsistent(s: Store) {
    && (forall i :: 0 <= i < |s.pools| && s.pools[i].ownerId.Some? ==>
          Participant(s.pools[i].ownerId.value, i) in s.participants)
    && (forall j :: 0 <= j < |s.participants| && s.participants[j].pollId < |s.pools| ==>
          s.pools[s.participants[j].pollId].ownerId.Some?)
  }

  /** The invariant every store reachable through the handlers satisfies. */
  predicate Valid(s: Store) {
    && CodesUnique(s.pools)
    && ReferencesResolve(s)
    && OneParticipantPerUserAndPool(s.participants)
    && OneGuessPerParticipantAndGame(s.guesses)
    && OwnershipConsistent(s)
  }

  /** The store of a fresh deployment: a game schedule and nothing else. */
  function Initial(games: map<GameId, Game>): (s: Store)
    ensures Valid(s) && |s.pools| == 0 && |s.guesses| == 0 && s.games == games
  {
    Store([], [], games, [])
  }
}
