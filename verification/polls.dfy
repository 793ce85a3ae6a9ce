/**
 The pool routes: counting pools, creating a pool (with or without a verified
 caller), joining a pool by its code, and listing the caller's pools.
 */
module Polls {
  import opened Wrappers
  import opened Schema
  import opened Codes

  /** GET /polls/count: the number of distinct pools stored. */
  function PoolCount(s: Store): (n: nat)
    ensures n == |RowIds(|s.pools|)|
  {
    RowIdsCount(|s.pools|);
    |s.pools|
  }

  /** The answer to POST /polls: the new pool's code, and the store after the insert. */
  datatype Creation = Creation(code: string, post: Store)

  /** No existing pool uses `code`. */
  predicate CodeFree(s: Store, code: string) {
    PoolByCode(s, code).None?
  }

  /** POST /polls. With a verified caller the pool is owned by the caller and
      created together with the caller's participant record; without one it is
      created with no owner and no participants. The code's uniqueness is the
      database's to enforce, so the model only covers a code that is free. */
  function CreatePool(s: Store, title: string, caller: Option<UserId>, generate: () -> string): (r: Creation)
    requires CodeFree(s, NewCode(generate))
    ensures r.code == NewCode(generate)
    ensures |r.post.pools| == |s.pools| + 1 && r.post.pools[..|s.pools|] == s.pools
    ensures r.post.pools[|s.pools|] == Pool(title, r.code, caller)
    ensures caller.Some? ==> r.post.participants == s.participants + [Participant(caller.value, |s.pools|)]
    ensures caller.None? ==> r.post.participants == s.participants
    ensures r.post.games == s.games && r.post.guesses == s.guesses
  {
    var code := NewCode(generate);
    var id := |s.pools|;
    match caller
    case Some(user) =>
      Creation(code, s.(pools := s.pools + [Pool(title, code, Some(user))],
                        participants := s.participants + [Participant(user, id)]))
    case None =>
      Creation(code, s.(pools := s.pools + [Pool(title, code, None)]))
  }

  /** POST /polls/join. The checks run in this order: the code must name a
      pool, and the caller must not already be one of its participants. On
      success an ownerless pool is claimed by the caller and the caller's
      participant record is inserted. */
  function JoinPool(s: Store, caller: UserId, code: string): (r: Transition)
    ensures PoolByCode(s, code).None? ==> r == Transition(Rejected(PoolNotFound), s)
    ensures PoolByCode(s, code).Some? && Joined(s, caller, PoolByCode(s, code).value) ==>
              r == Transition(Rejected(UserAlreadyJoined), s)
    ensures r.status == Created <==>
              PoolByCode(s, code).Some? && !Joined(s, caller, PoolByCode(s, code).value)
    ensures r.status == Created ==>
              var id := PoolByCode(s, code).value;
              && r.post.participants == s.participants + [Participant(caller, id)]
              && |r.post.pools| == |s.pools|
              && (forall i :: 0 <= i < |s.pools| && i != id ==> r.post.pools[i] == s.pools[i])
              && r.post.pools[id].title == s.pools[id].title
              && r.post.pools[id].code == s.pools[id].code
              && r.post.pools[id].ownerId == (if s.pools[id].ownerId.None? then Some(caller) else s.pools[id].ownerId)
              && r.post.games == s.games && r.post.guesses == s.guesses
  {
    match PoolByCode(s, code)
    case None => Transition(Rejected(PoolNotFound), s)
    case Some(id) =>
      if Joined(s, caller, id) then Transition(Rejected(UserAlreadyJoined), s)
      else
        var pool := s.pools[id];
        var claimed := if pool.ownerId.None? then pool.(ownerId := Some(caller)) else pool;
        Transition(Created, s.(pools := s.pools[id := claimed],
                               participants := s.participants + [Participant(caller, id)]))
  }

  /** One sampled participant of a listed pool (the user's avatar is looked
      up by `userId`). */
  datatype Avatar = Avatar(participantId: ParticipantId, userId: UserId)

  /** One entry of GET /polls. */
  datatype PoolSummary = PoolSummary(id: PollId, title: string, code: string, ownerId: Option<UserId>,
                                     participantCount: nat, sample: seq<Avatar>)

  /** How many participants a listing entry shows. */
  const SampleSize: nat := 4

  /** The listing entry for pool `id`: the number of participant records of
      the pool, and its first participants in store order, at most
      `SampleSize` of them. */
  function Summarize(s: Store, id: PollId): (r: PoolSummary)
    requires id < |s.pools|
    ensures r.id == id && r.title == s.pools[id].title && r.code == s.pools[id].code
    ensures r.ownerId == s.pools[id].ownerId
    ensures r.participantCount == |MemberSet(s.participants, id)| == |MembersOf(s.participants, id)|
    ensures |r.sample| == if r.participantCount < SampleSize then r.participantCount else SampleSize
    ensures forall k :: 0 <= k < |r.sample| ==>
              && r.sample[k].participantId == MembersOf(s.participants, id)[k]
              && r.sample[k].participantId < |s.participants|
              && s.participants[r.sample[k].participantId] == Participant(r.sample[k].userId, id)
  {
    var members := MembersOf(s.participants, id);
    MembersOfCount(s.participants, id);
    var shown := if |members| < SampleSize then members else members[..SampleSize];
    var sample := seq(|shown|, k requires 0 <= k < |shown| => Avatar(shown[k], s.participants[shown[k]].userId));
    PoolSummary(id, s.pools[id].title, s.pools[id].code, s.pools[id].ownerId, |members|, sample)
  }

  /** GET /polls: the pools the caller participates in, in store order. */
  function ListPolls(s: Store, caller: UserId): (r: seq<PoolSummary>)
    ensures forall k :: 0 <= k < |r| ==>
              r[k].id < |s.pools| && Joined(s, caller, r[k].id) && r[k] == Summarize(s, r[k].id)
    ensures forall id :: 0 <= id < |s.pools| && Joined(s, caller, id) ==>
              exists k :: 0 <= k < |r| && r[k].id == id
    ensures forall k, l :: 0 <= k < l < |r| ==> r[k].id < r[l].id
  {
    ListFrom(s, caller, 0)
  }

  /** The listing restricted to the pools with id `from` or above. */
  function ListFrom(s: Store, caller: UserId, from: nat): (r: seq<PoolSummary>)
    requires from <= |s.pools|
    ensures forall k :: 0 <= k < |r| ==>
              from <= r[k].id < |s.pools| && Joined(s, caller, r[k].id) && r[k] == Summarize(s, r[k].id)
    ensures forall id :: from <= id < |s.pools| && Joined(s, caller, id) ==>
              exists k :: 0 <= k < |r| && r[k].id == id
    ensures forall k, l :: 0 <= k < l < |r| ==> r[k].id < r[l].id
    decreases |s.pools| - from
  {
    if from == |s.pools| then []
    else
      var rest := ListFrom(s, caller, from + 1);
      if Joined(s, caller, from) then
        PrependEntry(s, caller, from, rest);
        [Summarize(s, from)] + rest
      else rest
  }

  /** Putting the entry of pool `from` in front of the listing of the pools
      above it gives the listing of the pools from `from` on. */
  lemma PrependEntry(s: Store, caller: UserId, from: nat, rest: seq<PoolSummary>)
    requires from < |s.pools| && Joined(s, caller, from)
    requires forall k :: 0 <= k < |rest| ==>
               from + 1 <= rest[k].id < |s.pools| && Joined(s, caller, rest[k].id) && rest[k] == Summarize(s, rest[k].id)
    requires forall id :: from + 1 <= id < |s.pools| && Joined(s, caller, id) ==>
               exists k :: 0 <= k < |rest| && rest[k].id == id
    requires forall k, l :: 0 <= k < l < |rest| ==> rest[k].id < rest[l].id
    ensures var r := [Summarize(s, from)] + rest;
            && (forall k :: 0 <= k < |r| ==>
                  from <= r[k].id < |s.pools| && Joined(s, caller, r[k].id) && r[k] == Summarize(s, r[k].id))
            && (forall id :: from <= id < |s.pools| && Joined(s, caller, id) ==>
                  exists k :: 0 <= k < |r| && r[k].id == id)
            && (forall k, l :: 0 <= k < l < |r| ==> r[k].id < r[l].id)
  {
    var head := Summarize(s, from);
    var r := [head] + rest;
    assert r[0] == head && head.id == from;
    assert forall k :: 0 < k < |r| ==> r[k] == rest[k - 1];
    forall id | from <= id < |s.pools| && Joined(s, caller, id)
      ensures exists k :: 0 <= k < |r| && r[k].id == id
    {
      if id == from {
        assert r[0].id == id;
      } else {
        var k :| 0 <= k < |rest| && rest[k].id == id;
        assert r[k + 1].id == id;
      }
    }
  }
}
