/**
 Properties of the pool routes: the store invariant is preserved, the
 ownership claim is write-once, a created code finds its pool, and joining is
 rejected the second time.
 */
module PollLaws {
  import opened Wrappers
  import opened Schema
  import opened Codes
  import opened Polls

  /** Every owner `s` records is still recorded, unchanged, in `t`. */
  predicate OwnersKept(s: Store, t: Store) {
    && |s.pools| <= |t.pools|
    && forall i :: 0 <= i < |s.pools| && s.pools[i].ownerId.Some? ==> t.pools[i].ownerId == s.pools[i].ownerId
  }

  /** Every pool `s` records keeps its title and code in `t`. */
  predicate PoolsKept(s: Store, t: Store) {
    && |s.pools| <= |t.pools|
    && forall i :: 0 <= i < |s.pools| ==> t.pools[i].title == s.pools[i].title && t.pools[i].code == s.pools[i].code
  }

  lemma CreatePreservesValid(s: Store, title: string, caller: Option<UserId>, generate: () -> string)
    requires Valid(s) && CodeFree(s, NewCode(generate))
    ensures Valid(CreatePool(s, title, caller, generate).post)
  {
    var t := CreatePool(s, title, caller, generate).post;
    var id := |s.pools|;
    assert forall i :: 0 <= i < |s.pools| ==> t.pools[i] == s.pools[i];
    assert forall i :: 0 <= i < |s.participants| ==> t.participants[i] == s.participants[i];
    if caller.Some? {
      assert Participant(caller.value, id) in t.participants by {
        assert t.participants[|s.participants|] == Participant(caller.value, id);
      }
    }
  }

  /** With a verified caller, the new pool is owned by the caller, who is its
      one and only participant. */
  lemma CreateOwnedHasOnlyOwner(s: Store, title: string, user: UserId, generate: () -> string)
    requires Valid(s) && CodeFree(s, NewCode(generate))
    ensures var r := CreatePool(s, title, Some(user), generate);
            && r.post.pools[|s.pools|].ownerId == Some(user)
            && MembersOf(r.post.participants, |s.pools|) == [|s.participants|]
            && r.post.participants[|s.participants|] == Participant(user, |s.pools|)
  {
    var r := CreatePool(s, title, Some(user), generate);
    NoMembersYet(s);
    MembersOfAppend(s.participants, Participant(user, |s.pools|), |s.pools|);
  }

  /** Without a verified caller, the new pool has no owner and no participants. */
  lemma CreateAnonymousIsEmpty(s: Store, title: string, generate: () -> string)
    requires Valid(s) && CodeFree(s, NewCode(generate))
    ensures var r := CreatePool(s, title, None, generate);
            && r.post.pools[|s.pools|] == Pool(title, r.code, None)
            && MembersOf(r.post.participants, |s.pools|) == []
  {
    NoMembersYet(s);
  }

  /** No participant refers to the id the next pool will get. */
  lemma NoMembersYet(s: Store)
    requires ReferencesResolve(s)
    ensures MembersOf(s.participants, |s.pools|) == []
  {
    MembersOfUnreferenced(s.participants, |s.pools|);
  }

  /** The code returned by a create finds exactly the pool it created. */
  lemma CreateThenFindByCode(s: Store, title: string, caller: Option<UserId>, generate: () -> string)
    requires CodeFree(s, NewCode(generate))
    ensures var r := CreatePool(s, title, caller, generate);
            PoolByCode(r.post, r.code) == Some(|s.pools|)
  {
    var r := CreatePool(s, title, caller, generate);
    assert forall i :: 0 <= i < |s.pools| ==> r.post.pools[i] == s.pools[i];
  }

  /** Anyone other than the creator who joins with the returned code joins
      the pool just created. */
  lemma CreateThenJoin(s: Store, title: string, caller: Option<UserId>, generate: () -> string,
                       joiner: UserId)
    requires Valid(s) && CodeFree(s, NewCode(generate))
    requires caller != Some(joiner)
    ensures var r := CreatePool(s, title, caller, generate);
            var j := JoinPool(r.post, joiner, r.code);
            && j.status == Created
            && j.post.participants == r.post.participants + [Participant(joiner, |s.pools|)]
  {
    var r := CreatePool(s, title, caller, generate);
    CreateThenFindByCode(s, title, caller, generate);
    assert Participant(joiner, |s.pools|) !in s.participants;
  }

  /** Each create adds exactly one pool and no guess. */
  lemma CreateCountsOnePool(s: Store, title: string, caller: Option<UserId>, generate: () -> string)
    requires CodeFree(s, NewCode(generate))
    ensures var t := CreatePool(s, title, caller, generate).post;
            PoolCount(t) == PoolCount(s) + 1 && |t.guesses| == |s.guesses|
  {
  }

  /** Creating a pool rewrites no existing pool. */
  lemma CreateKeepsPools(s: Store, title: string, caller: Option<UserId>, generate: () -> string)
    requires CodeFree(s, NewCode(generate))
    ensures var t := CreatePool(s, title, caller, generate).post;
            OwnersKept(s, t) && PoolsKept(s, t)
  {
    var t := CreatePool(s, title, caller, generate).post;
    assert forall i :: 0 <= i < |s.pools| ==> t.pools[i] == s.pools[i];
  }

  lemma JoinPreservesValid(s: Store, caller: UserId, code: string)
    requires Valid(s)
    ensures Valid(JoinPool(s, caller, code).post)
  {
    var r := JoinPool(s, caller, code);
    if r.status == Created {
      var id := PoolByCode(s, code).value;
      var t := r.post;
      var p := Participant(caller, id);
      assert forall i :: 0 <= i < |s.participants| ==> t.participants[i] == s.participants[i];
      assert t.participants[|s.participants|] == p;
      assert forall i :: 0 <= i < |s.pools| ==> t.pools[i].code == s.pools[i].code;
      assert forall i :: 0 <= i < |s.pools| && s.pools[i].ownerId.Some? ==> t.pools[i].ownerId == s.pools[i].ownerId;
      forall i | 0 <= i < |t.pools| && t.pools[i].ownerId.Some?
        ensures Participant(t.pools[i].ownerId.value, i) in t.participants
      {
        if i == id && s.pools[i].ownerId.None? {
          assert t.participants[|s.participants|] == Participant(t.pools[i].ownerId.value, i);
        } else {
          assert Participant(s.pools[i].ownerId.value, i) in s.participants;
        }
      }
    }
  }

  /** A join that succeeded is rejected as a duplicate when repeated. */
  lemma JoinTwiceRejected(s: Store, caller: UserId, code: string)
    requires JoinPool(s, caller, code).status == Created
    ensures var t := JoinPool(s, caller, code).post;
            JoinPool(t, caller, code) == Transition(Rejected(UserAlreadyJoined), t)
  {
    var id := PoolByCode(s, code).value;
    var t := JoinPool(s, caller, code).post;
    assert forall i :: 0 <= i < |s.pools| ==> t.pools[i].code == s.pools[i].code;
    assert PoolByCode(t, code) == Some(id);
    assert t.participants[|s.participants|] == Participant(caller, id);
  }

  /** A join never overwrites an owner, never touches a title or code, and
      leaves the pool and guess counts as they were. */
  lemma JoinKeepsPools(s: Store, caller: UserId, code: string)
    ensures var t := JoinPool(s, caller, code).post;
            && OwnersKept(s, t) && PoolsKept(s, t)
            && PoolCount(t) == PoolCount(s) && t.guesses == s.guesses
  {
  }

  /** A successful join adds the caller's record to the joined pool's
      participants and to no other pool's. */
  lemma JoinAddsOneMember(s: Store, caller: UserId, code: string, other: PollId)
    requires JoinPool(s, caller, code).status == Created
    ensures var id := PoolByCode(s, code).value;
            var t := JoinPool(s, caller, code).post;
            && MembersOf(t.participants, id) == MembersOf(s.participants, id) + [|s.participants|]
            && (other != id ==> MembersOf(t.participants, other) == MembersOf(s.participants, other))
  {
    var id := PoolByCode(s, code).value;
    MembersOfAppend(s.participants, Participant(caller, id), id);
    MembersOfAppend(s.participants, Participant(caller, id), other);
  }

  /** The first join of an ownerless pool always succeeds and makes the
      caller its owner and only participant. */
  lemma JoinClaimsOwnerless(s: Store, caller: UserId, code: string)
    requires Valid(s)
    requires PoolByCode(s, code).Some? && s.pools[PoolByCode(s, code).value].ownerId.None?
    ensures var id := PoolByCode(s, code).value;
            var r := JoinPool(s, caller, code);
            && r.status == Created
            && r.post.pools[id].ownerId == Some(caller)
            && MembersOf(r.post.participants, id) == [|s.participants|]
  {
    var id := PoolByCode(s, code).value;
    assert forall j :: 0 <= j < |s.participants| ==> s.participants[j].pollId != id;
    MembersOfUnreferenced(s.participants, id);
    MembersOfAppend(s.participants, Participant(caller, id), id);
  }

  /** The creator's listing shows the new pool, with the creator as owner and
      its only participant. */
  lemma CreatorListsNewPool(s: Store, title: string, user: UserId, generate: () -> string)
    requires Valid(s) && CodeFree(s, NewCode(generate))
    ensures var t := CreatePool(s, title, Some(user), generate).post;
            exists k :: 0 <= k < |ListPolls(t, user)| && ListPolls(t, user)[k].id == |s.pools|
                        && ListPolls(t, user)[k].ownerId == Some(user)
                        && ListPolls(t, user)[k].participantCount == 1
  {
    var t := CreatePool(s, title, Some(user), generate).post;
    CreateOwnedHasOnlyOwner(s, title, user, generate);
    assert t.participants[|s.participants|] == Participant(user, |s.pools|);
    assert Joined(t, user, |s.pools|);
    var r := ListPolls(t, user);
    var k :| 0 <= k < |r| && r[k].id == |s.pools|;
    assert r[k] == Summarize(t, |s.pools|);
    assert r[k].ownerId == Some(user) && r[k].participantCount == 1;
  }

  /** After a successful join the pool appears in the joiner's listing. */
  lemma JoinerListsPool(s: Store, caller: UserId, code: string)
    requires JoinPool(s, caller, code).status == Created
    ensures var id := PoolByCode(s, code).value;
            var t := JoinPool(s, caller, code).post;
            exists k :: 0 <= k < |ListPolls(t, caller)| && ListPolls(t, caller)[k].id == id
  {
    var id := PoolByCode(s, code).value;
    var t := JoinPool(s, caller, code).post;
    assert t.participants[|s.participants|] == Participant(caller, id);
    assert Joined(t, caller, id);
    assert id < |t.pools|;
    var r := ListPolls(t, caller);
    var k :| 0 <= k < |r| && r[k].id == id;
  }
}
