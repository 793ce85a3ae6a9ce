/**
 Properties of the guess routes: the store invariant is preserved, a guess is
 write-once, the checks report in their fixed order, and the start-time cutoff
 is strict.
 */
module GuessLaws {
  import opened Wrappers
  import opened Schema
  import opened Polls
  import opened PollLaws
  import opened Guesses

  lemma SubmitPreservesValid(s: Store, caller: UserId, pollId: PollId, gameId: GameId,
                             first: int, second: int, now: int)
    requires Valid(s)
    ensures Valid(SubmitGuess(s, caller, pollId, gameId, first, second, now).post)
  {
    var r := SubmitGuess(s, caller, pollId, gameId, first, second, now);
    if r.status == Created {
      var pid := ParticipantOf(s, caller, pollId).value;
      var t := r.post;
      assert forall i :: 0 <= i < |s.guesses| ==> t.guesses[i] == s.guesses[i];
      assert t.guesses[|s.guesses|] == Guess(pid, gameId, first, second);
    }
  }

  /** A submission that succeeded is rejected as a duplicate when repeated,
      whatever the scores and whenever it is repeated. */
  lemma SubmitTwiceRejected(s: Store, caller: UserId, pollId: PollId, gameId: GameId,
                            first: int, second: int, now: int, first': int, second': int, now': int)
    requires SubmitGuess(s, caller, pollId, gameId, first, second, now).status == Created
    ensures var t := SubmitGuess(s, caller, pollId, gameId, first, second, now).post;
            SubmitGuess(t, caller, pollId, gameId, first', second', now')
              == Transition(Rejected(UserAlreadyGuessed), t)
  {
    var t := SubmitGuess(s, caller, pollId, gameId, first, second, now).post;
    var pid := ParticipantOf(s, caller, pollId).value;
    assert t.participants == s.participants;
    assert t.guesses[|s.guesses|] == Guess(pid, gameId, first, second);
    assert Guessed(t, pid, gameId);
  }

  /** A caller who already guessed a game is told so, even when the game has
      since started: the duplicate check comes before the date check. */
  lemma DuplicateReportedBeforeStart(s: Store, caller: UserId, pollId: PollId, gameId: GameId,
                                     first: int, second: int, now: int)
    requires Joined(s, caller, pollId)
    requires Guessed(s, ParticipantOf(s, caller, pollId).value, gameId)
    requires gameId in s.games && Started(s.games[gameId], now)
    ensures SubmitGuess(s, caller, pollId, gameId, first, second, now).status == Rejected(UserAlreadyGuessed)
  {
  }

  /** Once the earlier checks pass, the submission is refused as started
      exactly when the game's date lies before `now`, and accepted otherwise. */
  lemma StartedExactlyWhenPast(s: Store, caller: UserId, pollId: PollId, gameId: GameId,
                               first: int, second: int, now: int)
    requires Joined(s, caller, pollId)
    requires !Guessed(s, ParticipantOf(s, caller, pollId).value, gameId)
    requires gameId in s.games
    ensures var r := SubmitGuess(s, caller, pollId, gameId, first, second, now);
            && (r.status == Rejected(GameAlreadyStarted) <==> s.games[gameId].date < now)
            && (r.status == Created <==> now <= s.games[gameId].date)
  {
  }

  /** A submission at the game's own start date is accepted. */
  lemma SubmitAtStartAccepted(s: Store, caller: UserId, pollId: PollId, gameId: GameId,
                              first: int, second: int)
    requires Joined(s, caller, pollId)
    requires !Guessed(s, ParticipantOf(s, caller, pollId).value, gameId)
    requires gameId in s.games
    ensures SubmitGuess(s, caller, pollId, gameId, first, second, s.games[gameId].date).status == Created
  {
  }

  /** A successful submission stores the scores under the caller's own
      participant record in that pool; earlier guesses stay as they were. */
  lemma SubmitRecordsCallersGuess(s: Store, caller: UserId, pollId: PollId, gameId: GameId,
                                  first: int, second: int, now: int)
    requires Valid(s)
    requires SubmitGuess(s, caller, pollId, gameId, first, second, now).status == Created
    ensures var t := SubmitGuess(s, caller, pollId, gameId, first, second, now).post;
            && |t.guesses| == |s.guesses| + 1
            && t.guesses[..|s.guesses|] == s.guesses
            && var g := t.guesses[|s.guesses|];
               && g.gameId == gameId && g.firstTeamPoints == first && g.secondTeamPoints == second
               && g.participantId < |t.participants|
               && t.participants[g.participantId] == Participant(caller, pollId)
               && forall i :: 0 <= i < |t.participants| && t.participants[i] == Participant(caller, pollId) ==>
                    i == g.participantId
  {
  }

  /** Each successful submission adds exactly one guess; a rejected one adds
      none. No submission changes the pools. */
  lemma SubmitCounts(s: Store, caller: UserId, pollId: PollId, gameId: GameId,
                     first: int, second: int, now: int)
    ensures var r := SubmitGuess(s, caller, pollId, gameId, first, second, now);
            && GuessCount(r.post) == GuessCount(s) + (if r.status == Created then 1 else 0)
            && PoolCount(r.post) == PoolCount(s)
            && r.post.pools == s.pools && r.post.participants == s.participants && r.post.games == s.games
  {
  }
}
