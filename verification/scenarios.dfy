/**
 Concrete walk-throughs on a small store with one game "G" dated 100:
 an owned and an anonymous pool are created, a second user claims the
 anonymous pool by joining it, and guesses are submitted around the cutoff.
 */
module Scenarios {
  import opened Wrappers
  import opened Schema
  import opened Codes
  import opened Polls
  import opened Guesses

  const schedule: map<GameId, Game> := map["G" := Game(100)]

  /** The store after "U1" creates "Friends League" with code "AB12CD". */
  const owned: Store := Store([Pool("Friends League", "AB12CD", Some("U1"))], [Participant("U1", 0)], schedule, [])

  /** The store after an anonymous create of "Office" with code "XY34ZW". */
  const anonymous: Store := Store([Pool("Office", "XY34ZW", None)], [], schedule, [])

  /** The store after "U2" joins "Office". */
  const claimed: Store := Store([Pool("Office", "XY34ZW", Some("U2"))], [Participant("U2", 0)], schedule, [])

  /** An authenticated create returns the upper-cased code and makes the
      caller owner and sole participant. */
  lemma OwnedCreate()
    ensures CreatePool(Initial(schedule), "Friends League", Some("U1"), () => "ab12cd") == Creation("AB12CD", owned)
    ensures IsCode("AB12CD")
  {
    assert UpperCase("ab12cd") == "AB12CD";
  }

  /** An anonymous create has no owner and no participants. */
  lemma AnonymousCreate()
    ensures CreatePool(Initial(schedule), "Office", None, () => "xy34zw") == Creation("XY34ZW", anonymous)
  {
    assert UpperCase("xy34zw") == "XY34ZW";
  }

  /** The first joiner of the anonymous pool becomes its owner. */
  lemma FirstJoinClaims()
    ensures JoinPool(anonymous, "U2", "XY34ZW") == Transition(Created, claimed)
  {
    assert PoolByCode(anonymous, "XY34ZW") == Some(0);
  }

  /** Joining again, or with an unknown code, is rejected. */
  lemma JoinRejections()
    ensures JoinPool(claimed, "U2", "XY34ZW") == Transition(Rejected(UserAlreadyJoined), claimed)
    ensures JoinPool(claimed, "U3", "NOPE00") == Transition(Rejected(PoolNotFound), claimed)
  {
    assert PoolByCode(claimed, "XY34ZW") == Some(0);
    assert claimed.participants[0] == Participant("U2", 0);
  }

  /** A participant guesses before the game, cannot guess again, and an
      outsider or a late guess is refused with the matching message. */
  lemma GuessAroundCutoff()
    ensures var first := SubmitGuess(owned, "U1", 0, "G", 2, 1, 50);
            && first == Transition(Created, owned.(guesses := [Guess(0, "G", 2, 1)]))
            && SubmitGuess(first.post, "U1", 0, "G", 3, 3, 60).status == Rejected(UserAlreadyGuessed)
            && SubmitGuess(first.post, "U1", 0, "G", 3, 3, 200).status == Rejected(UserAlreadyGuessed)
    ensures SubmitGuess(owned, "U1", 0, "G", 2, 1, 200).status == Rejected(GameAlreadyStarted)
    ensures SubmitGuess(owned, "U1", 0, "G", 2, 1, 100).status == Created
    ensures SubmitGuess(owned, "U1", 0, "H", 2, 1, 50).status == Rejected(GameNotFound)
    ensures SubmitGuess(owned, "U9", 0, "G", 2, 1, 50).status == Rejected(ParticipantNotFound)
    ensures GameAlreadyStarted.Message() == "Game already started"
  {
    assert owned.participants[0] == Participant("U1", 0);
    var after := owned.(guesses := [Guess(0, "G", 2, 1)]);
    assert Guessed(after, 0, "G") by {
      assert after.guesses[0] == Guess(0, "G", 2, 1);
    }
  }
}
