/**
 The guess routes: counting guesses and submitting a guess for a game in a
 pool. `now` is the request's clock reading, in the same unit as game dates.
 */
module Guesses {
  import opened Wrappers
  import opened Schema

  /** GET /guesses/count: the number of distinct guesses stored. */
  function GuessCount(s: Store): (n: nat)
    ensures n == |RowIds(|s.guesses|)|
  {
    RowIdsCount(|s.guesses|);
    |s.guesses|
  }

  /** The game has started at `now` in the handler's sense: its date lies
      strictly before `now`. */
  predicate Started(game: Game, now: int) {
    game.date < now
  }

  /** POST /polls/:pollId/games/:gameId/guesses. The checks run in this
      order: the caller must be a participant of the pool, must not have
      guessed the game already, the game must exist, and it must not have
      started. Only then is the guess inserted. */
  function SubmitGuess(s: Store, caller: UserId, pollId: PollId, gameId: GameId,
                       firstTeamPoints: int, secondTeamPoints: int, now: int): (r: Transition)
    ensures !Joined(s, caller, pollId) ==> r == Transition(Rejected(ParticipantNotFound), s)
    ensures Joined(s, caller, pollId) ==>
              var pid := ParticipantOf(s, caller, pollId).value;
              && (Guessed(s, pid, gameId) ==> r == Transition(Rejected(UserAlreadyGuessed), s))
              && (!Guessed(s, pid, gameId) && gameId !in s.games ==>
                    r == Transition(Rejected(GameNotFound), s))
              && (!Guessed(s, pid, gameId) && gameId in s.games && Started(s.games[gameId], now) ==>
                    r == Transition(Rejected(GameAlreadyStarted), s))
    ensures r.status == Created <==>
              && Joined(s, caller, pollId)
              && !Guessed(s, ParticipantOf(s, caller, pollId).value, gameId)
              && gameId in s.games && !Started(s.games[gameId], now)
    ensures r.status == Created ==>
              r.post == s.(guesses := s.guesses + [Guess(ParticipantOf(s, caller, pollId).value, gameId,
                                                         firstTeamPoints, secondTeamPoints)])
    ensures r.status.Rejected? ==> r.post == s
  {
    match ParticipantOf(s, caller, pollId)
    case None => Transition(Rejected(ParticipantNotFound), s)
    case Some(pid) =>
      if GuessOf(s, pid, gameId).Some? then Transition(Rejected(UserAlreadyGuessed), s)
      else if gameId !in s.games then Transition(Rejected(GameNotFound), s)
      else if Started(s.games[gameId], now) then Transition(Rejected(GameAlreadyStarted), s)
      else
        var guess := Guess(pid, gameId, firstTeamPoints, secondTeamPoints);
        Transition(Created, s.(guesses := s.guesses + [guess]))
  }
}
