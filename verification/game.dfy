/**
 * The round state machine of the current game hook
 * (app/hooks/useGame/useGame.ts). Every React state setter of one
 * callback becomes one new `State`; the breach-count queries are the
 * `Queries` input and each `Math.random()` draw is an explicit `u`.
 */
module Game {
  import opened Js
  import opened Wrappers
  import opened GameTypes
  import Random

  /**
   * The constants the hook reads from files outside the model:
   * `PASSWORD_LIST`, `MAX_ROUNDS_STAYED`, `INITIAL_GAME_STATE` and the
   * start and bonus times.
   */
  datatype Config = Config(
    passwords: seq<string>,
    maxRoundsStayed: nat,
    initialPhase: Phase,
    startTime: int,
    bonusTime: int)

  datatype State = State(
    left: Password,
    right: Password,
    used: set<string>,
    score: int,
    time: int,
    phase: Phase,
    result: Option<GameResult>)

  predicate Draw(u: real) {
    0.0 <= u < 1.0
  }

  /**
   * The state of a fresh game, used both for the hook's initial state and
   * by `resetGame`: the right password is drawn excluding the left one.
   */
  function NewGame(cfg: Config, u1: real, u2: real): (s: State)
    requires Draw(u1) && Draw(u2)
    ensures s.score == 0 && s.result == None
    ensures s.phase == cfg.initialPhase && s.time == cfg.startTime
    ensures s.used == {s.left.value, s.right.value}
    ensures s.left.roundsStayed == 0 && s.right.roundsStayed == 0
    ensures s.left.pwnedCount == None && s.right.pwnedCount == None
    ensures Random.HasFresh(cfg.passwords, {s.left.value}) ==> s.right.value != s.left.value
  {
    var newLeft := CreateInitialPassword(cfg.passwords, {}, u1);
    var newRight := CreateInitialPassword(cfg.passwords, {newLeft.value}, u2);
    State(newLeft, newRight, {newLeft.value, newRight.value}, 0, cfg.startTime, cfg.initialPhase, None)
  }

  /** `resetGame`: whatever the previous state, a fresh game. */
  function ResetGame(s: State, cfg: Config, u1: real, u2: real): (r: State)
    requires Draw(u1) && Draw(u2)
    ensures r.score == 0 && r.result == None && r.phase == cfg.initialPhase && r.time == cfg.startTime
    ensures r.used == {r.left.value, r.right.value}
    ensures Random.HasFresh(cfg.passwords, {r.left.value}) ==> r.right.value != r.left.value
  {
    NewGame(cfg, u1, u2)
  }

  /**
   * `startReveal`: succeeds, moving to REVEALING, exactly when both counts
   * have loaded and the game is PLAYING; otherwise nothing changes.
   */
  function StartReveal(s: State, q: Queries): (r: (State, bool))
    ensures r.1 <==> !q.isLoading && s.phase == Playing
    ensures r.1 ==> r.0 == s.(phase := Revealing)
    ensures !r.1 ==> r.0 == s
  {
    if q.isLoading || s.phase != Playing then (s, false)
    else (s.(phase := Revealing), true)
  }

  /** The result recorded when a game ends on the given state. */
  function Snapshot(s: State, q: Queries): GameResult {
    GameResult(s.score, s.left.value, s.right.value, CorrectSide(q))
  }

  /** The winner has now stayed more rounds than allowed, so both slots are redrawn. */
  predicate Rotates(s: State, cfg: Config, choice: Side) {
    OnSide(choice, s.left, s.right).roundsStayed + 1 > cfg.maxRoundsStayed
  }

  /** The values a correct guess marks as used before drawing. */
  function UsedAfterGuess(s: State): set<string> {
    s.used + {s.left.value, s.right.value}
  }

  function Other(side: Side): Side {
    if side == Left then Right else Left
  }

  /** `makeGuess(choice)`, with `u1` and `u2` the draws of the passwords it creates. */
  function MakeGuess(s: State, q: Queries, cfg: Config, choice: Side, u1: real, u2: real): (r: State)
    requires Draw(u1) && Draw(u2)
    // a no-op while loading or once the game is over
    ensures q.isLoading || s.phase == GameOver ==> r == s
    // a wrong guess ends the game, recording the pre-guess score, both values and the correct side
    ensures !q.isLoading && s.phase != GameOver && choice != CorrectSide(q) ==>
      r == s.(phase := GameOver, result := Some(Snapshot(s, q)))
    // a correct guess scores exactly one, adds the bonus and returns to the initial state
    ensures !q.isLoading && s.phase != GameOver && choice == CorrectSide(q) ==>
      && r.score == s.score + 1
      && r.time == s.time + cfg.bonusTime
      && r.phase == cfg.initialPhase
      && r.result == s.result
      && UsedAfterGuess(s) + {r.left.value, r.right.value} == r.used
    // rotation: both slots fresh; both avoid the used values, the right also avoids the new left
    ensures !q.isLoading && s.phase != GameOver && choice == CorrectSide(q) && Rotates(s, cfg, choice) ==>
      && r.left.roundsStayed == 0 && r.right.roundsStayed == 0
      && r.left.pwnedCount == None && r.right.pwnedCount == None
      && (Random.HasFresh(cfg.passwords, UsedAfterGuess(s)) ==> r.left.value !in UsedAfterGuess(s))
      && (Random.HasFresh(cfg.passwords, UsedAfterGuess(s) + {r.left.value}) ==>
            r.right.value !in UsedAfterGuess(s) && r.right.value != r.left.value)
    // otherwise the winner keeps its side and count with one more round; the loser's side gets a challenger
    ensures !q.isLoading && s.phase != GameOver && choice == CorrectSide(q) && !Rotates(s, cfg, choice) ==>
      var winner := OnSide(choice, s.left, s.right);
      var kept := OnSide(choice, r.left, r.right);
      var challenger := OnSide(Other(choice), r.left, r.right);
      && kept.value == winner.value
      && kept.roundsStayed == winner.roundsStayed + 1
      && kept.pwnedCount == Some(if choice == Left then q.leftData.GetOr(Int(0)) else q.rightData.GetOr(Int(0)))
      && challenger.roundsStayed == 0 && challenger.pwnedCount == None
      && (Random.HasFresh(cfg.passwords, UsedAfterGuess(s)) ==>
            challenger.value !in UsedAfterGuess(s) && challenger.value != winner.value)
  {
    if q.isLoading || s.phase == GameOver then s
    else
      var leftCount := q.leftData.GetOr(Int(0));
      var rightCount := q.rightData.GetOr(Int(0));
      var correct := if Ge(leftCount, rightCount) then Left else Right;
      if choice != correct then
        s.(phase := GameOver,
           result := Some(GameResult(s.score, s.left.value, s.right.value, correct)))
      else
        var used := s.used + {s.left.value, s.right.value};
        var winner := if choice == Left then s.left else s.right;
        var winnerCount := if choice == Left then leftCount else rightCount;
        var stayed := winner.roundsStayed + 1;
        var scored := s.(phase := cfg.initialPhase, score := s.score + 1, time := s.time + cfg.bonusTime);
        if stayed > cfg.maxRoundsStayed then
          var newLeft := CreateInitialPassword(cfg.passwords, used, u1);
          var newRight := CreateInitialPassword(cfg.passwords, used + {newLeft.value}, u2);
          scored.(left := newLeft, right := newRight, used := used + {newLeft.value, newRight.value})
        else
          var updatedWinner := Password(winner.value, Some(winnerCount), stayed);
          var challenger := CreateInitialPassword(cfg.passwords, used + {updatedWinner.value}, u1);
          var nowUsed := used + {challenger.value};
          if choice == Left then scored.(left := updatedWinner, right := challenger, used := nowUsed)
          else scored.(left := challenger, right := updatedWinner, used := nowUsed)
  }

  /**
   * One firing of the one-second interval, which runs in every phase but
   * GAME_OVER: the time counts down, and at 1 or less it becomes 0 and the
   * game ends with a snapshot.
   */
  function Tick(s: State, q: Queries): (r: State)
    ensures s.phase == GameOver ==> r == s
    ensures s.phase != GameOver && s.time > 1 ==> r == s.(time := s.time - 1)
    ensures s.phase != GameOver && s.time <= 1 ==>
      r == s.(time := 0, phase := GameOver, result := Some(Snapshot(s, q)))
    ensures r.score == s.score && r.used == s.used && r.left == s.left && r.right == s.right
  {
    if s.phase == GameOver then s
    else if s.time <= 1 then
      s.(time := 0, phase := GameOver,
         result := Some(GameResult(s.score, s.left.value, s.right.value, CorrectSide(q))))
    else s.(time := s.time - 1)
  }

  /**
   * What every reachable state keeps: both shown values are in the used
   * set, no password has stayed more than the maximum, and at most one
   * slot has stayed at all (a challenger always starts at 0).
   */
  predicate Valid(s: State, cfg: Config) {
    && s.left.value in s.used && s.right.value in s.used
    && s.left.roundsStayed <= cfg.maxRoundsStayed && s.right.roundsStayed <= cfg.maxRoundsStayed
    && (s.left.roundsStayed == 0 || s.right.roundsStayed == 0)
  }

  /** Every operation keeps `Valid`, and the used set never shrinks during a game. */
  lemma ValidPreserved(s: State, q: Queries, cfg: Config, choice: Side, u1: real, u2: real)
    requires Draw(u1) && Draw(u2)
    ensures Valid(NewGame(cfg, u1, u2), cfg)
    ensures Valid(s, cfg) ==> Valid(MakeGuess(s, q, cfg, choice, u1, u2), cfg)
    ensures Valid(s, cfg) ==> Valid(StartReveal(s, q).0, cfg)
    ensures Valid(s, cfg) ==> Valid(Tick(s, q), cfg)
    ensures s.used <= MakeGuess(s, q, cfg, choice, u1, u2).used
  {
  }

  /**
   * With MAX_ROUNDS_STAYED = 2, a password that has stayed two rounds is
   * replaced, with its partner, on its next correct guess.
   */
  lemma ThirdStayRotates(s: State, q: Queries, cfg: Config, u1: real, u2: real)
    requires Draw(u1) && Draw(u2)
    requires cfg.maxRoundsStayed == 2 && s.left.roundsStayed == 2
    requires !q.isLoading && s.phase != GameOver && CorrectSide(q) == Left
    ensures var r := MakeGuess(s, q, cfg, Left, u1, u2);
      r.left.roundsStayed == 0 && r.right.roundsStayed == 0 && r.score == s.score + 1
  {
  }

  /**
   * Counts 500 for the left and 300 for the right: guessing left scores,
   * guessing right ends the game with left recorded as correct.
   */
  lemma LeftHeavierScenario(s: State, cfg: Config, u1: real, u2: real)
    requires Draw(u1) && Draw(u2)
    requires s.phase == Playing && s.score == 0
    ensures var q := Queries(Some(Int(500)), Some(Int(300)), false);
      && MakeGuess(s, q, cfg, Left, u1, u2).score == 1
      && MakeGuess(s, q, cfg, Right, u1, u2).phase == GameOver
      && MakeGuess(s, q, cfg, Right, u1, u2).result == Some(GameResult(0, s.left.value, s.right.value, Left))
  {
  }
}
