/**
 * The older game hook (app/hooks/useGame.ts): no timer and no used set;
 * a challenger only avoids the two values on screen.
 */
module LegacyGame {
  import opened Js
  import opened Wrappers
  import opened GameTypes
  import Random

  datatype State = State(left: Password, right: Password, score: int, phase: Phase, result: Option<GameResult>)

  predicate Draw(u: real) {
    0.0 <= u < 1.0
  }

  /** The initial state (also what `resetGame` produces): PLAYING, score 0, the right drawn excluding the left. */
  function NewGame(list: seq<string>, u1: real, u2: real): (s: State)
    requires Draw(u1) && Draw(u2)
    ensures s.phase == Playing && s.score == 0 && s.result == None
    ensures s.left.roundsStayed == 0 && s.right.roundsStayed == 0
    ensures Random.HasFresh(list, {s.left.value}) ==> s.right.value != s.left.value
  {
    var newLeft := CreateInitialPassword(list, {}, u1);
    var newRight := CreateInitialPassword(list, {newLeft.value}, u2);
    State(newLeft, newRight, 0, Playing, None)
  }

  /** `resetGame`: a fresh game whatever the previous state. */
  function ResetGame(s: State, list: seq<string>, u1: real, u2: real): (r: State)
    requires Draw(u1) && Draw(u2)
    ensures r.phase == Playing && r.score == 0 && r.result == None
    ensures Random.HasFresh(list, {r.left.value}) ==> r.right.value != r.left.value
  {
    NewGame(list, u1, u2)
  }

  /** `makeGuess(choice)` of the older hook; `u1`, `u2` are the draws of the passwords it creates. */
  function MakeGuess(s: State, q: Queries, list: seq<string>, maxRoundsStayed: nat, choice: Side, u1: real, u2: real): (r: State)
    requires Draw(u1) && Draw(u2)
    // nothing happens unless the counts have loaded and the game is PLAYING
    ensures q.isLoading || s.phase != Playing ==> r == s
    // a wrong guess ends the game with a snapshot and leaves the score alone
    ensures !q.isLoading && s.phase == Playing && choice != CorrectSide(q) ==>
      r == s.(phase := GameOver,
               result := Some(GameResult(s.score, s.left.value, s.right.value, CorrectSide(q))))
    // a correct guess scores exactly one and stays PLAYING
    ensures !q.isLoading && s.phase == Playing && choice == CorrectSide(q) ==>
      r.score == s.score + 1 && r.phase == Playing && r.result == s.result
    // rotation: two fresh passwords, the new left unconstrained, the new right unlike it
    ensures !q.isLoading && s.phase == Playing && choice == CorrectSide(q) &&
            OnSide(choice, s.left, s.right).roundsStayed + 1 > maxRoundsStayed ==>
      && r.left.roundsStayed == 0 && r.right.roundsStayed == 0
      && (Random.HasFresh(list, {r.left.value}) ==> r.right.value != r.left.value)
    // otherwise the winner stays with one more round; the challenger differs from both shown values
    ensures !q.isLoading && s.phase == Playing && choice == CorrectSide(q) &&
            OnSide(choice, s.left, s.right).roundsStayed + 1 <= maxRoundsStayed ==>
      var winner := OnSide(choice, s.left, s.right);
      var kept := OnSide(choice, r.left, r.right);
      var challenger := if choice == Left then r.right else r.left;
      && kept.value == winner.value
      && kept.roundsStayed == winner.roundsStayed + 1
      && challenger.roundsStayed == 0 && challenger.pwnedCount == None
      && (Random.HasFresh(list, {s.left.value, s.right.value}) ==>
            challenger.value != s.left.value && challenger.value != s.right.value)
  {
    if q.isLoading || s.phase != Playing then s
    else
      var leftCount := q.leftData.GetOr(Int(0));
      var rightCount := q.rightData.GetOr(Int(0));
      var correct := if Ge(leftCount, rightCount) then Left else Right;
      if choice != correct then
        s.(phase := GameOver,
           result := Some(GameResult(s.score, s.left.value, s.right.value, correct)))
      else
        var winner := if choice == Left then s.left else s.right;
        var winnerCount := if choice == Left then leftCount else rightCount;
        var stayed := winner.roundsStayed + 1;
        var scored := s.(score := s.score + 1);
        if stayed > maxRoundsStayed then
          var newLeft := CreateInitialPassword(list, {}, u1);
          var newRight := CreateInitialPassword(list, {newLeft.value}, u2);
          scored.(left := newLeft, right := newRight)
        else
          var updatedWinner := Password(winner.value, Some(winnerCount), stayed);
          var challenger := CreateInitialPassword(list, {s.left.value, s.right.value}, u1);
          if choice == Left then scored.(left := updatedWinner, right := challenger)
          else scored.(left := challenger, right := updatedWinner)
  }

  /**
   * The older hook has no used set: a rotation may bring back a value
   * already shown. With a list of the two values "a" and "b", after a
   * rotation the new left may be the value that was just on screen.
   */
  lemma RotationMayRepeat(s: State, q: Queries)
    requires s.phase == Playing && !q.isLoading && CorrectSide(q) == Left
    requires s.left == Password("a", None, 2)
    ensures MakeGuess(s, q, ["a", "b"], 2, Left, 0.0, 0.5).left.value == "a"
  {
    assert Random.Available(["a", "b"], {}) == ["a", "b"];
  }
}
