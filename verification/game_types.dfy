/**
 * The records the game hooks share (app/types/game.types.ts) and the
 * fresh-password constructor (app/hooks/useGame/useGame.utils.ts).
 */
module GameTypes {
  import opened Js
  import opened Wrappers
  import Random

  datatype Side = Left | Right

  /** The five values of `GAME_STATES`. */
  datatype Phase = Idle | Countdown | Playing | Revealing | GameOver

  /** A shown password; `pwnedCount` is None for JavaScript's `null`. */
  datatype Password = Password(value: string, pwnedCount: Option<Num>, roundsStayed: nat)

  /** The snapshot taken when a game ends. */
  datatype GameResult = GameResult(score: int, lastLeft: string, lastRight: string, correctAnswer: Side)

  /**
   * What the two breach-count queries report: the data (None while
   * pending or after a failure) and whether either is still loading.
   */
  datatype Queries = Queries(leftData: Option<Num>, rightData: Option<Num>, isLoading: bool)

  /** `createInitialPassword(exclude)`: a drawn value that has no count yet and has stayed no rounds. */
  function CreateInitialPassword(list: seq<string>, exclude: set<string>, u: real): (p: Password)
    requires 0.0 <= u < 1.0
    ensures p.pwnedCount == None && p.roundsStayed == 0
    ensures |list| > 0 ==> p.value in list
    ensures Random.HasFresh(list, exclude) ==> p.value !in exclude
  {
    Password(Random.GetRandomPassword(list, exclude, u), None, 0)
  }

  /**
   * The side with the larger count, a missing count read as 0: left wins
   * ties, and any comparison with NaN is false so NaN sends it right.
   */
  function CorrectSide(q: Queries): (side: Side)
    ensures q.leftData.GetOr(Int(0)).Int? && q.rightData.GetOr(Int(0)).Int? ==>
      (side == Left <==> q.leftData.GetOr(Int(0)).i >= q.rightData.GetOr(Int(0)).i)
    ensures q.leftData.GetOr(Int(0)) == NaN || q.rightData.GetOr(Int(0)) == NaN ==> side == Right
  {
    if Ge(q.leftData.GetOr(Int(0)), q.rightData.GetOr(Int(0))) then Left else Right
  }

  /** Ties favour the left: equal counts, or both counts missing, make left correct. */
  lemma TiesFavourLeft(q: Queries)
    requires q.leftData.GetOr(Int(0)) == q.rightData.GetOr(Int(0)) != NaN
    ensures CorrectSide(q) == Left
  {
  }

  /** With two numeric counts (a missing one read as 0), left is correct exactly when its count is not smaller. */
  lemma CorrectSideCompares(q: Queries, a: int, b: int)
    requires q.leftData.GetOr(Int(0)) == Int(a) && q.rightData.GetOr(Int(0)) == Int(b)
    ensures CorrectSide(q) == Left <==> a >= b
    ensures CorrectSide(q) == Right <==> a < b
  {
  }

  /** Which slot of a pair a side names. */
  function OnSide(side: Side, left: Password, right: Password): Password {
    if side == Left then left else right
  }
}
