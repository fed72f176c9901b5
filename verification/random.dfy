/**
 * Password and item selection (app/utils/random.ts). `Math.random()` is
 * the explicit draw `u` in [0, 1).
 */
module Random {
  import opened Js
  import opened Wrappers

  /** The value `getRandomPassword` falls back to when the list itself is empty. */
  const LastResortPassword: string := "123456"

  /** `list.filter(p => !exclude.includes(p))`: the candidates, in list order. */
  function Available(list: seq<string>, exclude: set<string>): (r: seq<string>)
    ensures |r| <= |list|
    ensures forall p :: p in r <==> p in list && p !in exclude
  {
    if |list| == 0 then []
    else (if list[0] in exclude then [] else [list[0]]) + Available(list[1..], exclude)
  }

  /** Filtering keeps list order: filtering a concatenation filters each half. */
  lemma {:induction false} AvailableOfConcat(a: seq<string>, b: seq<string>, exclude: set<string>)
    ensures Available(a + b, exclude) == Available(a, exclude) + Available(b, exclude)
  {
    if |a| > 0 {
      assert (a + b)[1..] == a[1..] + b;
      AvailableOfConcat(a[1..], b, exclude);
    } else {
      assert a + b == b;
    }
  }

  /** With nothing excluded every value is a candidate, duplicates and order included. */
  lemma {:induction false} AvailableNothingExcluded(list: seq<string>)
    ensures Available(list, {}) == list
  {
    if |list| > 0 {
      AvailableNothingExcluded(list[1..]);
    }
  }

  /** Some list value is not excluded. */
  predicate HasFresh(list: seq<string>, exclude: set<string>) {
    exists p :: p in list && p !in exclude
  }

  /**
   * `getRandomPassword(exclude)`: a uniformly drawn candidate; when every
   * value is excluded, `PASSWORD_LIST[0]`, which may itself be excluded.
   */
  function GetRandomPassword(list: seq<string>, exclude: set<string>, u: real): (p: string)
    requires 0.0 <= u < 1.0
    ensures |list| > 0 ==> p in list
    ensures |list| == 0 ==> p == LastResortPassword
    ensures HasFresh(list, exclude) ==> p !in exclude && p in Available(list, exclude)
    ensures !HasFresh(list, exclude) && |list| > 0 ==> p == list[0]
  {
    var available := Available(list, exclude);
    var i := FloorRandom(u, |available|);
    FloorRandomInRange(u, |available|);
    if 0 <= i < |available| then available[i]
    else if |list| > 0 then list[0]
    else LastResortPassword
  }

  /** `getRandomItem(items)`: an element of a non-empty array; `undefined` for an empty one. */
  function GetRandomItem<T>(items: seq<T>, u: real): (r: Option<T>)
    requires 0.0 <= u < 1.0
    ensures |items| > 0 <==> r.Some?
    ensures r.Some? ==> r.value in items
  {
    var i := FloorRandom(u, |items|);
    FloorRandomInRange(u, |items|);
    if 0 <= i < |items| then Some(items[i]) else None
  }
}
