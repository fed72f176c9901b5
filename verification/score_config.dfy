/**
 * The score-indexed effect settings (fire.constants.ts and
 * fireworks.constants.ts): a table from score thresholds to settings, and
 * a lookup that walks the thresholds in ascending order and keeps the
 * last one the score reaches.
 */
module ScoreConfig {
  import opened Wrappers

  /** A threshold table: entries `(threshold, settings)`. */
  type Table<C> = seq<(int, C)>

  /** Thresholds strictly ascending, as `Object.keys(...).map(Number).sort((a, b) => a - b)` lists them. */
  predicate Ascending<C>(table: Table<C>) {
    forall i, j :: 0 <= i < j < |table| ==> table[i].0 < table[j].0
  }

  /** The settings of the last entry whose threshold the score reaches: the reference definition. */
  function LastReached<C>(table: Table<C>, score: int): (r: Option<C>)
    ensures r.None? <==> forall i :: 0 <= i < |table| ==> table[i].0 > score
    ensures r.Some? ==> exists i :: (0 <= i < |table| && table[i].0 <= score && r.value == table[i].1
      && forall j :: i < j < |table| ==> table[j].0 > score)
  {
    if |table| == 0 then None
    else if table[|table| - 1].0 <= score then Some(table[|table| - 1].1)
    else LastReached(table[..|table| - 1], score)
  }

  /** The loop of `getFireConfigForScore` / `getFireworksConfigForScore`. */
  method Select<C>(table: Table<C>, score: int) returns (selected: Option<C>)
    ensures selected == LastReached(table, score)
  {
    selected := None;
    var k := 0;
    while k < |table|
      invariant 0 <= k <= |table|
      invariant selected == LastReached(table[..k], score)
    {
      assert table[..k + 1][..k] == table[..k];
      assert LastReached(table[..k + 1], score) ==
        if table[k].0 <= score then Some(table[k].1) else LastReached(table[..k], score);
      if score >= table[k].0 {
        selected := Some(table[k].1);
      }
      k := k + 1;
    }
    assert table[..|table|] == table;
  }

  /** In an ascending table the lookup is constant on [tᵢ, tᵢ₊₁), and from the last threshold on. */
  lemma {:induction false} ConstantBetween<C>(table: Table<C>, i: int, score: int)
    requires Ascending(table) && 0 <= i < |table|
    requires table[i].0 <= score && (i + 1 < |table| ==> score < table[i + 1].0)
    ensures LastReached(table, score) == Some(table[i].1)
  {
    if i < |table| - 1 {
      ConstantBetween(table[..|table| - 1], i, score);
    }
  }

  /** A higher score never selects an earlier entry. */
  lemma {:induction false} Monotone<C>(table: Table<C>, a: int, b: int, i: int)
    requires Ascending(table) && a <= b && 0 <= i < |table|
    requires table[i].0 <= a && (i + 1 < |table| ==> a < table[i + 1].0)
    ensures exists j :: i <= j < |table| && LastReached(table, b) == Some(table[j].1)
  {
    var j := i;
    while j + 1 < |table| && table[j + 1].0 <= b
      invariant i <= j < |table| && table[j].0 <= b
      decreases |table| - j
    {
      j := j + 1;
    }
    ConstantBetween(table, j, b);
  }

  // ----- the fire table -----

  datatype FireConfig = FireConfig(decay: real, sparkRate: real, cooling: real, fps: int)

  const FireTable: Table<FireConfig> := [
    (1, FireConfig(0.1, 0.0, 0.0, 24)),
    (5, FireConfig(0.5, 0.25, 0.0, 26)),
    (10, FireConfig(0.2, 0.75, 0.0, 28)),
    (15, FireConfig(0.1, 0.75, 0.0, 30)),
    (20, FireConfig(0.05, 0.75, 0.0, 32)),
    (25, FireConfig(0.02, 0.8, 0.0, 34)),
    (30, FireConfig(0.01, 0.8, 0.0, 36)),
    (35, FireConfig(0.01, 0.9, 0.0, 38)),
    (40, FireConfig(0.01, 1.0, 0.0, 40)),
    (45, FireConfig(0.0, 1.0, 0.0, 40))]

  /** `getFireConfigForScore`. */
  method FireConfigForScore(score: int) returns (config: Option<FireConfig>)
    ensures config == LastReached(FireTable, score)
    ensures score < 1 <==> config.None?
    ensures score >= 45 ==> config == Some(FireConfig(0.0, 1.0, 0.0, 40))
    ensures config.Some? ==> config.value in FireSettings()
  {
    FireThresholds();
    config := Select(FireTable, score);
    if score >= 45 {
      ConstantBetween(FireTable, 9, score);
    }
  }

  function FireSettings(): set<FireConfig> {
    set i | 0 <= i < |FireTable| :: FireTable[i].1
  }

  lemma FireThresholds()
    ensures Ascending(FireTable) && |FireTable| == 10 && FireTable[0].0 == 1 && FireTable[9].0 == 45
    ensures FireTable[9].1 == FireConfig(0.0, 1.0, 0.0, 40)
  {
  }

  lemma FireTableFacts()
    ensures Ascending(FireTable) && FireTable[0].0 == 1 && FireTable[9].0 == 45
    ensures forall i, j :: 0 <= i < j < |FireTable| ==>
      FireTable[i].1.sparkRate <= FireTable[j].1.sparkRate && FireTable[i].1.fps <= FireTable[j].1.fps
  {
  }

  // ----- the fireworks table -----

  datatype FireworksConfig = FireworksConfig(launchRate: real, particleCount: int, fadeRate: real, fps: int)

  const FireworksTable: Table<FireworksConfig> := [
    (1, FireworksConfig(0.01, 12, 0.03, 20)),
    (10, FireworksConfig(0.01, 12, 0.03, 20)),
    (15, FireworksConfig(0.02, 16, 0.025, 22)),
    (20, FireworksConfig(0.03, 20, 0.02, 24)),
    (25, FireworksConfig(0.04, 24, 0.02, 26)),
    (30, FireworksConfig(0.05, 28, 0.018, 28)),
    (35, FireworksConfig(0.06, 32, 0.016, 30)),
    (40, FireworksConfig(0.07, 36, 0.014, 32)),
    (45, FireworksConfig(0.08, 40, 0.012, 34))]

  lemma FireworksThresholds()
    ensures Ascending(FireworksTable) && |FireworksTable| == 9
    ensures FireworksTable[0].0 == 1 && FireworksTable[1].0 == 10 && FireworksTable[2].0 == 15
    ensures FireworksTable[8].0 == 45
    ensures FireworksTable[0].1 == FireworksTable[1].1 == FireworksConfig(0.01, 12, 0.03, 20)
    ensures FireworksTable[8].1 == FireworksConfig(0.08, 40, 0.012, 34)
  {
  }

  lemma FireworksTableFacts()
    ensures Ascending(FireworksTable) && FireworksTable[0].0 == 1 && FireworksTable[8].0 == 45
    ensures forall i, j :: 0 <= i < j < |FireworksTable| ==>
      && FireworksTable[i].1.launchRate <= FireworksTable[j].1.launchRate
      && FireworksTable[i].1.particleCount <= FireworksTable[j].1.particleCount
      && FireworksTable[i].1.fps <= FireworksTable[j].1.fps
      && FireworksTable[i].1.fadeRate >= FireworksTable[j].1.fadeRate
  {
  }

  /** `getFireworksConfigForScore`. */
  method FireworksConfigForScore(score: int) returns (config: Option<FireworksConfig>)
    ensures config == LastReached(FireworksTable, score)
    ensures score < 1 <==> config.None?
    ensures 1 <= score < 15 ==> config == Some(FireworksConfig(0.01, 12, 0.03, 20))
    ensures score >= 45 ==> config == Some(FireworksConfig(0.08, 40, 0.012, 34))
  {
    FireworksThresholds();
    config := Select(FireworksTable, score);
    if 1 <= score < 10 {
      ConstantBetween(FireworksTable, 0, score);
    } else if 10 <= score < 15 {
      ConstantBetween(FireworksTable, 1, score);
    } else if score >= 45 {
      ConstantBetween(FireworksTable, 8, score);
    }
  }
}
