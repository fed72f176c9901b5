/**
 * The text fire preview (FirePre.tsx): a grid of intensities 0..15 seeded
 * from the bottom row and a square heat source; each frame every upper
 * cell takes a weighted average of the three cells below it, loses a
 * random decay and drifts one column left or right at random; the grid is
 * rendered through an 11-token palette. The random draws are inputs:
 * one decay in [0, 3] and one drift in [-1, 1] per cell.
 */
module FirePre {
  import opened Text
  import opened Js

  const MaxIntensity: int := 15

  /** The palette; its last entry is the block character as mis-decoded text, three characters long. */
  const FireChars: seq<string> := [" ", ".", ":", "-", "=", "+", "*", "#", "%", "@", "\U{00E2}\U{2013}\U{02C6}"]

  type Grid = seq<seq<int>>

  predicate Rectangular(g: Grid, width: nat) {
    forall y :: 0 <= y < |g| ==> |g[y]| == width
  }

  /** The grids the component works with: at least one row, every row as wide as the first. */
  predicate Shaped(g: Grid) {
    |g| >= 1 && Rectangular(g, |g[0]|)
  }

  function Width(g: Grid): nat
    requires |g| >= 1
  {
    |g[0]|
  }

  /** Every cell is a valid intensity. */
  predicate InRange(g: Grid) {
    forall y, x :: 0 <= y < |g| && 0 <= x < |g[y]| ==> 0 <= g[y][x] <= MaxIntensity
  }

  function Row(width: nat, v: int): (row: seq<int>)
    ensures |row| == width && forall x :: 0 <= x < width ==> row[x] == v
  {
    seq(width, x => v)
  }

  /** `createEmptyGrid(width, height)`. */
  function EmptyGrid(width: nat, height: nat): (g: Grid)
    ensures |g| == height && Rectangular(g, width)
    ensures forall y, x :: 0 <= y < height && 0 <= x < width ==> g[y][x] == 0
  {
    seq(height, y => Row(width, 0))
  }

  /**
   * `seedBottomRow(grid, width)`: a copy whose last row is `width` cells at
   * full intensity; an empty grid has no last row and is returned as it was.
   */
  function SeedBottomRow(g: Grid, width: nat): (r: Grid)
    ensures |r| == |g|
    ensures forall y :: 0 <= y < |g| - 1 ==> r[y] == g[y]
    ensures |g| > 0 ==> r[|g| - 1] == Row(width, MaxIntensity)
  {
    if |g| == 0 then g else g[..|g| - 1] + [Row(width, MaxIntensity)]
  }

  datatype HeatSource = HeatSource(x: int, y: int, size: int)

  /** The rectangle `applyHeatSource` fills: both corners clamped into the grid. */
  predicate Heated(height: int, width: int, hs: HeatSource, y: int, x: int) {
    var startX := Clamp(hs.x, 0, width - 1);
    var startY := Clamp(hs.y, 0, height - 1);
    var endX := Clamp(startX + hs.size - 1, 0, width - 1);
    var endY := Clamp(startY + hs.size - 1, 0, height - 1);
    startY <= y <= endY && startX <= x <= endX
  }

  /**
   * `applyHeatSource`: a copy with the clamped rectangle at full intensity.
   * A row of width 0 has no cells to fill (the write to index -1 sets a
   * property, not an element). The source reads `grid[0]`, so the grid
   * must have a row.
   */
  function ApplyHeatSource(g: Grid, hs: HeatSource): (r: Grid)
    requires |g| >= 1
    ensures |r| == |g| && forall y :: 0 <= y < |g| ==> |r[y]| == |g[y]|
    ensures forall y, x :: 0 <= y < |g| && 0 <= x < |g[y]| ==>
      r[y][x] == if Heated(|g|, Width(g), hs, y, x) then MaxIntensity else g[y][x]
  {
    seq(|g|, y requires 0 <= y < |g| =>
      seq(|g[y]|, x requires 0 <= x < |g[y]| => if Heated(|g|, Width(g), hs, y, x) then MaxIntensity else g[y][x]))
  }

  /** Applying the heat source twice is the same as applying it once. */
  lemma HeatIdempotent(g: Grid, hs: HeatSource)
    requires |g| >= 1
    ensures ApplyHeatSource(ApplyHeatSource(g, hs), hs) == ApplyHeatSource(g, hs)
  {
    var once := ApplyHeatSource(g, hs);
    assert Width(once) == Width(g);
    var twice := ApplyHeatSource(once, hs);
    forall y | 0 <= y < |g|
      ensures twice[y] == once[y]
    {
    }
  }

  /** A source inside the grid with a positive size heats exactly the size×size square at (x, y), cut at the edges. */
  lemma HeatedSquare(height: int, width: int, hs: HeatSource, y: int, x: int)
    requires 0 <= hs.x < width && 0 <= hs.y < height && hs.size >= 1
    requires 0 <= y < height && 0 <= x < width
    ensures Heated(height, width, hs, y, x) <==> hs.y <= y < hs.y + hs.size && hs.x <= x < hs.x + hs.size
  {
  }

  /** A source past the right edge still heats the last column: its corner is clamped into the grid. */
  lemma OffScreenHeatsEdge(height: int, width: int, hs: HeatSource)
    requires width >= 1 && hs.x >= width && 0 <= hs.y < height && hs.size >= 1
    ensures Heated(height, width, hs, hs.y, width - 1)
  {
  }

  /** A source of size 0 at the origin still heats the corner cell: the end corner is clamped up to 0. */
  lemma EmptySourceHeatsCorner(height: int, width: int)
    requires height >= 1 && width >= 1
    ensures Heated(height, width, HeatSource(0, 0, 0), 0, 0)
  {
  }

  /** `getSeededGrid`: the empty grid, its bottom row lit when `useBottomSeed`, then the heat source. */
  function SeededGrid(width: nat, height: nat, hs: HeatSource, useBottomSeed: bool): (g: Grid)
    requires height >= 1
    ensures |g| == height && Rectangular(g, width) && InRange(g)
    ensures useBottomSeed ==> g[height - 1] == Row(width, MaxIntensity)
    ensures forall y, x :: 0 <= y < height && 0 <= x < width ==> (g[y][x] == 0 || g[y][x] == MaxIntensity)
    ensures forall y, x :: 0 <= y < height && 0 <= x < width && g[y][x] == MaxIntensity ==>
      (useBottomSeed && y == height - 1) || Heated(height, width, hs, y, x)
  {
    var empty := EmptyGrid(width, height);
    var seeded := if useBottomSeed then SeedBottomRow(empty, width) else empty;
    assert Width(seeded) == Width(empty);
    ApplyHeatSource(seeded, hs)
  }

  // ----- one frame -----

  /** Per-cell random draws for one frame: a decay in [0, 3] and a drift in [-1, 1] for every cell. */
  predicate ValidDraws(g: Grid, decay: Grid, drift: Grid) {
    && |decay| == |g| && |drift| == |g|
    && (forall y :: 0 <= y < |g| ==> |decay[y]| == |g[y]| && |drift[y]| == |g[y]|)
    && (forall y, x :: 0 <= y < |decay| && 0 <= x < |decay[y]| ==> FloorRandomRange(4, decay[y][x]))
    && (forall y, x :: 0 <= y < |drift| && 0 <= x < |drift[y]| ==> -1 <= drift[y][x] <= 1)
  }

  /** `floor((below * 2 + belowLeft + belowRight) / 4)`, the neighbours clamped into the row. */
  function Weighted(g: Grid, y: int, x: int): int
    requires Shaped(g) && 0 <= y < |g| - 1 && 0 <= x < Width(g)
  {
    var w := Width(g);
    var below := g[y + 1][x];
    var belowLeft := g[y + 1][if x - 1 > 0 then x - 1 else 0];
    var belowRight := g[y + 1][if x + 1 < w - 1 then x + 1 else w - 1];
    (below * 2 + belowLeft + belowRight) / 4
  }

  /** The intensity cell (y, x) passes upward: the weighted value less its decay, clamped to [0, 15]. */
  function Contribution(g: Grid, decay: Grid, y: int, x: int): int
    requires Shaped(g) && 0 <= y < |g| - 1 && 0 <= x < Width(g)
    requires |decay| == |g| && |decay[y]| == |g[y]|
  {
    Clamp(Weighted(g, y, x) - decay[y][x], 0, MaxIntensity)
  }

  /** The column cell (y, x) writes to: `x + drift`, clamped into the row. */
  function Target(g: Grid, drift: Grid, y: int, x: int): int
    requires Shaped(g) && 0 <= y < |g| && 0 <= x < Width(g)
    requires |drift| == |g| && |drift[y]| == |g[y]|
  {
    Clamp(x + drift[y][x], 0, Width(g) - 1)
  }

  /** No heat appears from nothing: a contribution never exceeds the hottest of the three cells below. */
  lemma ContributionBounded(g: Grid, decay: Grid, drift: Grid, y: int, x: int)
    requires Shaped(g) && ValidDraws(g, decay, drift) && InRange(g)
    requires 0 <= y < |g| - 1 && 0 <= x < Width(g)
    ensures var w := Width(g);
      var m := Max3(g[y + 1][x], g[y + 1][if x - 1 > 0 then x - 1 else 0], g[y + 1][if x + 1 < w - 1 then x + 1 else w - 1]);
      0 <= Contribution(g, decay, y, x) <= m
  {
  }

  function Max3(a: int, b: int, c: int): (m: int)
    ensures m >= a && m >= b && m >= c && (m == a || m == b || m == c)
  {
    if a >= b && a >= c then a else if b >= c then b else c
  }

  /**
   * Writes `values[x]` into column `targets[x]` for x < k, keeping the
   * larger value in each column (`next[y][drift] = Math.max(next[y][drift], intensity)`).
   * Each column ends at the largest value aimed at it, or its starting value.
   */
  function Scatter(acc: seq<int>, targets: seq<int>, values: seq<int>, k: nat): (r: seq<int>)
    requires k <= |targets| == |values|
    requires forall x :: 0 <= x < |targets| ==> 0 <= targets[x] < |acc|
    ensures |r| == |acc|
    ensures forall t :: 0 <= t < |acc| ==> r[t] >= acc[t]
    ensures forall t, x :: 0 <= t < |acc| && 0 <= x < k && targets[x] == t ==> r[t] >= values[x]
    ensures forall t :: 0 <= t < |acc| ==>
      r[t] == acc[t] || exists x :: 0 <= x < k && targets[x] == t && r[t] == values[x]
  {
    if k == 0 then acc
    else
      var prev := Scatter(acc, targets, values, k - 1);
      var t := targets[k - 1];
      prev[t := if prev[t] >= values[k - 1] then prev[t] else values[k - 1]]
  }

  /** Scattering values of a range into a row of that range stays in the range. */
  lemma {:induction false} ScatterWithin(acc: seq<int>, targets: seq<int>, values: seq<int>, k: nat, lo: int, hi: int)
    requires k <= |targets| == |values|
    requires forall x :: 0 <= x < |targets| ==> 0 <= targets[x] < |acc|
    requires forall t :: 0 <= t < |acc| ==> lo <= acc[t] <= hi
    requires forall x :: 0 <= x < |values| ==> lo <= values[x] <= hi
    ensures forall t :: 0 <= t < |acc| ==> lo <= Scatter(acc, targets, values, k)[t] <= hi
  {
    if k > 0 {
      ScatterWithin(acc, targets, values, k - 1, lo, hi);
    }
  }

  function Targets(g: Grid, drift: Grid, y: int): (ts: seq<int>)
    requires Shaped(g) && 0 <= y < |g| && |drift| == |g| && |drift[y]| == |g[y]|
    ensures |ts| == Width(g)
    ensures forall x :: 0 <= x < |ts| ==> ts[x] == Target(g, drift, y, x) && 0 <= ts[x] < Width(g)
  {
    seq(Width(g), x requires 0 <= x < Width(g) => Target(g, drift, y, x))
  }

  function Contributions(g: Grid, decay: Grid, y: int): (vs: seq<int>)
    requires Shaped(g) && 0 <= y < |g| - 1 && |decay| == |g| && |decay[y]| == |g[y]|
    ensures |vs| == Width(g)
    ensures forall x :: 0 <= x < |vs| ==> vs[x] == Contribution(g, decay, y, x) && 0 <= vs[x] <= MaxIntensity
  {
    seq(Width(g), x requires 0 <= x < Width(g) => Contribution(g, decay, y, x))
  }

  /** Row `y` (not the last) of the next frame before the heat source: the scattered contributions of row y. */
  function UpperRow(g: Grid, decay: Grid, drift: Grid, y: int): (row: seq<int>)
    requires Shaped(g) && ValidDraws(g, decay, drift) && 0 <= y < |g| - 1
    ensures |row| == Width(g)
    ensures forall t :: 0 <= t < |row| ==> 0 <= row[t] <= MaxIntensity
    ensures forall t, x :: 0 <= t < |row| && 0 <= x < |row| && Target(g, drift, y, x) == t ==>
      row[t] >= Contribution(g, decay, y, x)
    ensures forall t :: 0 <= t < |row| ==>
      row[t] == 0 || exists x :: 0 <= x < |row| && Target(g, drift, y, x) == t && row[t] == Contribution(g, decay, y, x)
  {
    var w := Width(g);
    var targets := Targets(g, drift, y);
    var values := Contributions(g, decay, y);
    ScatterWithin(Row(w, 0), targets, values, w, 0, MaxIntensity);
    Scatter(Row(w, 0), targets, values, w)
  }

  /** The next frame before the heat source: upper rows from the rows below, the last row 15 or 0. */
  function Unheated(g: Grid, decay: Grid, drift: Grid, useBottomSeed: bool): (n: Grid)
    requires Shaped(g) && ValidDraws(g, decay, drift)
    ensures |n| == |g| && Rectangular(n, Width(g)) && InRange(n)
  {
    seq(|g|, y requires 0 <= y < |g| =>
      if y == |g| - 1 then Row(Width(g), if useBottomSeed then MaxIntensity else 0)
      else UpperRow(g, decay, drift, y))
  }

  /**
   * `stepFire`: the next frame, built from the old grid only. Whatever the
   * old grid holds, every new cell is in [0, 15]; the bottom row is lit
   * when seeded and otherwise dark outside the heat source.
   */
  function StepFire(g: Grid, hs: HeatSource, useBottomSeed: bool, decay: Grid, drift: Grid): (r: Grid)
    requires Shaped(g) && ValidDraws(g, decay, drift)
    ensures |r| == |g| && Rectangular(r, Width(g)) && InRange(r)
    ensures useBottomSeed ==> r[|g| - 1] == Row(Width(g), MaxIntensity)
    ensures !useBottomSeed ==> forall y, x :: y == |g| - 1 && 0 <= x < Width(g) && !Heated(|g|, Width(g), hs, y, x) ==> r[y][x] == 0
  {
    var n := Unheated(g, decay, drift, useBottomSeed);
    assert Width(n) == Width(g);
    ApplyHeatSource(n, hs)
  }

  /** An upper cell of the next frame is at least every contribution aimed at it. */
  lemma StepFireCollects(g: Grid, hs: HeatSource, useBottomSeed: bool, decay: Grid, drift: Grid, y: int, x: int)
    requires Shaped(g) && ValidDraws(g, decay, drift)
    requires 0 <= y < |g| - 1 && 0 <= x < Width(g)
    ensures StepFire(g, hs, useBottomSeed, decay, drift)[y][Target(g, drift, y, x)] >= Contribution(g, decay, y, x)
  {
    var n := Unheated(g, decay, drift, useBottomSeed);
    assert n[y] == UpperRow(g, decay, drift, y);
  }

  /** Outside the heat source, an upper cell of the next frame is 0 or one of the contributions aimed at it. */
  lemma StepFireFromBelow(g: Grid, hs: HeatSource, useBottomSeed: bool, decay: Grid, drift: Grid, y: int, t: int)
    requires Shaped(g) && ValidDraws(g, decay, drift)
    requires 0 <= y < |g| - 1 && 0 <= t < Width(g) && !Heated(|g|, Width(g), hs, y, t)
    ensures var r := StepFire(g, hs, useBottomSeed, decay, drift);
      r[y][t] == 0 || exists x :: 0 <= x < Width(g) && Target(g, drift, y, x) == t && r[y][t] == Contribution(g, decay, y, x)
  {
    var n := Unheated(g, decay, drift, useBottomSeed);
    assert n[y] == UpperRow(g, decay, drift, y);
  }

  predicate Dark(row: seq<int>) {
    forall x :: 0 <= x < |row| ==> row[x] == 0
  }

  /** Above a dark row nothing burns: the row takes no heat except from the heat source. */
  lemma DarkRowBelow(g: Grid, hs: HeatSource, useBottomSeed: bool, decay: Grid, drift: Grid, y: int)
    requires Shaped(g) && ValidDraws(g, decay, drift) && InRange(g)
    requires 0 <= y < |g| - 1
    requires Dark(g[y + 1])
    ensures forall t :: 0 <= t < Width(g) && !Heated(|g|, Width(g), hs, y, t) ==> StepFire(g, hs, useBottomSeed, decay, drift)[y][t] == 0
  {
    forall x | 0 <= x < Width(g)
      ensures Contribution(g, decay, y, x) == 0
    {
      ContributionBounded(g, decay, drift, y, x);
    }
    forall t | 0 <= t < Width(g) && !Heated(|g|, Width(g), hs, y, t)
      ensures StepFire(g, hs, useBottomSeed, decay, drift)[y][t] == 0
    {
      StepFireFromBelow(g, hs, useBottomSeed, decay, drift, y, t);
    }
  }

  // ----- render -----

  /** `Math.floor((cell / MAX_INTENSITY) * (FIRE_CHARS.length - 1))`, in exact arithmetic. */
  function CharIndex(cell: int): int {
    (cell * (|FireChars| - 1)) / MaxIntensity
  }

  lemma CharIndexInRange(cell: int)
    requires 0 <= cell <= MaxIntensity
    ensures 0 <= CharIndex(cell) < |FireChars|
    ensures cell == MaxIntensity <==> CharIndex(cell) == |FireChars| - 1
    ensures cell == 0 ==> CharIndex(cell) == 0
  {
  }

  /** Hotter cells never get an earlier palette entry. */
  lemma CharIndexMonotone(a: int, b: int)
    requires a <= b
    ensures CharIndex(a) <= CharIndex(b)
  {
    assert a * 10 <= b * 10;
  }

  /** The token of one cell; an index outside the palette is `undefined`, which `join` renders as "". */
  function CellToken(cell: int): (t: string)
    ensures 0 <= cell <= MaxIntensity ==> t == FireChars[CharIndex(cell)]
  {
    var i := CharIndex(cell);
    if 0 <= i < |FireChars| then FireChars[i] else ""
  }

  /** The rendered frame as tokens: one row of tokens per grid row, one token per cell. */
  function Tokens(g: Grid): (ts: seq<seq<string>>)
    ensures |ts| == |g|
    ensures forall y :: 0 <= y < |g| ==> |ts[y]| == |g[y]|
    ensures InRange(g) ==> forall y, x :: 0 <= y < |g| && 0 <= x < |g[y]| ==> ts[y][x] in FireChars
  {
    seq(|g|, y requires 0 <= y < |g| => seq(|g[y]|, x requires 0 <= x < |g[y]| => CellToken(g[y][x])))
  }

  /** Each row's tokens glued together. */
  function Lines(g: Grid): (lines: seq<string>)
    ensures |lines| == |g|
    ensures forall y :: 0 <= y < |g| ==> lines[y] == Concat(Tokens(g)[y])
  {
    seq(|g|, y requires 0 <= y < |g| => Concat(Tokens(g)[y]))
  }

  /**
   * The text of the `<pre>`: the lines joined by '\n'. Every palette token
   * is free of '\n', so a frame of valid intensities splits back into one
   * line per row.
   */
  function Render(g: Grid): (t: string)
    ensures |g| >= 1 && InRange(g) ==> Split(t, '\n') == Lines(g)
  {
    LinesLackBreak(g);
    SplitJoinedLines(Lines(g));
    Join(Lines(g), "\n")
  }

  lemma LinesLackBreak(g: Grid)
    ensures InRange(g) ==> forall y :: 0 <= y < |g| ==> '\n' !in Lines(g)[y]
  {
    if InRange(g) {
      forall y | 0 <= y < |g|
        ensures '\n' !in Lines(g)[y]
      {
        TokensLackNewline(Tokens(g)[y]);
      }
    }
  }

  lemma {:induction false} TokensLackNewline(row: seq<string>)
    requires forall x :: 0 <= x < |row| ==> row[x] in FireChars
    ensures '\n' !in Concat(row)
  {
    if |row| > 1 {
      TokensLackNewline(row[1..]);
      assert Concat(row) == row[0] + "" + Concat(row[1..]);
    }
  }
}
