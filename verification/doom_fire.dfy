/**
 * The "Doom fire" text effect (AsciiDoomFire.tsx): a `Uint8Array` of
 * intensities, one per character cell, whose bottom row is re-lit every
 * frame with a random flicker and whose upper rows copy, less a random
 * decay, a cell of the row below picked with a random horizontal drift
 * that wraps around. The buffer is processed in place, top row first.
 * The buffer is modelled as a two-dimensional array with one row per
 * text line; the random draws are inputs.
 */
module DoomFire {
  import opened Js
  import opened Text
  import opened Buffers

  /** The component's props (numbers taken as integers). */
  datatype Props = Props(width: int, height: int, charset: string, decayMax: int, driftRange: int, flickerMax: int)

  const DefaultProps: Props := Props(80, 40, " .:-=+*#%@", 2, 1, 2)

  /** `Math.max(1, Math.floor(width))`. */
  function Width(p: Props): (w: int)
    ensures w >= 1 && (p.width >= 1 ==> w == p.width)
  {
    Max(1, p.width)
  }

  function Height(p: Props): (h: int)
    ensures h >= 1 && (p.height >= 1 ==> h == p.height)
  {
    Max(1, p.height)
  }

  /** `charset.split('')`, or a single space when the charset is empty. */
  function Lookup(p: Props): (lookup: seq<char>)
    ensures |lookup| >= 1
    ensures |p.charset| > 0 ==> lookup == p.charset
    ensures |p.charset| == 0 ==> lookup == [' ']
  {
    if |p.charset| > 0 then p.charset else [' ']
  }

  /** `Math.max(lookup.length - 1, 0)`: the index of the hottest character. */
  function MaxIntensity(p: Props): (m: nat)
    ensures m == |Lookup(p)| - 1
  {
    Max(|Lookup(p)| - 1, 0)
  }

  function DriftSpan(p: Props): (s: int)
    ensures s >= 0
  {
    Max(0, p.driftRange)
  }

  function DecaySpan(p: Props): (s: int)
    ensures s >= 0
  {
    Max(0, p.decayMax)
  }

  /** A buffer of the resolved size. */
  predicate Sized(p: Props, g: Grid) {
    |g| == Height(p) && forall y :: 0 <= y < |g| ==> |g[y]| == Width(p)
  }

  /**
   * The random draws of one frame: a flicker per bottom cell (the values
   * `Math.floor(Math.random() * (flickerMax + 1))` can take), and a drift
   * and a decay per upper cell (in [-span, span] and [0, span]; 0 when the
   * span is 0).
   */
  datatype Draws = Draws(flicker: seq<int>, drift: Grid, decay: Grid)

  predicate ValidDraws(p: Props, d: Draws) {
    && |d.flicker| == Width(p)
    && (forall x :: 0 <= x < |d.flicker| ==> FloorRandomRange(p.flickerMax + 1, d.flicker[x]))
    && |d.drift| == Height(p) - 1 && |d.decay| == Height(p) - 1
    && (forall y :: 0 <= y < |d.drift| ==> |d.drift[y]| == Width(p) && |d.decay[y]| == Width(p))
    && (forall y, x :: 0 <= y < |d.drift| && 0 <= x < |d.drift[y]| ==> -DriftSpan(p) <= d.drift[y][x] <= DriftSpan(p))
    && (forall y, x :: 0 <= y < |d.decay| && 0 <= x < |d.decay[y]| ==> 0 <= d.decay[y][x] <= DecaySpan(p))
  }

  /** The bottom cell `x` of the new frame: `Math.max(maxIntensity - flicker, 0)` stored in a `Uint8Array`. */
  function BottomCell(p: Props, d: Draws, x: int): int
    requires ValidDraws(p, d) && 0 <= x < Width(p)
  {
    ToUint8(Max(MaxIntensity(p) - d.flicker[x], 0))
  }

  /** `(x + drift + width) % width`: the column of the row below that cell x copies. */
  function Sample(x: int, drift: int, width: int): int
    requires width > 0
  {
    JsRem(x + drift + width, width)
  }

  /** With a drift no wider than the row, the sample wraps around the row: past either end it re-enters from the other. */
  lemma SampleWraps(x: int, drift: int, width: int)
    requires width > 0 && 0 <= x < width && -width <= drift <= width
    ensures 0 <= Sample(x, drift, width) < width
    ensures Sample(x, drift, width) ==
      if x + drift < 0 then x + drift + width
      else if x + drift >= width then x + drift - width
      else x + drift
  {
    var a := x + drift + width;
    if x + drift < 0 {
      DivOfRange(a, width, 0);
    } else if x + drift >= width {
      DivOfRange(a, width, 2);
    } else {
      DivOfRange(a, width, 1);
    }
  }

  /** `Math.max(source - decay, 0)`: never negative and never above the source. */
  function Decayed(source: int, decay: int): (v: int)
    requires 0 <= decay
    ensures 0 <= v && (0 <= source ==> v <= source)
    ensures source > decay ==> v == source - decay
  {
    Max(source - decay, 0)
  }

  /** The buffer between the two loops: the old frame with the new bottom row. */
  function Lit(p: Props, g: Grid, d: Draws): (m: Grid)
    requires Sized(p, g) && ValidDraws(p, d)
    ensures Sized(p, m)
  {
    g[..Height(p) - 1] + [seq(Width(p), x requires 0 <= x < Width(p) => BottomCell(p, d, x))]
  }

  /**
   * The frame as a function of the old buffer: a new bottom row, and each
   * upper cell the decayed sample of the row below in the lit buffer.
   * Because rows are rewritten top-down, the row below has not yet been
   * rewritten when it is read (except the bottom row, which is rewritten
   * first); a drift wider than the row would make the source read the
   * row it is writing, so the span is at most the width.
   */
  function Step(p: Props, g: Grid, d: Draws): (r: Grid)
    requires Sized(p, g) && ValidDraws(p, d) && DriftSpan(p) <= Width(p)
    ensures Sized(p, r) && Bytes(r)
    ensures p.flickerMax >= 0 && MaxIntensity(p) < 256 ==> var bottom := r[Height(p) - 1];
      forall x :: 0 <= x < |bottom| ==> Max(MaxIntensity(p) - p.flickerMax, 0) <= bottom[x] <= MaxIntensity(p)
  {
    var lit := Lit(p, g, d);
    var w := Width(p);
    seq(Height(p), y requires 0 <= y < Height(p) =>
      if y == Height(p) - 1 then lit[y]
      else seq(w, x requires 0 <= x < w => UpperCell(p, lit, d, y, x)))
  }

  function UpperCell(p: Props, lit: Grid, d: Draws, y: int, x: int): int
    requires Sized(p, lit) && ValidDraws(p, d) && DriftSpan(p) <= Width(p)
    requires 0 <= y < Height(p) - 1 && 0 <= x < Width(p)
  {
    SampleWraps(x, d.drift[y][x], Width(p));
    ToUint8(Decayed(lit[y + 1][Sample(x, d.drift[y][x], Width(p))], d.decay[y][x]))
  }

  /** The first loop of `updateFire`: a new flickering bottom row. */
  method LightBottom(p: Props, g: Grid, d: Draws, buffer: array2<int>)
    requires Sized(p, g) && ValidDraws(p, d)
    requires buffer.Length0 == Height(p) && buffer.Length1 == Width(p) && Contents(buffer) == g
    modifies buffer
    ensures Contents(buffer) == Lit(p, g, d)
  {
    var w, bottom := Width(p), Height(p) - 1;
    var lit := Lit(p, g, d);
    var x := 0;
    while x < w
      invariant 0 <= x <= w
      invariant forall j, i :: 0 <= j < bottom && 0 <= i < w ==> buffer[j, i] == g[j][i]
      invariant forall i :: 0 <= i < x ==> buffer[bottom, i] == lit[bottom][i]
    {
      var flicker := d.flicker[x];
      buffer[bottom, x] := ToUint8(Max(MaxIntensity(p) - flicker, 0));
      x := x + 1;
    }
    assert forall j :: 0 <= j < bottom ==> Contents(buffer)[j] == g[j] == lit[j];
    assert Contents(buffer)[bottom] == lit[bottom];
  }

  /** One pass of the second loop of `updateFire`: row `y` rewritten from row `y + 1`, which is still as lit. */
  method PropagateRow(p: Props, lit: Grid, d: Draws, buffer: array2<int>, y: int)
    requires Sized(p, lit) && ValidDraws(p, d) && DriftSpan(p) <= Width(p)
    requires buffer.Length0 == Height(p) && buffer.Length1 == Width(p)
    requires 0 <= y < Height(p) - 1 && Contents(buffer)[y + 1] == lit[y + 1]
    modifies buffer
    ensures forall j :: 0 <= j < Height(p) && j != y ==> Contents(buffer)[j] == old(Contents(buffer))[j]
    ensures forall i :: 0 <= i < Width(p) ==> buffer[y, i] == UpperCell(p, lit, d, y, i)
  {
    var w := Width(p);
    ghost var before := Contents(buffer);
    var x := 0;
    while x < w
      invariant 0 <= x <= w
      invariant forall j, i :: 0 <= j < Height(p) && j != y && 0 <= i < w ==> buffer[j, i] == before[j][i]
      invariant forall i :: 0 <= i < x ==> buffer[y, i] == UpperCell(p, lit, d, y, i)
    {
      var drift := d.drift[y][x];
      SampleWraps(x, drift, w);
      var sampleX := (x + drift + w) % w;
      var sourceIntensity := buffer[y + 1, sampleX];
      var nextIntensity := Max(sourceIntensity - d.decay[y][x], 0);
      buffer[y, x] := ToUint8(nextIntensity);
      x := x + 1;
    }
    forall j | 0 <= j < Height(p) && j != y
      ensures Contents(buffer)[j] == before[j]
    {
    }
  }

  /**
   * `updateFire` past the frame-interval check: the two in-place loops
   * over the buffer, which compute exactly the functional frame.
   */
  method UpdateFire(p: Props, g: Grid, d: Draws) returns (r: Grid)
    requires Sized(p, g) && ValidDraws(p, d) && DriftSpan(p) <= Width(p)
    ensures r == Step(p, g, d)
  {
    var w, h := Width(p), Height(p);
    var buffer := Load(g, h, w);
    LightBottom(p, g, d, buffer);
    var lit := Lit(p, g, d);
    ghost var next := Step(p, g, d);
    var y := 0;
    while y < h - 1
      invariant 0 <= y <= h - 1
      invariant forall j :: 0 <= j < y ==> Contents(buffer)[j] == next[j]
      invariant forall j :: y <= j < h ==> Contents(buffer)[j] == lit[j]
    {
      PropagateRow(p, lit, d, buffer, y);
      assert Contents(buffer)[y] == next[y];
      y := y + 1;
    }
    r := Contents(buffer);
    assert forall j :: 0 <= j < h ==> r[j] == next[j];
  }

  // ----- what a frame guarantees -----

  /** Every cell holds an index into the lookup. */
  predicate Bounded(p: Props, g: Grid) {
    forall y, x :: 0 <= y < |g| && 0 <= x < |g[y]| ==> 0 <= g[y][x] <= MaxIntensity(p)
  }

  /** The bottom row lies between `maxIntensity - flickerMax` and `maxIntensity` (both cut to the byte range). */
  lemma BottomRowRange(p: Props, g: Grid, d: Draws, x: int)
    requires Sized(p, g) && ValidDraws(p, d) && DriftSpan(p) <= Width(p)
    requires 0 <= x < Width(p) && p.flickerMax >= 0 && MaxIntensity(p) < 256
    ensures var v := Step(p, g, d)[Height(p) - 1][x];
      Max(MaxIntensity(p) - p.flickerMax, 0) <= v <= MaxIntensity(p)
  {
  }

  /** An upper cell is never above the cell it sampled from, and never negative. */
  lemma UpperCellBelowSource(p: Props, g: Grid, d: Draws, y: int, x: int)
    requires Sized(p, g) && ValidDraws(p, d) && DriftSpan(p) <= Width(p)
    requires 0 <= y < Height(p) - 1 && 0 <= x < Width(p)
    requires Bytes(g)
    ensures var s := Sample(x, d.drift[y][x], Width(p));
      0 <= s < Width(p) && 0 <= Step(p, g, d)[y][x] <= Lit(p, g, d)[y + 1][s]
  {
    SampleWraps(x, d.drift[y][x], Width(p));
  }

  /** What a `Uint8Array` can hold. */
  predicate Bytes(g: Grid) {
    forall y, x :: 0 <= y < |g| && 0 <= x < |g[y]| ==> 0 <= g[y][x] < 256
  }

  /** The buffer stays a byte buffer. */
  lemma StepBytes(p: Props, g: Grid, d: Draws)
    requires Sized(p, g) && ValidDraws(p, d) && DriftSpan(p) <= Width(p)
    ensures Bytes(Step(p, g, d))
  {
  }

  /**
   * With a flicker that is never negative (`flickerMax >= -1`), a buffer
   * of lookup indices stays one: every value the render reads is a
   * character of the lookup.
   */
  lemma StepBounded(p: Props, g: Grid, d: Draws)
    requires Sized(p, g) && ValidDraws(p, d) && DriftSpan(p) <= Width(p)
    requires p.flickerMax >= -1 && Bounded(p, g)
    ensures Bounded(p, Step(p, g, d))
  {
    var lit := Lit(p, g, d);
    assert Bounded(p, lit);
    var r := Step(p, g, d);
    forall y, x | 0 <= y < Height(p) - 1 && 0 <= x < Width(p)
      ensures 0 <= r[y][x] <= MaxIntensity(p)
    {
      SampleWraps(x, d.drift[y][x], Width(p));
    }
  }

  /** A flicker of -1 (possible when `flickerMax` is -2) lights a bottom cell one past the last character. */
  lemma NegativeFlickerOverflows(p: Props, g: Grid, d: Draws)
    requires Sized(p, g) && ValidDraws(p, d) && DriftSpan(p) <= Width(p)
    requires d.flicker[0] == -1 && MaxIntensity(p) < 255
    ensures Step(p, g, d)[Height(p) - 1][0] == MaxIntensity(p) + 1
  {
  }

  /** The fresh buffer is all zeros. */
  function Blank(p: Props): (g: Grid)
    ensures Sized(p, g) && Bounded(p, g)
  {
    seq(Height(p), y => seq(Width(p), x => 0))
  }

  // ----- render -----

  /** `lookup[buffer[i]] ?? lookup[0]`. */
  function Glyph(p: Props, v: int): char {
    var lookup := Lookup(p);
    if 0 <= v < |lookup| then lookup[v] else lookup[0]
  }

  /** The lines of `renderFrame`: one character per cell. */
  function Lines(p: Props, g: Grid): (lines: seq<string>)
    ensures |lines| == |g|
    ensures forall y :: 0 <= y < |g| ==> |lines[y]| == |g[y]|
  {
    seq(|g|, y requires 0 <= y < |g| => seq(|g[y]|, x requires 0 <= x < |g[y]| => Glyph(p, g[y][x])))
  }

  /** A charset free of '\n' gives lines free of it. */
  lemma LinesLackBreak(p: Props, g: Grid)
    ensures '\n' !in Lookup(p) ==> forall y :: 0 <= y < |g| ==> '\n' !in Lines(p, g)[y]
  {
    if '\n' !in Lookup(p) {
      forall y | 0 <= y < |g|
        ensures '\n' !in Lines(p, g)[y]
      {
        var line := Lines(p, g)[y];
        forall x | 0 <= x < |line|
          ensures line[x] != '\n'
        {
        }
      }
    }
  }

  /** `renderFrame`: the lines joined by '\n'; with a charset free of '\n' they split back out. */
  function Render(p: Props, g: Grid): (t: string)
    ensures |g| >= 1 && '\n' !in Lookup(p) ==> Split(t, '\n') == Lines(p, g)
  {
    LinesLackBreak(p, g);
    SplitJoinedLines(Lines(p, g));
    Join(Lines(p, g), "\n")
  }

  /** On a buffer of lookup indices the fallback is never used: each character is the lookup entry of its cell. */
  lemma RenderReadsLookup(p: Props, g: Grid)
    requires Sized(p, g) && Bounded(p, g)
    ensures |Lines(p, g)| == Height(p)
    ensures forall y, x :: 0 <= y < Height(p) && 0 <= x < Width(p) ==>
      Lines(p, g)[y][x] == Lookup(p)[g[y][x]]
  {
  }
}
