/**
 * The coloured text fire (AsciiFireColor.tsx): a `Uint8Array` of
 * intensities whose bottom row is re-lit every frame with a random spark
 * and whose cells each push their intensity, less a random decay, into a
 * randomly drifted cell of the row above; intensities are shown through a
 * table of coloured characters built from a character ramp and a palette.
 * The buffer is modelled as a two-dimensional array, the random draws are
 * inputs, and `escapeHtml` (not part of this model) is a parameter.
 */
module FireColor {
  import opened Js
  import opened Text
  import opened Buffers

  const DefaultPalette: seq<string> := ["#000000", "#120000", "#2a0000", "#4a0500", "#7a1a00", "#b23a00", "#ff6a00", "#ffb000", "#fff2a6"]
  const DefaultChars: string := " .:-=+*#%@"

  /** The block character as mis-decoded text, three characters long. */
  const BlockChar: string := "\U{00E2}\U{2013}\U{02C6}"

  /** The component's props (numbers taken as integers). */
  datatype Props = Props(width: int, height: int, fps: int, chars: string, palette: seq<string>, useBlockChar: bool)

  const DefaultProps: Props := Props(80, 40, 30, DefaultChars, DefaultPalette, false)

  /** `Math.max(1, Math.floor(width))`: the component resolves its size the same way as the Doom fire. */
  function Width(p: Props): (w: int)
    ensures w >= 1 && (p.width >= 1 ==> w == p.width)
  {
    Max(1, p.width)
  }

  function Height(p: Props): (h: int)
    ensures h >= 1 && (p.height >= 1 ==> h == p.height)
  {
    Max(1, p.height)
  }

  function Fps(p: Props): (f: int)
    ensures f >= 1 && (p.fps >= 1 ==> f == p.fps)
  {
    Max(1, p.fps)
  }

  /** The characters in use: the prop, or the default ramp when it is empty. */
  function Chars(p: Props): (cs: string)
    ensures |cs| >= 1
    ensures |p.chars| > 0 ==> cs == p.chars
    ensures |p.chars| == 0 ==> cs == DefaultChars
  {
    if |p.chars| > 0 then p.chars else DefaultChars
  }

  function Palette(p: Props): (ps: seq<string>)
    ensures |ps| >= 1
    ensures |p.palette| > 0 ==> ps == p.palette
    ensures |p.palette| == 0 ==> ps == DefaultPalette
  {
    if |p.palette| > 0 then p.palette else DefaultPalette
  }

  /** `Math.max(2, chars.length, palette.length)`: the number of intensity levels. */
  function Levels(p: Props): (n: int)
    ensures n >= 2 && n >= |Chars(p)| && n >= |Palette(p)|
    ensures n == 2 || n == |Chars(p)| || n == |Palette(p)|
  {
    Max(2, Max(|Chars(p)|, |Palette(p)|))
  }

  // ----- the lookup table -----

  /**
   * `Math.round((i / (levels - 1)) * (count - 1))` in exact arithmetic:
   * `floor(x + 1/2)` with x = i·(count−1)/(levels−1).
   */
  function ScaledIndex(i: int, count: int, levels: int): int
    requires levels >= 2
  {
    (2 * i * (count - 1) + (levels - 1)) / (2 * (levels - 1))
  }

  lemma DivBelow(a: int, d: int, n: int)
    requires d > 0 && 0 <= a < d * n
    ensures 0 <= a / d < n
  {
    var q := a / d;
    assert a == d * q + a % d;
    if q >= n {
      MulMono(d, n, q);
    }
  }

  /** Every level maps to an index of a list of `count` entries. */
  lemma ScaledIndexInRange(i: int, count: int, levels: int)
    requires levels >= 2 && count >= 1 && 0 <= i <= levels - 1
    ensures 0 <= ScaledIndex(i, count, levels) < count
  {
    var b := levels - 1;
    var p, q := i * (count - 1), b * (count - 1);
    if count > 1 {
      MulMono(count - 1, i, b);
      MulMono(count - 1, 0, i);
    }
    assert 0 <= p <= q;
    assert 2 * b * count == 2 * q + 2 * b;
    assert 2 * i * (count - 1) + b == 2 * p + b;
    DivBelow(2 * p + b, 2 * b, count);
  }

  /** The first level maps to the first entry, the last level to the last entry. */
  lemma ScaledIndexEnds(count: int, levels: int)
    requires levels >= 2 && count >= 1
    ensures ScaledIndex(0, count, levels) == 0
    ensures ScaledIndex(levels - 1, count, levels) == count - 1
  {
    var b := levels - 1;
    DivOfRange(b, 2 * b, 0);
    DivOfRange(2 * b * (count - 1) + b, 2 * b, count - 1);
  }

  /** One table entry: the colour of its span and its (escaped) character. */
  datatype Entry = Entry(color: string, glyph: string)

  /**
   * Entry `i` of the lookup table: the block character or the scaled
   * character of the ramp (a space if `charAt` found none), escaped, and
   * the scaled palette colour ('#000000' if the palette had none).
   */
  function TableEntry(p: Props, escape: string -> string, i: int): (e: Entry)
    requires 0 <= i < Levels(p)
    ensures e.color in Palette(p)
    ensures p.useBlockChar ==> e.glyph == escape(BlockChar)
    ensures !p.useBlockChar ==> exists c :: c in Chars(p) && e.glyph == escape([c])
  {
    var chars := Chars(p);
    var palette := Palette(p);
    var colorIndex := ScaledIndex(i, |palette|, Levels(p));
    var charIndex := ScaledIndex(i, |chars|, Levels(p));
    ScaledIndexInRange(i, |palette|, Levels(p));
    ScaledIndexInRange(i, |chars|, Levels(p));
    var glyph := if p.useBlockChar then BlockChar
      else if 0 <= charIndex < |chars| then [chars[charIndex]] else " ";
    var color := if 0 <= colorIndex < |palette| then palette[colorIndex] else "#000000";
    Entry(color, escape(glyph))
  }

  function Table(p: Props, escape: string -> string): (table: seq<Entry>)
    ensures |table| == Levels(p)
    ensures forall i :: 0 <= i < |table| ==> table[i] == TableEntry(p, escape, i)
  {
    seq(Levels(p), i requires 0 <= i < Levels(p) => TableEntry(p, escape, i))
  }

  /**
   * Every entry draws its colour from the palette and (without the block
   * character) its character from the ramp: neither fallback is taken.
   */
  lemma TableFromInputs(p: Props, escape: string -> string, i: int)
    requires 0 <= i < Levels(p)
    ensures exists c :: 0 <= c < |Palette(p)| && TableEntry(p, escape, i).color == Palette(p)[c]
    ensures !p.useBlockChar ==>
      exists c :: 0 <= c < |Chars(p)| && TableEntry(p, escape, i).glyph == escape([Chars(p)[c]])
  {
    var colorIndex := ScaledIndex(i, |Palette(p)|, Levels(p));
    var charIndex := ScaledIndex(i, |Chars(p)|, Levels(p));
    ScaledIndexInRange(i, |Palette(p)|, Levels(p));
    ScaledIndexInRange(i, |Chars(p)|, Levels(p));
    assert TableEntry(p, escape, i).color == Palette(p)[colorIndex];
    if !p.useBlockChar {
      assert TableEntry(p, escape, i).glyph == escape([Chars(p)[charIndex]]);
    }
  }

  /** The coldest level shows the first character in the first colour, the hottest the last in the last. */
  lemma TableEnds(p: Props, escape: string -> string)
    requires !p.useBlockChar
    ensures TableEntry(p, escape, 0) == Entry(Palette(p)[0], escape([Chars(p)[0]]))
    ensures TableEntry(p, escape, Levels(p) - 1) ==
      Entry(Palette(p)[|Palette(p)| - 1], escape([Chars(p)[|Chars(p)| - 1]]))
  {
    TableFirst(p, escape);
    TableLast(p, escape);
  }

  lemma TableFirst(p: Props, escape: string -> string)
    requires !p.useBlockChar
    ensures TableEntry(p, escape, 0) == Entry(Palette(p)[0], escape([Chars(p)[0]]))
  {
    ScaledIndexEnds(|Palette(p)|, Levels(p));
    ScaledIndexEnds(|Chars(p)|, Levels(p));
    TableEntryPicks(p, escape, 0);
  }

  lemma TableLast(p: Props, escape: string -> string)
    requires !p.useBlockChar
    ensures TableEntry(p, escape, Levels(p) - 1) ==
      Entry(Palette(p)[|Palette(p)| - 1], escape([Chars(p)[|Chars(p)| - 1]]))
  {
    ScaledIndexEnds(|Palette(p)|, Levels(p));
    ScaledIndexEnds(|Chars(p)|, Levels(p));
    TableEntryPicks(p, escape, Levels(p) - 1);
  }

  /** Without the block character, entry `i` is the scaled colour and the scaled character, both in range. */
  lemma TableEntryPicks(p: Props, escape: string -> string, i: int)
    requires 0 <= i < Levels(p) && !p.useBlockChar
    ensures var c := ScaledIndex(i, |Palette(p)|, Levels(p));
      0 <= c < |Palette(p)| && TableEntry(p, escape, i).color == Palette(p)[c]
    ensures var c := ScaledIndex(i, |Chars(p)|, Levels(p));
      0 <= c < |Chars(p)| && TableEntry(p, escape, i).glyph == escape([Chars(p)[c]])
  {
    ScaledIndexInRange(i, |Palette(p)|, Levels(p));
    ScaledIndexInRange(i, |Chars(p)|, Levels(p));
  }

  // ----- one frame -----

  /** The random draws of one frame: a spark per bottom cell, and a decay and a drift per upper cell. */
  datatype Draws = Draws(spark: seq<int>, decay: Grid, drift: Grid)

  predicate ValidDraws(p: Props, d: Draws) {
    && |d.spark| == Width(p)
    && (forall x :: 0 <= x < |d.spark| ==> FloorRandomRange(3, d.spark[x]))
    && |d.decay| == Height(p) - 1 && |d.drift| == Height(p) - 1
    && (forall y :: 0 <= y < |d.decay| ==> |d.decay[y]| == Width(p) && |d.drift[y]| == Width(p))
    && (forall y, x :: 0 <= y < |d.decay| && 0 <= x < |d.decay[y]| ==> FloorRandomRange(3, d.decay[y][x]))
    && (forall y, x :: 0 <= y < |d.drift| && 0 <= x < |d.drift[y]| ==> -1 <= d.drift[y][x] <= 1)
  }

  predicate Sized(p: Props, g: Grid) {
    |g| == Height(p) && forall y :: 0 <= y < |g| ==> |g[y]| == Width(p)
  }

  function MaxIntensity(p: Props): int {
    Levels(p) - 1
  }

  /** `Math.max(0, maxIntensity - spark)`, stored in a `Uint8Array`. */
  function BottomCell(p: Props, d: Draws, x: int): int
    requires ValidDraws(p, d) && 0 <= x < Width(p)
  {
    ToUint8(Max(0, MaxIntensity(p) - d.spark[x]))
  }

  /** The buffer after the first loop: the old frame with the new bottom row. */
  function Lit(p: Props, g: Grid, d: Draws): (m: Grid)
    requires Sized(p, g) && ValidDraws(p, d)
    ensures Sized(p, m)
  {
    g[..Height(p) - 1] + [seq(Width(p), x requires 0 <= x < Width(p) => BottomCell(p, d, x))]
  }

  /** The column cell (y, x) writes to: `clamp(x + drift, 0, width - 1)`. */
  function Target(p: Props, d: Draws, y: int, x: int): (t: int)
    requires ValidDraws(p, d) && 0 <= y < Height(p) - 1 && 0 <= x < Width(p)
    ensures 0 <= t < Width(p) && x - 1 <= t <= x + 1
  {
    Clamp(x + d.drift[y][x], 0, Width(p) - 1)
  }

  /** What cell (y, x) writes: `intensity > decay ? intensity - decay : 0`, intensity read from the row below. */
  function Pushed(p: Props, lit: Grid, d: Draws, y: int, x: int): int
    requires Sized(p, lit) && ValidDraws(p, d) && 0 <= y < Height(p) - 1 && 0 <= x < Width(p)
  {
    var intensity := lit[y + 1][x];
    ToUint8(if intensity > d.decay[y][x] then intensity - d.decay[y][x] else 0)
  }

  /**
   * The writes of x < k in order, each overwriting its target. A column
   * ends with the value of its last writer, or keeps its old value when
   * nobody wrote to it.
   */
  function Overwrite(row: seq<int>, targets: seq<int>, values: seq<int>, k: nat): (r: seq<int>)
    requires k <= |targets| == |values|
    requires forall x :: 0 <= x < |targets| ==> 0 <= targets[x] < |row|
    ensures |r| == |row|
    ensures forall t :: 0 <= t < |row| && (forall x :: 0 <= x < k ==> targets[x] != t) ==> r[t] == row[t]
    ensures forall t, x :: (0 <= t < |row| && 0 <= x < k && targets[x] == t &&
      (forall x' :: x < x' < k ==> targets[x'] != t)) ==> r[t] == values[x]
  {
    if k == 0 then row
    else Overwrite(row, targets, values, k - 1)[targets[k - 1] := values[k - 1]]
  }

  function Targets(p: Props, d: Draws, y: int): (ts: seq<int>)
    requires ValidDraws(p, d) && 0 <= y < Height(p) - 1
    ensures |ts| == Width(p) && forall x :: 0 <= x < |ts| ==> ts[x] == Target(p, d, y, x)
  {
    seq(Width(p), x requires 0 <= x < Width(p) => Target(p, d, y, x))
  }

  function PushedRow(p: Props, lit: Grid, d: Draws, y: int): (vs: seq<int>)
    requires Sized(p, lit) && ValidDraws(p, d) && 0 <= y < Height(p) - 1
    ensures |vs| == Width(p) && forall x :: 0 <= x < |vs| ==> vs[x] == Pushed(p, lit, d, y, x)
  {
    seq(Width(p), x requires 0 <= x < Width(p) => Pushed(p, lit, d, y, x))
  }

  /** Row y (not the last) of the next frame: the old row overwritten by the pushes from the row below. */
  function UpperRow(p: Props, lit: Grid, d: Draws, y: int): (row: seq<int>)
    requires Sized(p, lit) && ValidDraws(p, d) && 0 <= y < Height(p) - 1
    ensures |row| == Width(p)
  {
    Overwrite(lit[y], Targets(p, d, y), PushedRow(p, lit, d, y), Width(p))
  }

  /** The frame as a function of the old buffer. */
  function Step(p: Props, g: Grid, d: Draws): (r: Grid)
    requires Sized(p, g) && ValidDraws(p, d)
    ensures Sized(p, r)
    ensures Levels(p) <= 256 ==> var bottom := r[Height(p) - 1];
      forall x :: 0 <= x < |bottom| ==> Max(0, MaxIntensity(p) - 2) <= bottom[x] <= MaxIntensity(p)
  {
    var lit := Lit(p, g, d);
    seq(Height(p), y requires 0 <= y < Height(p) =>
      if y == Height(p) - 1 then lit[y] else UpperRow(p, lit, d, y))
  }

  /** The first loop of `updateFrame`: a new sparking bottom row. */
  method LightBottom(p: Props, g: Grid, d: Draws, buffer: array2<int>)
    requires Sized(p, g) && ValidDraws(p, d)
    requires buffer.Length0 == Height(p) && buffer.Length1 == Width(p) && Contents(buffer) == g
    modifies buffer
    ensures Contents(buffer) == Lit(p, g, d)
  {
    var w, bottom := Width(p), Height(p) - 1;
    var lit := Lit(p, g, d);
    var x := 0;
    while x < w
      invariant 0 <= x <= w
      invariant forall j, i :: 0 <= j < bottom && 0 <= i < w ==> buffer[j, i] == g[j][i]
      invariant forall i :: 0 <= i < x ==> buffer[bottom, i] == lit[bottom][i]
    {
      var spark := d.spark[x];
      buffer[bottom, x] := ToUint8(Max(0, MaxIntensity(p) - spark));
      x := x + 1;
    }
    assert forall j :: 0 <= j < bottom ==> Contents(buffer)[j] == g[j] == lit[j];
    assert Contents(buffer)[bottom] == lit[bottom];
  }

  /** One iteration of the inner loop: cell (y + 1, x) pushes into its target in row y. */
  method PushCell(p: Props, lit: Grid, d: Draws, buffer: array2<int>, y: int, x: int)
    requires Sized(p, lit) && ValidDraws(p, d)
    requires buffer.Length0 == Height(p) && buffer.Length1 == Width(p)
    requires 0 <= y < Height(p) - 1 && 0 <= x < Width(p) && buffer[y + 1, x] == lit[y + 1][x]
    modifies buffer
    ensures buffer[y, Target(p, d, y, x)] == Pushed(p, lit, d, y, x)
    ensures forall j, i :: 0 <= j < Height(p) && 0 <= i < Width(p) && (j != y || i != Target(p, d, y, x)) ==>
      buffer[j, i] == old(buffer[j, i])
  {
    var intensity := buffer[y + 1, x];
    var decay := d.decay[y][x];
    var drift := d.drift[y][x];
    var targetX := Clamp(x + drift, 0, Width(p) - 1);
    buffer[y, targetX] := ToUint8(if intensity > decay then intensity - decay else 0);
  }

  /** Row `j` of the buffer holds `row`. */
  ghost predicate RowIs(buffer: array2<int>, j: int, row: seq<int>)
    reads buffer
  {
    0 <= j < buffer.Length0 && forall i :: 0 <= i < |row| && i < buffer.Length1 ==> buffer[j, i] == row[i]
  }

  /** One pass of the second loop of `updateFrame`: the cells of row y + 1 write into row y. */
  method PushRow(p: Props, lit: Grid, d: Draws, buffer: array2<int>, y: int)
    requires Sized(p, lit) && ValidDraws(p, d)
    requires buffer.Length0 == Height(p) && buffer.Length1 == Width(p)
    requires 0 <= y < Height(p) - 1
    requires RowIs(buffer, y, lit[y]) && RowIs(buffer, y + 1, lit[y + 1])
    modifies buffer
    ensures forall j, i :: 0 <= j < Height(p) && j != y && 0 <= i < Width(p) ==> buffer[j, i] == old(buffer[j, i])
    ensures RowIs(buffer, y, UpperRow(p, lit, d, y))
  {
    var w := Width(p);
    ghost var targets, values := Targets(p, d, y), PushedRow(p, lit, d, y);
    ghost var row := lit[y];
    var x := 0;
    while x < w
      invariant 0 <= x <= w
      invariant forall j, i :: 0 <= j < Height(p) && j != y && 0 <= i < w ==> buffer[j, i] == old(buffer[j, i])
      invariant RowIs(buffer, y + 1, lit[y + 1])
      invariant row == Overwrite(lit[y], targets, values, x)
      invariant RowIs(buffer, y, row)
    {
      assert buffer[y + 1, x] == lit[y + 1][x];
      PushCell(p, lit, d, buffer, y, x);
      assert targets[x] == Target(p, d, y, x) && values[x] == Pushed(p, lit, d, y, x);
      row := row[targets[x] := values[x]];
      x := x + 1;
    }
  }

  /**
   * `updateFrame`: the two in-place loops over the buffer, which compute
   * exactly the functional frame.
   */
  method UpdateFrame(p: Props, g: Grid, d: Draws) returns (r: Grid)
    requires Sized(p, g) && ValidDraws(p, d)
    ensures r == Step(p, g, d)
  {
    var w, h := Width(p), Height(p);
    var buffer := Load(g, h, w);
    LightBottom(p, g, d, buffer);
    var lit := Lit(p, g, d);
    ghost var next := Step(p, g, d);
    var y := 0;
    while y < h - 1
      invariant 0 <= y <= h - 1
      invariant forall j, i :: 0 <= j < y && 0 <= i < w ==> buffer[j, i] == next[j][i]
      invariant forall j, i :: y <= j < h && 0 <= i < w ==> buffer[j, i] == lit[j][i]
    {
      PushRow(p, lit, d, buffer, y);
      y := y + 1;
    }
    r := Contents(buffer);
    assert forall j :: 0 <= j < h ==> r[j] == next[j];
  }

  // ----- what a frame guarantees -----

  /** Every cell holds a level of the table. */
  predicate Bounded(p: Props, g: Grid) {
    forall y, x :: 0 <= y < |g| && 0 <= x < |g[y]| ==> 0 <= g[y][x] <= MaxIntensity(p)
  }

  /** The bottom row is within two levels of the top level. */
  lemma BottomRowRange(p: Props, g: Grid, d: Draws, x: int)
    requires Sized(p, g) && ValidDraws(p, d) && 0 <= x < Width(p) && Levels(p) <= 256
    ensures var v := Step(p, g, d)[Height(p) - 1][x];
      Max(0, MaxIntensity(p) - 2) <= v <= MaxIntensity(p)
  {
  }

  /** A cell nobody writes to keeps its value from the previous frame. */
  lemma UntargetedKeeps(p: Props, g: Grid, d: Draws, y: int, t: int)
    requires Sized(p, g) && ValidDraws(p, d)
    requires 0 <= y < Height(p) - 1 && 0 <= t < Width(p)
    requires forall x :: 0 <= x < Width(p) ==> Target(p, d, y, x) != t
    ensures Step(p, g, d)[y][t] == g[y][t]
  {
    var lit := Lit(p, g, d);
    var targets := Targets(p, d, y);
    assert forall x :: 0 <= x < Width(p) ==> targets[x] != t;
  }

  /** On a collision the last writer wins. */
  lemma LastWriterWins(p: Props, g: Grid, d: Draws, y: int, x: int)
    requires Sized(p, g) && ValidDraws(p, d)
    requires 0 <= y < Height(p) - 1 && 0 <= x < Width(p)
    requires forall x' :: x < x' < Width(p) ==> Target(p, d, y, x') != Target(p, d, y, x)
    ensures Step(p, g, d)[y][Target(p, d, y, x)] == Pushed(p, Lit(p, g, d), d, y, x)
  {
    var lit := Lit(p, g, d);
    var targets := Targets(p, d, y);
    assert forall x' :: x < x' < Width(p) ==> targets[x'] != targets[x];
  }

  lemma {:induction false} OverwriteBounded(row: seq<int>, targets: seq<int>, values: seq<int>, k: nat, hi: int)
    requires k <= |targets| == |values|
    requires forall x :: 0 <= x < |targets| ==> 0 <= targets[x] < |row|
    requires forall t :: 0 <= t < |row| ==> 0 <= row[t] <= hi
    requires forall x :: 0 <= x < |values| ==> 0 <= values[x] <= hi
    ensures forall t :: 0 <= t < |row| ==> 0 <= Overwrite(row, targets, values, k)[t] <= hi
  {
    if k > 0 {
      OverwriteBounded(row, targets, values, k - 1, hi);
    }
  }

  /**
   * A buffer of table levels stays one, so the render's `?? ''` fallback
   * is never taken.
   */
  lemma StepBounded(p: Props, g: Grid, d: Draws)
    requires Sized(p, g) && ValidDraws(p, d) && Bounded(p, g)
    ensures Bounded(p, Step(p, g, d))
  {
    var lit := Lit(p, g, d);
    assert Bounded(p, lit);
    forall y | 0 <= y < Height(p) - 1
      ensures forall t :: 0 <= t < Width(p) ==> 0 <= UpperRow(p, lit, d, y)[t] <= MaxIntensity(p)
    {
      var values := PushedRow(p, lit, d, y);
      OverwriteBounded(lit[y], Targets(p, d, y), values, Width(p), MaxIntensity(p));
    }
  }

  /** The fresh buffer is all zeros. */
  function Blank(p: Props): (g: Grid)
    ensures Sized(p, g) && Bounded(p, g)
  {
    seq(Height(p), y => seq(Width(p), x => 0))
  }

  // ----- render -----

  /** `<span style="color: …">…</span>` for one entry. */
  function Markup(e: Entry): string {
    "<span style=\"color: " + e.color + "\">" + e.glyph + "</span>"
  }

  /** `lookup[buffer[index]] ?? ''`. */
  function CellText(p: Props, escape: string -> string, v: int): string {
    var table := Table(p, escape);
    if 0 <= v < |table| then Markup(table[v]) else ""
  }

  function Lines(p: Props, escape: string -> string, g: Grid): (lines: seq<string>)
    ensures |lines| == |g|
  {
    seq(|g|, y requires 0 <= y < |g| =>
      Concat(seq(|g[y]|, x requires 0 <= x < |g[y]| => CellText(p, escape, g[y][x]))))
  }

  /**
   * `renderFrame`: the rows joined by '\n'. With colours and escaped
   * characters free of '\n', the text splits back into one line per row.
   */
  function Render(p: Props, escape: string -> string, g: Grid): (t: string)
    ensures Sized(p, g) && Bounded(p, g) && NoBreaks(p, escape) ==> Split(t, '\n') == Lines(p, escape, g)
  {
    LinesLackBreak(p, escape, g);
    SplitJoinedLines(Lines(p, escape, g));
    Join(Lines(p, escape, g), "\n")
  }

  /** Neither a palette colour nor an escaped text holds a line break. */
  ghost predicate NoBreaks(p: Props, escape: string -> string) {
    && (forall i :: 0 <= i < |Palette(p)| ==> '\n' !in Palette(p)[i])
    && (forall s :: '\n' !in escape(s))
  }

  lemma {:induction false} ConcatLacks(parts: seq<string>, c: char)
    requires forall i :: 0 <= i < |parts| ==> c !in parts[i]
    ensures c !in Concat(parts)
  {
    if |parts| > 1 {
      ConcatLacks(parts[1..], c);
      assert Concat(parts) == parts[0] + "" + Concat(parts[1..]);
    }
  }

  lemma MarkupLacksNewline(e: Entry)
    requires '\n' !in e.color && '\n' !in e.glyph
    ensures '\n' !in Markup(e)
  {
    var pre := "<span style=\"color: ";
    var mid := "\">";
    var post := "</span>";
    assert Markup(e) == pre + e.color + mid + e.glyph + post;
    assert '\n' !in pre && '\n' !in mid && '\n' !in post;
  }

  /** On a buffer of table levels, without line breaks in the inputs, no rendered line holds one. */
  lemma LinesLackBreak(p: Props, escape: string -> string, g: Grid)
    ensures Sized(p, g) && Bounded(p, g) && NoBreaks(p, escape) ==>
      forall y :: 0 <= y < |g| ==> '\n' !in Lines(p, escape, g)[y]
  {
    if Sized(p, g) && Bounded(p, g) && NoBreaks(p, escape) {
      var lines := Lines(p, escape, g);
      forall y | 0 <= y < |lines|
        ensures '\n' !in lines[y]
      {
        var cells := seq(|g[y]|, x requires 0 <= x < |g[y]| => CellText(p, escape, g[y][x]));
        forall x | 0 <= x < |cells|
          ensures '\n' !in cells[x]
        {
          var e := Table(p, escape)[g[y][x]];
          TableFromInputs(p, escape, g[y][x]);
          MarkupLacksNewline(e);
        }
        ConcatLacks(cells, '\n');
      }
    }
  }

  /** Each cell of a rendered line is the markup of its level's table entry: the `?? ''` fallback is never taken. */
  lemma RenderLines(p: Props, escape: string -> string, g: Grid)
    requires Sized(p, g) && Bounded(p, g) && NoBreaks(p, escape)
    ensures |Split(Render(p, escape, g), '\n')| == Height(p)
    ensures forall y, x :: 0 <= y < Height(p) && 0 <= x < Width(p) ==>
      CellText(p, escape, g[y][x]) == Markup(Table(p, escape)[g[y][x]])
  {
  }
}
