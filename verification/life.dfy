/**
 * The Game of Life preview (GameOfLifePre.tsx): a boolean grid stepped
 * synchronously with Conway's rules, no wrap-around at the edges, and
 * rendered as one line of '█' and ' ' per row.
 */
module Life {
  import opened Text

  type Grid = seq<seq<bool>>

  /** Every row has `width` cells. */
  predicate Rectangular(g: Grid, width: nat) {
    forall r :: 0 <= r < |g| ==> |g[r]| == width
  }

  /**
   * `createRandomGrid(width, height)` with the random draws as an input:
   * a cell is alive when its draw exceeds 0.7.
   */
  function RandomGrid(width: nat, height: nat, draws: seq<seq<real>>): (g: Grid)
    requires |draws| == height && forall r :: 0 <= r < height ==> |draws[r]| == width
    ensures |g| == height && Rectangular(g, width)
    ensures forall r, c :: 0 <= r < height && 0 <= c < width ==> (g[r][c] <==> draws[r][c] > 0.7)
  {
    seq(height, r requires 0 <= r < height => seq(width, c requires 0 <= c < width => draws[r][c] > 0.7))
  }

  /**
   * Whether the cell at (`row`, `col`) counts as a live neighbour: outside
   * the rows, or outside the width of row 0, it does not; a cell past the
   * end of a shorter row reads as `undefined`, which is not alive either.
   */
  predicate LiveAt(g: Grid, row: int, col: int) {
    && 0 <= row < |g| && 0 <= col < |g[0]|
    && col < |g[row]| && g[row][col]
  }

  function Bit(b: bool): nat {
    if b then 1 else 0
  }

  /** The number of live cells among the eight around (`x`, `y`): the reference definition. */
  function Neighbours(g: Grid, x: int, y: int): (n: nat)
    ensures n <= 8
    ensures y <= 0 || x <= 0 ==> n <= 5
    ensures y >= |g| - 1 ==> n <= 5
  {
    Bit(LiveAt(g, y - 1, x - 1)) + Bit(LiveAt(g, y - 1, x)) + Bit(LiveAt(g, y - 1, x + 1))
    + Bit(LiveAt(g, y, x - 1)) + Bit(LiveAt(g, y, x + 1))
    + Bit(LiveAt(g, y + 1, x - 1)) + Bit(LiveAt(g, y + 1, x)) + Bit(LiveAt(g, y + 1, x + 1))
  }

  /** The term the loop of `countNeighbors` adds for offset number `k` (row-major over [-1, 1]²). */
  function Term(g: Grid, x: int, y: int, k: int): nat
    requires 0 <= k < 9
  {
    var rowOffset := if k < 3 then -1 else if k < 6 then 0 else 1;
    var colOffset := k - 3 * (rowOffset + 1) - 1;
    if rowOffset == 0 && colOffset == 0 then 0 else Bit(LiveAt(g, y + rowOffset, x + colOffset))
  }

  /** The count after the first `k` offsets. */
  function Prefix(g: Grid, x: int, y: int, k: int): nat
    requires 0 <= k <= 9
  {
    if k == 0 then 0 else Prefix(g, x, y, k - 1) + Term(g, x, y, k - 1)
  }

  lemma AllOffsets(g: Grid, x: int, y: int)
    ensures Prefix(g, x, y, 9) == Neighbours(g, x, y)
  {
    assert Prefix(g, x, y, 1) == Bit(LiveAt(g, y - 1, x - 1));
    assert Prefix(g, x, y, 2) == Prefix(g, x, y, 1) + Bit(LiveAt(g, y - 1, x));
    assert Prefix(g, x, y, 3) == Prefix(g, x, y, 2) + Bit(LiveAt(g, y - 1, x + 1));
    assert Prefix(g, x, y, 4) == Prefix(g, x, y, 3) + Bit(LiveAt(g, y, x - 1));
    assert Prefix(g, x, y, 5) == Prefix(g, x, y, 4);
    assert Prefix(g, x, y, 6) == Prefix(g, x, y, 5) + Bit(LiveAt(g, y, x + 1));
    assert Prefix(g, x, y, 7) == Prefix(g, x, y, 6) + Bit(LiveAt(g, y + 1, x - 1));
    assert Prefix(g, x, y, 8) == Prefix(g, x, y, 7) + Bit(LiveAt(g, y + 1, x));
    assert Prefix(g, x, y, 9) == Prefix(g, x, y, 8) + Bit(LiveAt(g, y + 1, x + 1));
  }

  /** Offset (`rowOffset`, `colOffset`) is term number 3·(rowOffset + 1) + colOffset + 1. */
  lemma TermAt(g: Grid, x: int, y: int, rowOffset: int, colOffset: int)
    requires -1 <= rowOffset <= 1 && -1 <= colOffset <= 1
    ensures Term(g, x, y, 3 * (rowOffset + 1) + colOffset + 1)
      == if rowOffset == 0 && colOffset == 0 then 0 else Bit(LiveAt(g, y + rowOffset, x + colOffset))
  {
    var k := 3 * (rowOffset + 1) + colOffset + 1;
    assert k / 3 - 1 == rowOffset && k % 3 - 1 == colOffset;
  }

  /** `countNeighbors`: the two nested offset loops, skipping the centre and out-of-bounds cells. */
  method CountNeighbours(g: Grid, x: int, y: int) returns (count: nat)
    ensures count == Neighbours(g, x, y)
    ensures count <= 8
  {
    count := 0;
    var rowOffset := -1;
    while rowOffset <= 1
      invariant -1 <= rowOffset <= 2
      invariant count == Prefix(g, x, y, 3 * (rowOffset + 1))
    {
      count := CountRow(g, x, y, rowOffset, count);
      rowOffset := rowOffset + 1;
    }
    AllOffsets(g, x, y);
  }

  /** The inner loop of `countNeighbors`: adds the three cells of one row offset. */
  method CountRow(g: Grid, x: int, y: int, rowOffset: int, before: nat) returns (count: nat)
    requires -1 <= rowOffset <= 1 && before == Prefix(g, x, y, 3 * (rowOffset + 1))
    ensures count == Prefix(g, x, y, 3 * (rowOffset + 2))
  {
    count := before;
    var colOffset := -1;
    while colOffset <= 1
      invariant -1 <= colOffset <= 2
      invariant count == Prefix(g, x, y, 3 * (rowOffset + 1) + colOffset + 1)
    {
      ghost var k, before := 3 * (rowOffset + 1) + colOffset + 1, count;
      TermAt(g, x, y, rowOffset, colOffset);
      if !(rowOffset == 0 && colOffset == 0) {
        var row := y + rowOffset;
        var col := x + colOffset;
        if !(row < 0 || row >= |g| || col < 0 || col >= |g[0]|) {
          if col < |g[row]| && g[row][col] {
            count := count + 1;
          }
        }
        assert count == before + Bit(LiveAt(g, row, col));
      }
      assert count == before + Term(g, x, y, k);
      colOffset := colOffset + 1;
    }
  }

  /** Conway's rule: a live cell survives on 2 or 3 neighbours, a dead one is born on 3. */
  predicate NextAlive(alive: bool, n: nat) {
    if alive then n == 2 || n == 3 else n == 3
  }

  /** `stepGrid`: every cell of the new grid is computed from the old grid only. */
  function Step(g: Grid): (next: Grid)
    ensures |next| == |g|
    ensures forall r :: 0 <= r < |g| ==> |next[r]| == |g[r]|
    ensures forall r, c :: 0 <= r < |g| && 0 <= c < |g[r]| ==>
      (g[r][c] ==> (next[r][c] <==> Neighbours(g, c, r) == 2 || Neighbours(g, c, r) == 3))
    ensures forall r, c :: 0 <= r < |g| && 0 <= c < |g[r]| ==>
      (!g[r][c] ==> (next[r][c] <==> Neighbours(g, c, r) == 3))
  {
    seq(|g|, r requires 0 <= r < |g| =>
      seq(|g[r]|, c requires 0 <= c < |g[r]| => NextAlive(g[r][c], Neighbours(g, c, r))))
  }

  /** No cell in the corner can see more than three neighbours: the edges do not wrap. */
  lemma CornerSeesThree(g: Grid)
    ensures Neighbours(g, 0, 0) <= 3
  {
  }

  /** A grid without live cells. */
  predicate Dead(g: Grid) {
    forall r, c :: 0 <= r < |g| && 0 <= c < |g[r]| ==> !g[r][c]
  }

  lemma DeadHasNoNeighbours(g: Grid, x: int, y: int)
    requires Dead(g)
    ensures Neighbours(g, x, y) == 0
  {
  }

  /** The all-dead grid is a fixed point of the step. */
  lemma DeadIsFixed(g: Grid)
    requires Dead(g)
    ensures Step(g) == g
  {
    var next := Step(g);
    forall r | 0 <= r < |g|
      ensures next[r] == g[r]
    {
      forall c | 0 <= c < |g[r]|
        ensures next[r][c] == g[r][c]
      {
        DeadHasNoNeighbours(g, c, r);
      }
    }
  }

  /** Two grids that agree on a cell's 3×3 block (and the width of row 0) agree on it after a step. */
  lemma StepIsLocal(g: Grid, h: Grid, x: int, y: int)
    requires |g| == |h| && 0 <= y < |g| && 0 <= x < |g[y]| && x < |h[y]|
    requires |g[0]| == |h[0]| && x < |g[0]|
    requires forall r, c :: y - 1 <= r <= y + 1 && x - 1 <= c <= x + 1 ==> LiveAt(g, r, c) == LiveAt(h, r, c)
    ensures Step(g)[y][x] == Step(h)[y][x]
  {
    assert LiveAt(g, y, x) == LiveAt(h, y, x);
    assert Neighbours(g, x, y) == Neighbours(h, x, y);
  }

  /** The 2×2 block is a still life: each cell sees the other three. */
  lemma BlockIsStill()
    ensures Step([[true, true], [true, true]]) == [[true, true], [true, true]]
  {
    var g := [[true, true], [true, true]];
    assert |g| == 2 && |g[0]| == 2 && |g[1]| == 2;
    assert g[0][0] && g[0][1] && g[1][0] && g[1][1];
    var next := Step(g);
    forall r, c | 0 <= r < 2 && 0 <= c < 2
      ensures next[r][c]
    {
      assert Neighbours(g, c, r) == 3;
    }
    assert next[0] == g[0] && next[1] == g[1];
  }

  // ----- render -----

  const LiveChar: char := '\U{2588}'

  function CellChar(alive: bool): char {
    if alive then LiveChar else ' '
  }

  /** One row of the output: one character per cell. */
  function RowText(row: seq<bool>): (line: string)
    ensures |line| == |row|
    ensures forall c :: 0 <= c < |row| ==> (line[c] == LiveChar <==> row[c]) && line[c] in {LiveChar, ' '}
  {
    seq(|row|, c requires 0 <= c < |row| => CellChar(row[c]))
  }

  function Lines(g: Grid): (lines: seq<string>)
    ensures |lines| == |g|
    ensures forall r :: 0 <= r < |g| ==> lines[r] == RowText(g[r])
  {
    seq(|g|, r requires 0 <= r < |g| => RowText(g[r]))
  }

  /** No rendered line holds a line break. */
  lemma LinesLackBreak(g: Grid)
    ensures forall r :: 0 <= r < |g| ==> '\n' !in Lines(g)[r]
  {
    forall r | 0 <= r < |g|
      ensures '\n' !in Lines(g)[r]
    {
      var line := Lines(g)[r];
      forall c | 0 <= c < |line|
        ensures line[c] != '\n'
      {
      }
    }
  }

  /** The text shown: the rows joined by '\n', which split back into one line per row. */
  function Render(g: Grid): (t: string)
    ensures |g| >= 1 ==> Split(t, '\n') == Lines(g)
  {
    LinesLackBreak(g);
    SplitJoinedLines(Lines(g));
    Join(Lines(g), "\n")
  }

  /** Reading a rendered line back: '█' is a live cell. */
  function ReadRow(line: string): (row: seq<bool>)
    ensures |row| == |line|
  {
    seq(|line|, c requires 0 <= c < |line| => line[c] == LiveChar)
  }

  /** The rendering is faithful: the grid can be read back from the text, line by line. */
  lemma RenderRoundTrip(g: Grid)
    requires |g| >= 1
    ensures |Split(Render(g), '\n')| == |g|
    ensures forall r :: 0 <= r < |g| ==> ReadRow(Split(Render(g), '\n')[r]) == g[r]
  {
    forall r | 0 <= r < |g|
      ensures ReadRow(Lines(g)[r]) == g[r]
    {
    }
  }
}
