/**
 * The `Uint8Array` frame buffers of the two text fires, seen as grids:
 * one row per text line. A buffer is read into a sequence of rows so that
 * the in-place frame updates can be stated against functional frames.
 */
module Buffers {
  type Grid = seq<seq<int>>

  /** The rows of a two-dimensional array. */
  function Contents(a: array2<int>): (g: Grid)
    reads a
    ensures |g| == a.Length0
    ensures forall j :: 0 <= j < |g| ==> |g[j]| == a.Length1
    ensures forall j, i :: 0 <= j < a.Length0 && 0 <= i < a.Length1 ==> g[j][i] == a[j, i]
  {
    seq(a.Length0, j requires 0 <= j < a.Length0 reads a =>
      seq(a.Length1, i requires 0 <= i < a.Length1 reads a => a[j, i]))
  }

  /** A fresh buffer holding the old frame. */
  method Load(g: Grid, h: nat, w: nat) returns (buffer: array2<int>)
    requires |g| == h && forall y :: 0 <= y < h ==> |g[y]| == w
    ensures fresh(buffer) && buffer.Length0 == h && buffer.Length1 == w
    ensures Contents(buffer) == g
  {
    buffer := new int[h, w];
    var y := 0;
    while y < h
      invariant 0 <= y <= h
      invariant forall j, i :: 0 <= j < y && 0 <= i < w ==> buffer[j, i] == g[j][i]
    {
      var x := 0;
      while x < w
        invariant 0 <= x <= w
        invariant forall j, i :: 0 <= j < y && 0 <= i < w ==> buffer[j, i] == g[j][i]
        invariant forall i :: 0 <= i < x ==> buffer[y, i] == g[y][i]
      {
        buffer[y, x] := g[y][x];
        x := x + 1;
      }
      y := y + 1;
    }
    assert forall j :: 0 <= j < h ==> Contents(buffer)[j] == g[j];
  }

}
