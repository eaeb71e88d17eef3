/** Point transforms: mapping points between the stage's input and output
    coordinates by the scaled crop offset. Points are stored flat as
    x0, y0, x1, y1, ... */
module Distort {
  import opened Base

  /** The first `n` points of `s` moved by (dx, dy); later entries kept. */
  function Shifted(s: seq<real>, n: nat, dx: real, dy: real): (r: seq<real>)
    requires 2 * n <= |s|
  {
    seq(|s|, k requires 0 <= k < |s| =>
      if k < 2 * n then s[k] + (if k % 2 == 0 then dx else dy) else s[k])
  }

  /** The offset both transforms use: the crop origin times the ratio of the
      input buffer's scale to the pipe's input scale. */
  function Offset(piece: Piece): (xy: (real, real))
    reads piece.data
    requires piece.iscale != 0.0
    ensures piece.bufInScale == piece.iscale ==> xy == (piece.data.x as real, piece.data.y as real)
  {
    var scale := piece.bufInScale / piece.iscale;
    assert piece.bufInScale == piece.iscale ==> scale == 1.0;
    (piece.data.x as real * scale, piece.data.y as real * scale)
  }

  /** distort_transform: subtract the offset from every point, in place. */
  method DistortTransform(piece: Piece, points: array<real>, pointsCount: nat) returns (r: int)
    requires piece.iscale != 0.0
    requires 2 * pointsCount <= points.Length
    modifies points
    ensures r == 1
    ensures points[..] == Shifted(old(points[..]), pointsCount, -Offset(piece).0, -Offset(piece).1)
  {
    var d := piece.data;
    var scale := piece.bufInScale / piece.iscale;
    var x, y := d.x as real * scale, d.y as real * scale;
    assert Offset(piece).0 == x;
    assert Offset(piece).1 == y;
    var i := 0;
    ghost var m := 0;
    while i < pointsCount * 2
      invariant 0 <= m <= pointsCount && i == 2 * m
      invariant points[..] == Shifted(old(points[..]), m, -x, -y)
    {
      ShiftStep(old(points[..]), m, -x, -y);
      points[i] := points[i] - x;
      points[i + 1] := points[i + 1] - y;
      i, m := i + 2, m + 1;
    }
    r := 1;
  }

  /** distort_backtransform: add the offset to every point, in place. */
  method DistortBacktransform(piece: Piece, points: array<real>, pointsCount: nat) returns (r: int)
    requires piece.iscale != 0.0
    requires 2 * pointsCount <= points.Length
    modifies points
    ensures r == 1
    ensures points[..] == Shifted(old(points[..]), pointsCount, Offset(piece).0, Offset(piece).1)
  {
    var d := piece.data;
    var scale := piece.bufInScale / piece.iscale;
    var x, y := d.x as real * scale, d.y as real * scale;
    assert Offset(piece).0 == x;
    assert Offset(piece).1 == y;
    var i := 0;
    ghost var m := 0;
    while i < pointsCount * 2
      invariant 0 <= m <= pointsCount && i == 2 * m
      invariant points[..] == Shifted(old(points[..]), m, x, y)
    {
      ShiftStep(old(points[..]), m, x, y);
      points[i] := points[i] + x;
      points[i + 1] := points[i + 1] + y;
      i, m := i + 2, m + 1;
    }
    r := 1;
  }

  /** Shifting one more point changes exactly its two entries. */
  lemma ShiftStep(s: seq<real>, m: nat, dx: real, dy: real)
    requires 2 * m + 2 <= |s|
    ensures Shifted(s, m + 1, dx, dy)
         == Shifted(s, m, dx, dy)[2 * m := s[2 * m] + dx][2 * m + 1 := s[2 * m + 1] + dy]
  {
  }

  /** Two shifts of the same points compose into one shift by the sum. */
  lemma ShiftCompose(s: seq<real>, n: nat, a: real, b: real, c: real, d: real)
    requires 2 * n <= |s|
    ensures Shifted(Shifted(s, n, a, b), n, c, d) == Shifted(s, n, a + c, b + d)
  {
  }

  /** Backtransform undoes transform and transform undoes backtransform:
      every point comes back and no other entry ever changed. */
  lemma TransformsInverse(s: seq<real>, n: nat, dx: real, dy: real)
    requires 2 * n <= |s|
    ensures Shifted(Shifted(s, n, -dx, -dy), n, dx, dy) == s
    ensures Shifted(Shifted(s, n, dx, dy), n, -dx, -dy) == s
  {
    ShiftCompose(s, n, -dx, -dy, dx, dy);
    ShiftCompose(s, n, dx, dy, -dx, -dy);
  }

  /** Only the first 2n entries move, each by the offset of its axis. */
  lemma ShiftedAt(s: seq<real>, n: nat, dx: real, dy: real, k: nat)
    requires 2 * n <= |s| && k < |s|
    ensures |Shifted(s, n, dx, dy)| == |s|
    ensures k < 2 * n && k % 2 == 0 ==> Shifted(s, n, dx, dy)[k] == s[k] + dx
    ensures k < 2 * n && k % 2 == 1 ==> Shifted(s, n, dx, dy)[k] == s[k] + dy
    ensures k >= 2 * n ==> Shifted(s, n, dx, dy)[k] == s[k]
  {
  }
}
