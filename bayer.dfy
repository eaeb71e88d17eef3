/** Bayer phase indexing: which of the four 2x2 mosaic classes an output
    pixel belongs to. */
module Bayer {
  import opened Base

  /** BL: the mosaic class of output pixel (row, col) of a region whose origin
      is (roiOut.x, roiOut.y), when the stage crops (cx, cy) sensor pixels off
      the top-left corner. The class is twice the row parity plus the column
      parity of the pixel's sensor position (`& 1` on a two's-complement int is
      the Euclidean remainder by 2). */
  function BL(roiOut: Region, cx: int, cy: int, row: int, col: int): (r: int)
    ensures 0 <= r < 4
    ensures r / 2 == (row + roiOut.y + cy) % 2
    ensures r % 2 == (col + roiOut.x + cx) % 2
  {
    ((row + roiOut.y + cy) % 2) * 2 + (col + roiOut.x + cx) % 2
  }

  /** Two pixels share a class exactly when their rows and their columns
      have the same parity. */
  lemma SameClassIff(roiOut: Region, cx: int, cy: int, r1: int, c1: int, r2: int, c2: int)
    ensures BL(roiOut, cx, cy, r1, c1) == BL(roiOut, cx, cy, r2, c2)
        <==> (r1 - r2) % 2 == 0 && (c1 - c2) % 2 == 0
  {
    var a, b := BL(roiOut, cx, cy, r1, c1), BL(roiOut, cx, cy, r2, c2);
    if a == b {
      assert (r1 + roiOut.y + cy) % 2 == (r2 + roiOut.y + cy) % 2;
      assert (c1 + roiOut.x + cx) % 2 == (c2 + roiOut.x + cx) % 2;
    }
  }

  /** The class has period 2 in both directions. */
  lemma Periodic(roiOut: Region, cx: int, cy: int, row: int, col: int, m: int, n: int)
    ensures BL(roiOut, cx, cy, row + 2 * m, col + 2 * n) == BL(roiOut, cx, cy, row, col)
  {
    SameClassIff(roiOut, cx, cy, row + 2 * m, col + 2 * n, row, col);
  }

  /** A crop of (cx, cy) seen at output pixel (row, col) gives the class of
      sensor pixel (row + cy, col + cx) without crop. */
  lemma CropShift(roiOut: Region, cx: int, cy: int, row: int, col: int)
    ensures BL(roiOut, cx, cy, row, col) == BL(roiOut, 0, 0, row + cy, col + cx)
  {
  }

  /** Moving the region origin by (dx, dy) is the same as moving the pixel. */
  lemma OriginShift(roiOut: Region, cx: int, cy: int, row: int, col: int, dx: int, dy: int)
    ensures BL(roiOut.(x := roiOut.x + dx, y := roiOut.y + dy), cx, cy, row, col)
         == BL(roiOut, cx, cy, row + dy, col + dx)
  {
  }

  /** The coefficients the 8-wide block loop loads at column `col` serve
      every block that starts 8m columns later: lane l and lane l + 4 of such
      a block both have the class of column col + l. */
  lemma BlockReuse(roiOut: Region, cx: int, cy: int, row: int, col: int, m: int, l: int)
    ensures BL(roiOut, cx, cy, row, col + 8 * m + l) == BL(roiOut, cx, cy, row, col + l)
    ensures BL(roiOut, cx, cy, row, col + 8 * m + 4 + l) == BL(roiOut, cx, cy, row, col + l)
  {
    Periodic(roiOut, cx, cy, row, col + l, 0, 4 * m);
    Periodic(roiOut, cx, cy, row, col + l, 0, 4 * m + 2);
  }

  /** Moving a pixel by an odd number of rows or columns always changes its
      class: this is why tiles must be cut at even offsets. */
  lemma OddShiftChangesClass(roiOut: Region, cx: int, cy: int, row: int, col: int, t: int, s: int)
    requires t % 2 == 1 || s % 2 == 1
    ensures BL(roiOut, cx, cy, row + t, col + s) != BL(roiOut, cx, cy, row, col)
  {
    SameClassIff(roiOut, cx, cy, row + t, col + s, row, col);
  }
}
