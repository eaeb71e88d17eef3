/** The CPU normalisation kernel (process): black-level subtraction and
    white-point scaling, per mosaic class on single-channel raw samples or
    per lane on four-channel float pixels. */
module Kernel {
  import opened Base
  import opened Bayer
  import opened Commit
  import Tiling

  /** The mosaic path's formula: clamp at zero, then divide. With a
      positive divisor it maps the black level and below to 0 and the range
      up to black + divisor into [0, 1]. */
  function NormMosaic(v: real, s: real, dv: real): (r: real)
    requires dv != 0.0
    ensures dv > 0.0 ==> r >= 0.0 && (r == 0.0 <==> v <= s)
    ensures dv > 0.0 && v <= s + dv ==> r <= 1.0
  {
    Max0(v - s) / dv
  }

  /** The averaged path's formula: divide, then clamp at zero. It is never
      negative, whatever the divisor's sign. */
  function NormFloat(v: real, s: real, dv: real): (r: real)
    requires dv != 0.0
    ensures r >= 0.0
    ensures dv > 0.0 ==> (r == 0.0 <==> v <= s)
    ensures dv > 0.0 && v <= s + dv ==> r <= 1.0
  {
    assert dv > 0.0 && v <= s + dv ==> (v - s) / dv <= 1.0 by {
      if dv > 0.0 && v <= s + dv {
        QuotientAtMostOne(v - s, dv);
      }
    }
    Max0((v - s) / dv)
  }

  /** A quotient by a positive divisor no smaller than the dividend is at
      most one. */
  lemma QuotientAtMostOne(a: real, b: real)
    requires b > 0.0 && a <= b
    ensures a / b <= 1.0
  {
    assert a / b * b == a;
  }

  /** Offset of pixel (j, i) in a row-major buffer of width w. */
  function Idx(w: int, j: int, i: int): int {
    w * j + i
  }

  /** Offset in the input buffer of the sample under output pixel (j, i)
      when the output is cropped (cx, cy) from an input of width wIn. */
  function InIdx(wIn: int, cx: int, cy: int, j: int, i: int): int {
    wIn * (j + cy) + cx + i
  }

  /** The n consecutive offsets lo, lo + 1, ..., lo + n - 1. */
  function Span(lo: int, n: nat): (r: seq<int>)
    ensures |r| == n && forall t :: 0 <= t < n ==> r[t] == lo + t
  {
    seq(n, t => lo + t)
  }

  lemma SpanSnoc(lo: int, n: nat)
    ensures Span(lo, n) + [lo + n] == Span(lo, n + 1)
  {
  }

  lemma SpanAppend(lo: int, n: nat, m: nat)
    ensures Span(lo, n) + Span(lo + n, m) == Span(lo, n + m)
  {
  }

  /** The coefficient buffers of a piece's data as values. */
  function CoeffsOf(d: Data): Coeffs
    reads d.sub, d.div
  {
    Coeffs(d.sub[..], d.div[..])
  }

  /** Every input pixel the kernel reads lies in an input buffer of n
      pixels: the crop is inside the input rows and the cropped rows fit. */
  predicate CropFits(n: int, wIn: int, wOut: int, hOut: int, cx: int, cy: int)
    ensures CropFits(n, wIn, wOut, hOut, cx, cy) ==>
      forall j, i :: 0 <= j < hOut && 0 <= i < wOut ==> 0 <= InIdx(wIn, cx, cy, j, i) < n
  {
    if 0 <= cx && 0 <= cy && 0 <= wOut && 0 <= hOut && cx + wOut <= wIn && wIn * (cy + hOut) <= n then
      InputBounds(n, wIn, wOut, hOut, cx, cy);
      true
    else
      false
  }

  /** A w-by-h image fits in an output buffer of n entries. */
  predicate OutFits(n: int, w: int, h: int)
    ensures OutFits(n, w, h) ==> forall j, i :: 0 <= j < h && 0 <= i < w ==> 0 <= Idx(w, j, i) < n
  {
    if 0 <= w && 0 <= h && w * h <= n then
      OutputBounds(n, w, h);
      true
    else
      false
  }

  /** The value the mosaic path writes at output pixel (j, i): the sample
      under it, normalised with the coefficients of the pixel's class. */
  function MosaicPixel(inp: seq<u16>, wIn: int, roiOut: Region, cx: int, cy: int, c: Coeffs, j: int, i: int): (r: real)
    requires NonZeroDivisors(c)
    requires 0 <= InIdx(wIn, cx, cy, j, i) < |inp|
    ensures var k, v := BL(roiOut, cx, cy, j, i), inp[InIdx(wIn, cx, cy, j, i)] as int as real;
      c.div[k] > 0.0 ==> r >= 0.0 && (r == 0.0 <==> v <= c.sub[k]) && (v <= c.sub[k] + c.div[k] ==> r <= 1.0)
  {
    var id := BL(roiOut, cx, cy, j, i);
    NormMosaic(inp[InIdx(wIn, cx, cy, j, i)] as int as real, c.sub[id], c.div[id])
  }

  lemma MulMono(a: int, b: int, c: int)
    requires 0 <= a && b <= c
    ensures a * b <= a * c
  {
    assert a * c - a * b == a * (c - b);
  }

  /** Pixel (j, i) of a w-by-h buffer lies inside it, before row j + 1. */
  lemma CellBounds(w: int, h: int, j: int, i: int)
    requires 0 <= j < h && 0 <= i < w
    ensures 0 <= Idx(w, j, i) < w * (j + 1) <= w * h
  {
    MulMono(w, j + 1, h);
    MulMono(w, 0, j);
  }

  /** Row j of a w-by-h buffer spans [w * j, w * (j + 1)). */
  lemma RowSpan(w: int, h: int, j: int)
    requires 0 <= w && 0 <= j < h
    ensures 0 <= w * j && w * (j + 1) == w * j + w <= w * h
  {
    MulMono(w, 0, j);
    MulMono(w, j + 1, h);
  }

  lemma InputBounds(n: int, wIn: int, wOut: int, hOut: int, cx: int, cy: int)
    requires 0 <= cx && 0 <= cy && 0 <= wOut && 0 <= hOut && cx + wOut <= wIn && wIn * (cy + hOut) <= n
    ensures forall j, i :: 0 <= j < hOut && 0 <= i < wOut ==> 0 <= InIdx(wIn, cx, cy, j, i) < n
  {
    forall j, i | 0 <= j < hOut && 0 <= i < wOut
      ensures 0 <= InIdx(wIn, cx, cy, j, i) < n
    {
      CellBounds(wIn, cy + hOut, j + cy, cx + i);
    }
  }

  lemma OutputBounds(n: int, w: int, h: int)
    requires 0 <= w && 0 <= h && w * h <= n
    ensures forall j, i :: 0 <= j < h && 0 <= i < w ==> 0 <= Idx(w, j, i) < n
  {
    forall j, i | 0 <= j < h && 0 <= i < w
      ensures 0 <= Idx(w, j, i) < n
    {
      CellBounds(w, h, j, i);
    }
  }

  /** Rows before row j occupy offsets below w * j. */
  lemma RowsBefore(w: int, j: int)
    requires 0 <= w && 0 <= j
    ensures forall j', i :: 0 <= j' < j && 0 <= i < w ==> Idx(w, j', i) < w * j
  {
    forall j', i | 0 <= j' < j && 0 <= i < w
      ensures Idx(w, j', i) < w * j
    {
      CellBounds(w, j, j', i);
    }
  }

  /** The eight SSE lanes of one block: lanes 0-3 and 4-7 both use the
      four loaded coefficient pairs. */
  method StoreBlock(inp: array<u16>, out: array<real>, ip: int, op: int, sub: seq<real>, div: seq<real>)
    requires 0 <= ip && ip + 8 <= inp.Length && 0 <= op && op + 8 <= out.Length
    requires |sub| == 4 && |div| == 4 && forall l :: 0 <= l < 4 ==> div[l] != 0.0
    modifies out
    ensures forall k :: op <= k < op + 4 ==>
      out[k] == NormMosaic(inp[ip + (k - op)] as int as real, sub[k - op], div[k - op])
    ensures forall k :: op + 4 <= k < op + 8 ==>
      out[k] == NormMosaic(inp[ip + (k - op)] as int as real, sub[k - op - 4], div[k - op - 4])
    ensures forall k :: 0 <= k < out.Length && !(op <= k < op + 8) ==> out[k] == old(out[k])
  {
    forall l | 0 <= l < 4 {
      out[op + l] := Max0(inp[ip + l] as int as real - sub[l]) / div[l];
    }
    forall l | 0 <= l < 4 {
      out[op + 4 + l] := Max0(inp[ip + 4 + l] as int as real - sub[l]) / div[l];
    }
  }

  /** _mm_set_ps over the coefficients of columns i .. i + 3: lane l
      holds the coefficient of the class of column i + l. */
  function SetLanes(a: seq<real>, roiOut: Region, cx: int, cy: int, j: int, i: int): (r: seq<real>)
    requires |a| == 4
    ensures |r| == 4 && forall l :: 0 <= l < 4 ==> r[l] == a[BL(roiOut, cx, cy, j, i + l)]
  {
    [a[BL(roiOut, cx, cy, j, i)], a[BL(roiOut, cx, cy, j, i + 1)],
     a[BL(roiOut, cx, cy, j, i + 2)], a[BL(roiOut, cx, cy, j, i + 3)]]
  }

  /** A block stored with the lanes loaded at column i0 holds the mosaic
      formula at each of its eight pixels, 8m columns later. */
  lemma BlockCorrect(out: array<real>, s: seq<u16>, wIn: int, roiOut: Region, cx: int, cy: int, c: Coeffs,
                     j: int, i0: int, m: int, ip: int, op: int, sub: seq<real>, div: seq<real>)
    requires NonZeroDivisors(c)
    requires sub == SetLanes(c.sub, roiOut, cx, cy, j, i0) && div == SetLanes(c.div, roiOut, cx, cy, j, i0)
    requires forall l :: 0 <= l < 4 ==> div[l] != 0.0
    requires ip == InIdx(wIn, cx, cy, j, i0 + 8 * m) && 0 <= ip && ip + 8 <= |s|
    requires op == Idx(roiOut.width, j, i0 + 8 * m) && 0 <= op && op + 8 <= out.Length
    requires forall k :: op <= k < op + 4 ==>
      out[k] == NormMosaic(s[ip + (k - op)] as int as real, sub[k - op], div[k - op])
    requires forall k :: op + 4 <= k < op + 8 ==>
      out[k] == NormMosaic(s[ip + (k - op)] as int as real, sub[k - op - 4], div[k - op - 4])
    ensures forall i' :: i0 + 8 * m <= i' < i0 + 8 * m + 8 ==>
      0 <= InIdx(wIn, cx, cy, j, i') < |s| &&
      out[Idx(roiOut.width, j, i')] == MosaicPixel(s, wIn, roiOut, cx, cy, c, j, i')
  {
    var i := i0 + 8 * m;
    forall i' | i <= i' < i + 8
      ensures 0 <= InIdx(wIn, cx, cy, j, i') < |s|
      ensures out[Idx(roiOut.width, j, i')] == MosaicPixel(s, wIn, roiOut, cx, cy, c, j, i')
    {
      var l := if i' < i + 4 then i' - i else i' - i - 4;
      BlockReuse(roiOut, cx, cy, j, i0, m, l);
    }
  }

  /** The 8-wide loop of one mosaic row, from column i0 (where the
      prologue stopped) while a whole block fits; `sub` and `div` are the
      coefficient lanes loaded at column i0 and reused for every block. */
  method BlockLoop(d: Data, roiIn: Region, roiOut: Region, inp: array<u16>, out: array<real>,
                   j: int, i0: int, sub: seq<real>, div: seq<real>)
    returns (i: int, ip: int, op: int, ghost written: seq<int>)
    requires d.Valid() && out != d.sub && out != d.div
    requires NonZeroDivisors(CoeffsOf(d))
    requires CropFits(inp.Length, roiIn.width, roiOut.width, roiOut.height, d.x, d.y)
    requires OutFits(out.Length, roiOut.width, roiOut.height)
    requires 0 <= j < roiOut.height && 0 <= i0 <= roiOut.width
    requires sub == SetLanes(d.sub[..], roiOut, d.x, d.y, j, i0)
    requires div == SetLanes(d.div[..], roiOut, d.x, d.y, j, i0)
    requires RowDone(out, inp[..], roiIn.width, roiOut, d.x, d.y, CoeffsOf(d), j, i0)
    modifies out
    ensures i0 <= i <= roiOut.width && i >= roiOut.width - 7
    ensures ip == InIdx(roiIn.width, d.x, d.y, j, i) && op == Idx(roiOut.width, j, i)
    ensures RowDone(out, inp[..], roiIn.width, roiOut, d.x, d.y, CoeffsOf(d), j, i)
    ensures forall k :: 0 <= k < out.Length && !(Idx(roiOut.width, j, i0) <= k < op) ==> out[k] == old(out[k])
    ensures written == Span(Idx(roiOut.width, j, i0), i - i0)
  {
    var W, wIn, cx, cy := roiOut.width, roiIn.width, d.x, d.y;
    ghost var c := CoeffsOf(d);
    ghost var s := inp[..];
    i, ip, op := i0, InIdx(wIn, cx, cy, j, i0), Idx(W, j, i0);
    written := [];
    ghost var m := 0;
    while i < W - (8 - 1)
      invariant i0 <= i <= W && i == i0 + 8 * m
      invariant ip == InIdx(wIn, cx, cy, j, i) && op == Idx(W, j, i)
      invariant RowDone(out, s, wIn, roiOut, cx, cy, c, j, i)
      invariant forall k :: 0 <= k < out.Length && !(Idx(W, j, i0) <= k < op) ==> out[k] == old(out[k])
      invariant written == Span(Idx(W, j, i0), i - i0)
    {
      assert 0 <= InIdx(wIn, cx, cy, j, i) && InIdx(wIn, cx, cy, j, i + 7) < inp.Length;
      assert Idx(W, j, i + 7) < out.Length;
      StoreBlock(inp, out, ip, op, sub, div);
      BlockCorrect(out, s, wIn, roiOut, cx, cy, c, j, i0, m, ip, op, sub, div);
      SpanAppend(Idx(W, j, i0), i - i0, 8);
      written := written + Span(op, 8);
      i, ip, op, m := i + 8, ip + 8, op + 8, m + 1;
    }
  }

  /** Output pixels 0 .. i - 1 of row j hold the mosaic formula. */
  ghost predicate RowDone(out: array<real>, s: seq<u16>, wIn: int, roiOut: Region, cx: int, cy: int, c: Coeffs, j: int, i: int)
    reads out
    requires NonZeroDivisors(c)
    requires forall i' :: 0 <= i' < i ==> 0 <= InIdx(wIn, cx, cy, j, i') < |s| && 0 <= Idx(roiOut.width, j, i') < out.Length
  {
    forall i' :: 0 <= i' < i ==> out[Idx(roiOut.width, j, i')] == MosaicPixel(s, wIn, roiOut, cx, cy, c, j, i')
  }

  /** The scalar step of the prologue and the epilogue: one pixel with the
      coefficients of its own class. */
  method StorePixel(d: Data, roiIn: Region, roiOut: Region, inp: array<u16>, out: array<real>,
                    j: int, i: int, ip: int, op: int)
    requires d.Valid() && out != d.sub && out != d.div
    requires NonZeroDivisors(CoeffsOf(d))
    requires CropFits(inp.Length, roiIn.width, roiOut.width, roiOut.height, d.x, d.y)
    requires OutFits(out.Length, roiOut.width, roiOut.height)
    requires 0 <= j < roiOut.height && 0 <= i < roiOut.width
    requires ip == InIdx(roiIn.width, d.x, d.y, j, i) && op == Idx(roiOut.width, j, i)
    requires RowDone(out, inp[..], roiIn.width, roiOut, d.x, d.y, CoeffsOf(d), j, i)
    modifies out
    ensures RowDone(out, inp[..], roiIn.width, roiOut, d.x, d.y, CoeffsOf(d), j, i + 1)
    ensures forall k :: 0 <= k < out.Length && k != op ==> out[k] == old(out[k])
  {
    var id := BL(roiOut, d.x, d.y, j, i);
    out[op] := Max0(inp[ip] as int as real - d.sub[id]) / d.div[id];
  }

  /** The scalar prologue of one mosaic row: store pixels one at a time
      until both pointers are aligned (`aligned` stands for that address
      test, so every alignment is covered) or the row ends. */
  method Prologue(d: Data, roiIn: Region, roiOut: Region, inp: array<u16>, out: array<real>,
                  aligned: (int, int) -> bool, j: int)
    returns (i: int, ip: int, op: int, ghost written: seq<int>)
    requires d.Valid() && out != d.sub && out != d.div
    requires NonZeroDivisors(CoeffsOf(d))
    requires CropFits(inp.Length, roiIn.width, roiOut.width, roiOut.height, d.x, d.y)
    requires OutFits(out.Length, roiOut.width, roiOut.height)
    requires 0 <= j < roiOut.height
    modifies out
    ensures 0 <= i <= roiOut.width && (i < roiOut.width ==> aligned(j, i))
    ensures forall i' :: 0 <= i' < i ==> !aligned(j, i')
    ensures ip == InIdx(roiIn.width, d.x, d.y, j, i) && op == Idx(roiOut.width, j, i)
    ensures RowDone(out, inp[..], roiIn.width, roiOut, d.x, d.y, CoeffsOf(d), j, i)
    ensures forall k :: 0 <= k < out.Length && !(Idx(roiOut.width, j, 0) <= k < op) ==> out[k] == old(out[k])
    ensures written == Span(Idx(roiOut.width, j, 0), i)
  {
    var W := roiOut.width;
    i, ip, op := 0, InIdx(roiIn.width, d.x, d.y, j, 0), Idx(W, j, 0);
    written := [];
    while !aligned(j, i) && i < W
      invariant 0 <= i <= W && ip == InIdx(roiIn.width, d.x, d.y, j, i) && op == Idx(W, j, i)
      invariant forall i' :: 0 <= i' < i ==> !aligned(j, i')
      invariant RowDone(out, inp[..], roiIn.width, roiOut, d.x, d.y, CoeffsOf(d), j, i)
      invariant forall k :: 0 <= k < out.Length && !(Idx(W, j, 0) <= k < op) ==> out[k] == old(out[k])
      invariant written == Span(Idx(W, j, 0), i)
    {
      StorePixel(d, roiIn, roiOut, inp, out, j, i, ip, op);
      SpanSnoc(Idx(W, j, 0), i);
      written := written + [op];
      i, ip, op := i + 1, ip + 1, op + 1;
    }
  }

  /** The scalar epilogue of one mosaic row: the columns from i0 to the end
      of the row that did not fill a whole block. */
  method Epilogue(d: Data, roiIn: Region, roiOut: Region, inp: array<u16>, out: array<real>,
                  j: int, i0: int, ip0: int, op0: int)
    returns (ghost written: seq<int>)
    requires d.Valid() && out != d.sub && out != d.div
    requires NonZeroDivisors(CoeffsOf(d))
    requires CropFits(inp.Length, roiIn.width, roiOut.width, roiOut.height, d.x, d.y)
    requires OutFits(out.Length, roiOut.width, roiOut.height)
    requires 0 <= j < roiOut.height && 0 <= i0 <= roiOut.width
    requires ip0 == InIdx(roiIn.width, d.x, d.y, j, i0) && op0 == Idx(roiOut.width, j, i0)
    requires RowDone(out, inp[..], roiIn.width, roiOut, d.x, d.y, CoeffsOf(d), j, i0)
    modifies out
    ensures RowDone(out, inp[..], roiIn.width, roiOut, d.x, d.y, CoeffsOf(d), j, roiOut.width)
    ensures forall k :: 0 <= k < out.Length && !(op0 <= k < Idx(roiOut.width, j, roiOut.width)) ==> out[k] == old(out[k])
    ensures written == Span(op0, roiOut.width - i0)
  {
    var W := roiOut.width;
    var i, ip, op := i0, ip0, op0;
    written := [];
    while i < W
      invariant i0 <= i <= W && ip == InIdx(roiIn.width, d.x, d.y, j, i) && op == Idx(W, j, i)
      invariant RowDone(out, inp[..], roiIn.width, roiOut, d.x, d.y, CoeffsOf(d), j, i)
      invariant forall k :: 0 <= k < out.Length && !(op0 <= k < op) ==> out[k] == old(out[k])
      invariant written == Span(op0, i - i0)
    {
      StorePixel(d, roiIn, roiOut, inp, out, j, i, ip, op);
      SpanSnoc(op0, i - i0);
      written := written + [op];
      i, ip, op := i + 1, ip + 1, op + 1;
    }
  }

  /** One row of the mosaic path: the scalar prologue, the 8-wide block
      loop reusing the four coefficient pairs loaded where the prologue
      stopped, and the scalar epilogue. `written` lists the output offsets
      in the order they are stored: each pixel of the row exactly once. */
  method MosaicRow(d: Data, roiIn: Region, roiOut: Region, inp: array<u16>, out: array<real>,
                   aligned: (int, int) -> bool, j: int) returns (ghost written: seq<int>)
    requires d.Valid() && out != d.sub && out != d.div
    requires NonZeroDivisors(CoeffsOf(d))
    requires CropFits(inp.Length, roiIn.width, roiOut.width, roiOut.height, d.x, d.y)
    requires OutFits(out.Length, roiOut.width, roiOut.height)
    requires 0 <= j < roiOut.height
    modifies out
    ensures forall i :: 0 <= i < roiOut.width ==>
      out[Idx(roiOut.width, j, i)]
        == MosaicPixel(inp[..], roiIn.width, roiOut, d.x, d.y, CoeffsOf(d), j, i)
    ensures forall k :: 0 <= k < out.Length && !(roiOut.width * j <= k < roiOut.width * (j + 1)) ==>
      out[k] == old(out[k])
    ensures written == Span(Idx(roiOut.width, j, 0), roiOut.width)
  {
    var W, cx, cy := roiOut.width, d.x, d.y;
    var i, ip, op;
    ghost var w1, w2, w3;
    i, ip, op, w1 := Prologue(d, roiIn, roiOut, inp, out, aligned, j);

    var sub := SetLanes(d.sub[..], roiOut, cx, cy, j, i);
    var div := SetLanes(d.div[..], roiOut, cx, cy, j, i);
    ghost var i1 := i;
    i, ip, op, w2 := BlockLoop(d, roiIn, roiOut, inp, out, j, i, sub, div);
    ghost var i2 := i;
    w3 := Epilogue(d, roiIn, roiOut, inp, out, j, i, ip, op);

    SpanAppend(Idx(W, j, 0), i1, i2 - i1);
    SpanAppend(Idx(W, j, 0), i2, W - i2);
    written := w1 + w2 + w3;
  }

  /** The mosaic path of process: every row in turn (rows are independent;
      the parallel row loop is modelled sequentially). Every output pixel
      holds the mosaic formula for its class, whatever the alignment of the
      buffers, and the pixels are stored in order, each exactly once. */
  method ProcessMosaic(d: Data, roiIn: Region, roiOut: Region, inp: array<u16>, out: array<real>,
                       aligned: (int, int) -> bool) returns (ghost written: seq<int>)
    requires d.Valid() && out != d.sub && out != d.div
    requires NonZeroDivisors(CoeffsOf(d))
    requires CropFits(inp.Length, roiIn.width, roiOut.width, roiOut.height, d.x, d.y)
    requires OutFits(out.Length, roiOut.width, roiOut.height)
    modifies out
    ensures forall j, i :: 0 <= j < roiOut.height && 0 <= i < roiOut.width ==>
      out[Idx(roiOut.width, j, i)]
        == MosaicPixel(inp[..], roiIn.width, roiOut, d.x, d.y, CoeffsOf(d), j, i)
    ensures forall k :: roiOut.width * roiOut.height <= k < out.Length ==> out[k] == old(out[k])
    ensures written == Span(0, roiOut.width * roiOut.height)
  {
    var W, H := roiOut.width, roiOut.height;
    written := [];
    for j := 0 to H
      invariant forall j', i :: 0 <= j' < j && 0 <= i < W ==>
        out[Idx(W, j', i)] == MosaicPixel(inp[..], roiIn.width, roiOut, d.x, d.y, CoeffsOf(d), j', i)
      invariant forall k :: W * j <= k < out.Length ==> out[k] == old(out[k])
      invariant written == Span(0, W * j)
    {
      RowsBefore(W, j);
      RowSpan(W, H, j);
      ghost var w := MosaicRow(d, roiIn, roiOut, inp, out, aligned, j);
      SpanAppend(0, W * j, W);
      written := written + w;
    }
    if H == 0 {
      assert W * H == 0;
    } else {
      RowSpan(W, H, H - 1);
    }
  }

  /** The value the averaged path writes at channel ch of output pixel
      (j, i): the input pixel under it is (j + csy, i + csx), four floats
      per pixel, and lane ch uses coefficient pair ch. */
  function AveragedPixel(inp: seq<real>, wIn: int, csx: int, csy: int, c: Coeffs, j: int, i: int, ch: int): (r: real)
    requires NonZeroDivisors(c) && 0 <= ch < 4
    requires 0 <= 4 * InIdx(wIn, csx, csy, j, i) + ch < |inp|
    ensures r >= 0.0
    ensures var v := inp[4 * InIdx(wIn, csx, csy, j, i) + ch];
      c.div[ch] > 0.0 ==> (r == 0.0 <==> v <= c.sub[ch]) && (v <= c.sub[ch] + c.div[ch] ==> r <= 1.0)
  {
    NormFloat(inp[4 * InIdx(wIn, csx, csy, j, i) + ch], c.sub[ch], c.div[ch])
  }

  /** The crop in downsampled pixels: the crop origin times the buffer's
      relative scale, truncated toward zero by the int conversion. */
  function ScaledCrop(d: Data, roiIn: Region, iscale: real): (r: (int, int))
    reads d
    requires iscale != 0.0
    ensures TowardZero(r.0, d.x as real * (roiIn.scale / iscale))
    ensures TowardZero(r.1, d.y as real * (roiIn.scale / iscale))
  {
    var scale := roiIn.scale / iscale;
    (Trunc(d.x as real * scale), Trunc(d.y as real * scale))
  }

  /** When the buffer is not rescaled, the scaled crop is the crop itself. */
  lemma ScaledCropUnscaled(d: Data, roiIn: Region, iscale: real)
    requires iscale != 0.0 && roiIn.scale == iscale
    ensures ScaledCrop(d, roiIn, iscale) == (d.x, d.y)
  {
    var scale := roiIn.scale / iscale;
    assert scale == 1.0;
    TruncOfInt(d.x);
    TruncOfInt(d.y);
  }

  /** Output pixels 0 .. i - 1 of row j hold the averaged formula on all
      four channels. */
  ghost predicate RowDone4(out: array<real>, s: seq<real>, wIn: int, W: int, csx: int, csy: int, c: Coeffs, j: int, i: int)
    reads out
    requires NonZeroDivisors(c)
    requires forall i' :: 0 <= i' < i ==> 0 <= InIdx(wIn, csx, csy, j, i') && 4 * InIdx(wIn, csx, csy, j, i') + 4 <= |s|
    requires forall i' :: 0 <= i' < i ==> 0 <= Idx(W, j, i') && 4 * Idx(W, j, i') + 4 <= out.Length
  {
    forall i', ch :: 0 <= i' < i && 0 <= ch < 4 ==>
      out[4 * Idx(W, j, i') + ch] == AveragedPixel(s, wIn, csx, csy, c, j, i', ch)
  }

  /** One pixel of the averaged path: the four channels are computed as
      lanes of one vector (subtract, divide, clamp at zero) and stored
      together. */
  method StorePixel4(c: Coeffs, wIn: int, csx: int, csy: int, roiOut: Region,
                     inp: array<real>, out: array<real>, j: int, i: int, ip: int, op: int)
    requires NonZeroDivisors(c) && inp != out
    requires CropFits(inp.Length / 4, wIn, roiOut.width, roiOut.height, csx, csy)
    requires OutFits(out.Length / 4, roiOut.width, roiOut.height)
    requires 0 <= j < roiOut.height && 0 <= i < roiOut.width
    requires ip == 4 * InIdx(wIn, csx, csy, j, i) && op == 4 * Idx(roiOut.width, j, i)
    requires RowDone4(out, inp[..], wIn, roiOut.width, csx, csy, c, j, i)
    modifies out
    ensures RowDone4(out, inp[..], wIn, roiOut.width, csx, csy, c, j, i + 1)
    ensures forall k :: 0 <= k < out.Length && !(op <= k < op + 4) ==> out[k] == old(out[k])
  {
    ghost var s := inp[..];
    ghost var before := out[..];
    assert forall i', ch :: 0 <= i' < i && 0 <= ch < 4 ==>
      before[4 * Idx(roiOut.width, j, i') + ch] == AveragedPixel(s, wIn, csx, csy, c, j, i', ch);
    Quarter(InIdx(wIn, csx, csy, j, i), inp.Length);
    Quarter(Idx(roiOut.width, j, i), out.Length);
    var sub, div := c.sub, c.div;
    forall ch | 0 <= ch < 4 {
      out[op + ch] := Max0((inp[ip + ch] - sub[ch]) / div[ch]);
    }
    forall i', ch | 0 <= i' <= i && 0 <= ch < 4
      ensures out[4 * Idx(roiOut.width, j, i') + ch] == AveragedPixel(inp[..], wIn, csx, csy, c, j, i', ch)
    {
      if i' < i {
        assert 4 * Idx(roiOut.width, j, i') + ch < op;
        assert before[4 * Idx(roiOut.width, j, i') + ch] == AveragedPixel(s, wIn, csx, csy, c, j, i', ch);
      } else {
        assert out[op + ch] == Max0((inp[ip + ch] - sub[ch]) / div[ch]);
      }
    }
  }

  /** A pixel index below n / 4 leaves room for its four floats. */
  lemma Quarter(x: int, n: int)
    requires 0 <= x < n / 4
    ensures 4 * x + 4 <= n
  {
  }

  /** One row of the averaged path. */
  method AveragedRow(c: Coeffs, wIn: int, csx: int, csy: int, roiOut: Region,
                     inp: array<real>, out: array<real>, j: int) returns (ghost written: seq<int>)
    requires NonZeroDivisors(c) && inp != out
    requires CropFits(inp.Length / 4, wIn, roiOut.width, roiOut.height, csx, csy)
    requires OutFits(out.Length / 4, roiOut.width, roiOut.height)
    requires 0 <= j < roiOut.height
    modifies out
    ensures forall i, ch :: 0 <= i < roiOut.width && 0 <= ch < 4 ==>
      out[4 * Idx(roiOut.width, j, i) + ch] == AveragedPixel(inp[..], wIn, csx, csy, c, j, i, ch)
    ensures forall k :: 0 <= k < out.Length && !(4 * Idx(roiOut.width, j, 0) <= k < 4 * Idx(roiOut.width, j, roiOut.width)) ==>
      out[k] == old(out[k])
    ensures written == Span(4 * Idx(roiOut.width, j, 0), 4 * roiOut.width)
  {
    var W := roiOut.width;
    var ip := 4 * InIdx(wIn, csx, csy, j, 0);
    var op := 4 * Idx(W, j, 0);
    written := [];
    for i := 0 to W
      invariant ip == 4 * InIdx(wIn, csx, csy, j, i) && op == 4 * Idx(W, j, i)
      invariant RowDone4(out, inp[..], wIn, W, csx, csy, c, j, i)
      invariant forall k :: 0 <= k < out.Length && !(4 * Idx(W, j, 0) <= k < op) ==> out[k] == old(out[k])
      invariant written == Span(4 * Idx(W, j, 0), 4 * i)
    {
      StorePixel4(c, wIn, csx, csy, roiOut, inp, out, j, i, ip, op);
      SpanAppend(4 * Idx(W, j, 0), 4 * i, 4);
      written := written + Span(op, 4);
      ip, op := ip + 4, op + 4;
    }
  }

  /** The averaged path of process, on four-channel float pixels: every
      channel of every output pixel holds the averaged formula, each output
      float stored exactly once, in order. */
  method ProcessAveraged(piece: Piece, roiIn: Region, roiOut: Region, inp: array<real>, out: array<real>)
    returns (ghost written: seq<int>)
    requires piece.data.Valid() && out != piece.data.sub && out != piece.data.div && inp != out
    requires NonZeroDivisors(CoeffsOf(piece.data)) && piece.iscale != 0.0
    requires CropFits(inp.Length / 4, roiIn.width, roiOut.width, roiOut.height,
                      ScaledCrop(piece.data, roiIn, piece.iscale).0, ScaledCrop(piece.data, roiIn, piece.iscale).1)
    requires OutFits(out.Length / 4, roiOut.width, roiOut.height)
    modifies out
    ensures forall j, i, ch :: 0 <= j < roiOut.height && 0 <= i < roiOut.width && 0 <= ch < 4 ==>
      out[4 * Idx(roiOut.width, j, i) + ch]
        == AveragedPixel(inp[..], roiIn.width, ScaledCrop(piece.data, roiIn, piece.iscale).0,
                         ScaledCrop(piece.data, roiIn, piece.iscale).1, CoeffsOf(piece.data), j, i, ch)
    ensures forall k :: 4 * (roiOut.width * roiOut.height) <= k < out.Length ==> out[k] == old(out[k])
    ensures written == Span(0, 4 * (roiOut.width * roiOut.height))
  {
    var cs := ScaledCrop(piece.data, roiIn, piece.iscale);
    var c := CoeffsOf(piece.data);
    var W, H := roiOut.width, roiOut.height;
    written := [];
    for j := 0 to H
      invariant forall j', i, ch :: 0 <= j' < j && 0 <= i < W && 0 <= ch < 4 ==>
        out[4 * Idx(W, j', i) + ch] == AveragedPixel(inp[..], roiIn.width, cs.0, cs.1, c, j', i, ch)
      invariant forall k :: 4 * (W * j) <= k < out.Length ==> out[k] == old(out[k])
      invariant written == Span(0, 4 * (W * j))
    {
      RowsBefore(W, j);
      RowSpan(W, H, j);
      ghost var w := AveragedRow(c, roiIn.width, cs.0, cs.1, roiOut, inp, out, j);
      SpanAppend(0, 4 * (W * j), 4 * W);
      written := written + w;
    }
    if H == 0 {
      assert W * H == 0;
    } else {
      RowSpan(W, H, H - 1);
    }
  }

  /** The input buffer handed to process: 16-bit mosaic samples or
      four-channel float pixels. */
  datatype Input = Mosaic16(samples: array<u16>) | Float4(pixels: array<real>)

  /** process: the mosaic path on native mosaic input, the averaged path
      otherwise. The buffer kind must match the pipe's mode. */
  method Process(piece: Piece, input: Input, out: array<real>, roiIn: Region, roiOut: Region,
                 aligned: (int, int) -> bool) returns (ghost written: seq<int>)
    requires piece.data.Valid() && out != piece.data.sub && out != piece.data.div
    requires NonZeroDivisors(CoeffsOf(piece.data))
    requires MosaicMode(piece.pipe) <==> input.Mosaic16?
    requires input.Mosaic16? ==>
      CropFits(input.samples.Length, roiIn.width, roiOut.width, roiOut.height, piece.data.x, piece.data.y) &&
      OutFits(out.Length, roiOut.width, roiOut.height)
    requires input.Float4? ==>
      input.pixels != out && piece.iscale != 0.0 &&
      CropFits(input.pixels.Length / 4, roiIn.width, roiOut.width, roiOut.height,
               ScaledCrop(piece.data, roiIn, piece.iscale).0, ScaledCrop(piece.data, roiIn, piece.iscale).1) &&
      OutFits(out.Length / 4, roiOut.width, roiOut.height)
    modifies out
    ensures input.Mosaic16? ==>
      (forall j, i :: 0 <= j < roiOut.height && 0 <= i < roiOut.width ==>
        out[Idx(roiOut.width, j, i)]
          == MosaicPixel(input.samples[..], roiIn.width, roiOut, piece.data.x, piece.data.y, CoeffsOf(piece.data), j, i)) &&
      written == Span(0, roiOut.width * roiOut.height)
    ensures input.Float4? ==>
      (forall j, i, ch :: 0 <= j < roiOut.height && 0 <= i < roiOut.width && 0 <= ch < 4 ==>
        out[4 * Idx(roiOut.width, j, i) + ch]
          == AveragedPixel(input.pixels[..], roiIn.width, ScaledCrop(piece.data, roiIn, piece.iscale).0,
                           ScaledCrop(piece.data, roiIn, piece.iscale).1, CoeffsOf(piece.data), j, i, ch)) &&
      written == Span(0, 4 * (roiOut.width * roiOut.height))
    ensures input.Mosaic16? ==>
      forall k :: roiOut.width * roiOut.height <= k < out.Length ==> out[k] == old(out[k])
    ensures input.Float4? ==>
      forall k :: 4 * (roiOut.width * roiOut.height) <= k < out.Length ==> out[k] == old(out[k])
    ensures written == Span(0, Tiling.FloatsWritten(piece.pipe) * (roiOut.width * roiOut.height))
  {
    if !piece.pipe.downsampled && piece.pipe.image.filters != 0 {
      written := ProcessMosaic(piece.data, roiIn, roiOut, input.samples, out, aligned);
    } else {
      written := ProcessAveraged(piece, roiIn, roiOut, input.pixels, out);
    }
  }

  /** The two paths clamp at different points: they agree on a sample
      exactly when the divisor is positive or the sample equals the black
      level. */
  lemma ClampOrder(v: real, s: real, dv: real)
    requires dv != 0.0
    ensures NormMosaic(v, s, dv) == NormFloat(v, s, dv) <==> dv > 0.0 || v == s
    ensures dv > 0.0 ==> NormMosaic(v, s, dv) >= 0.0
  {
    if dv < 0.0 {
      if v > s {
        assert (v - s) / dv < 0.0;
      } else if v < s {
        assert (v - s) / dv > 0.0;
      }
    }
  }

  /** With equal black levels below the white point, the averaged path on
      a sample rescaled to [0, 1] gives the mosaic path's value. */
  lemma ModesAgree(p: Params, v: u16, k: nat)
    requires k < 4
    requires forall q :: 0 <= q < 4 ==> p.black[q] == p.black[0]
    requires Level(p.black, 0) < p.white as real
    ensures NonZeroDivisors(Derive(p, false)) && NonZeroDivisors(Derive(p, true))
    ensures NormFloat(v as int as real / Uint16Max, Derive(p, false).sub[k], Derive(p, false).div[k])
         == NormMosaic(v as int as real, Derive(p, true).sub[k], Derive(p, true).div[k])
  {
    var b, w, x := Level(p.black, 0), p.white as real, v as int as real;
    UniformBlack(p);
    DivisorsPositive(p, false);
    DivisorsPositive(p, true);
    var ca := Derive(p, false);
    assert ca.sub[k] == b / Uint16Max && ca.div[k] == w / Uint16Max - b / Uint16Max;
    Rescale(x, b, w, Uint16Max);
    ClampOrder(x, b, w - b);
  }

  /** Equal black levels average to their own value on the [0, 1] scale. */
  lemma UniformBlack(p: Params)
    requires forall q :: 0 <= q < 4 ==> p.black[q] == p.black[0]
    ensures forall q :: 0 <= q < 4 ==> Level(p.black, q) == Level(p.black, 0)
    ensures AveragedBlack(p.black) == Level(p.black, 0) / Uint16Max
  {
    var b := Level(p.black, 0);
    assert Level(p.black, 1) == b && Level(p.black, 2) == b && Level(p.black, 3) == b;
    assert (b + b + b + b) / (4.0 * Uint16Max) == b / Uint16Max;
  }

  /** Dividing sample, black and white by the same scale leaves the
      normalised value unchanged. */
  lemma Rescale(x: real, b: real, w: real, m: real)
    requires b < w && m > 0.0
    ensures (x / m - b / m) / (w / m - b / m) == (x - b) / (w - b)
  {
    assert x / m - b / m == (x - b) / m;
    assert w / m - b / m == (w - b) / m;
  }

  /** A tile buffer of wT-by-hT pixels copied out of an input of width wIn,
      starting at row t and column s. */
  ghost predicate IsTileOf(tile: seq<u16>, wT: int, hT: int, inp: seq<u16>, wIn: int, t: int, s: int) {
    forall a, b :: 0 <= a < hT && 0 <= b < wT ==>
      0 <= Idx(wT, a, b) < |tile| && 0 <= Idx(wIn, a + t, b + s) < |inp| &&
      tile[Idx(wT, a, b)] == inp[Idx(wIn, a + t, b + s)]
  }

  /** Tiling transparency: processing a tile cut at an offset that
      respects the descriptor's alignment, with the same region origin,
      gives at each tile pixel what the whole image gives at the matching
      pixel. */
  lemma TileAligned(tile: seq<u16>, wT: int, hT: int, inp: seq<u16>, wIn: int, t: int, s: int,
                    roiIn: Region, roiOut: Region, cx: int, cy: int, c: Coeffs, j: int, i: int)
    requires Tiling.Area(roiIn) != 0
    requires t % Tiling.TilingCallback(roiIn, roiOut).yalign == 0
    requires s % Tiling.TilingCallback(roiIn, roiOut).xalign == 0
    requires IsTileOf(tile, wT, hT, inp, wIn, t, s)
    requires NonZeroDivisors(c)
    requires 0 <= j + cy < hT && 0 <= cx + i < wT
    ensures 0 <= InIdx(wT, cx, cy, j, i) < |tile| && 0 <= InIdx(wIn, cx, cy, j + t, i + s) < |inp|
    ensures MosaicPixel(tile, wT, roiOut, cx, cy, c, j, i) == MosaicPixel(inp, wIn, roiOut, cx, cy, c, j + t, i + s)
  {
    TileSample(tile, wT, hT, inp, wIn, t, s, cx, cy, j, i);
    Periodic(roiOut, cx, cy, j, i, t / 2, s / 2);
  }

  /** Tiling with the tile's own region origin: at any offset, a tile whose
      region origin is moved by the offset gives the whole image's values. */
  lemma TileShiftedOrigin(tile: seq<u16>, wT: int, hT: int, inp: seq<u16>, wIn: int, t: int, s: int,
                          roiOut: Region, cx: int, cy: int, c: Coeffs, j: int, i: int)
    requires IsTileOf(tile, wT, hT, inp, wIn, t, s)
    requires NonZeroDivisors(c)
    requires 0 <= j + cy < hT && 0 <= cx + i < wT
    ensures 0 <= InIdx(wT, cx, cy, j, i) < |tile| && 0 <= InIdx(wIn, cx, cy, j + t, i + s) < |inp|
    ensures MosaicPixel(tile, wT, roiOut.(x := roiOut.x + s, y := roiOut.y + t), cx, cy, c, j, i)
         == MosaicPixel(inp, wIn, roiOut, cx, cy, c, j + t, i + s)
  {
    TileSample(tile, wT, hT, inp, wIn, t, s, cx, cy, j, i);
    OriginShift(roiOut, cx, cy, j, i, s, t);
  }

  /** The tile sample under tile pixel (j, i) is the input sample under
      whole-image pixel (j + t, i + s). */
  lemma TileSample(tile: seq<u16>, wT: int, hT: int, inp: seq<u16>, wIn: int, t: int, s: int,
                   cx: int, cy: int, j: int, i: int)
    requires IsTileOf(tile, wT, hT, inp, wIn, t, s)
    requires 0 <= j + cy < hT && 0 <= cx + i < wT
    ensures 0 <= InIdx(wT, cx, cy, j, i) < |tile| && 0 <= InIdx(wIn, cx, cy, j + t, i + s) < |inp|
    ensures tile[InIdx(wT, cx, cy, j, i)] == inp[InIdx(wIn, cx, cy, j + t, i + s)]
  {
    assert Idx(wT, j + cy, cx + i) == InIdx(wT, cx, cy, j, i);
    assert Idx(wIn, j + cy + t, cx + i + s) == InIdx(wIn, cx, cy, j + t, i + s);
  }
}
