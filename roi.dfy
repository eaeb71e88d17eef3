/** Region-of-interest negotiation: the input region needed for a requested
    output region (modify_roi_in) and the output region an input region
    yields (modify_roi_out). The stage only crops, so both move the width
    and height by the crop borders. */
module Roi {
  import opened Base

  /** How far a border of `n` native pixels moves a region dimension: `n`
      itself on native mosaic input, `n` rescaled and rounded on downsampled
      input. */
  function BorderAmount(n: int, downsampled: bool, scale: real): (a: int)
    ensures !downsampled ==> a == n
    ensures downsampled ==> (a as real - 0.5 <= n as real * scale <= a as real + 0.5)
    ensures n >= 0 && scale >= 0.0 ==> a >= 0
  {
    if downsampled then RoundF(n as real * scale) else n
  }

  /** The input region that covers `roiOut`: same origin and scale, width
      grown by the amount for crop.x + crop.width and height by the amount
      for crop.y + crop.height (the crop on both sides of each axis). */
  function RoiIn(crop: Crop, downsampled: bool, iscale: real, roiOut: Region): (r: Region)
    requires downsampled ==> iscale != 0.0
    ensures r.x == roiOut.x && r.y == roiOut.y && r.scale == roiOut.scale
  {
    var s := if downsampled then roiOut.scale / iscale else 1.0;
    roiOut.(width := roiOut.width + BorderAmount(crop.x + crop.width, downsampled, s),
            height := roiOut.height + BorderAmount(crop.y + crop.height, downsampled, s))
  }

  /** The output region produced from `roiIn`: origin reset to zero, same
      scale, shrunk by the same border amounts. */
  function RoiOut(crop: Crop, downsampled: bool, iscale: real, roiIn: Region): (r: Region)
    requires downsampled ==> iscale != 0.0
    ensures r.x == 0 && r.y == 0 && r.scale == roiIn.scale
  {
    var s := if downsampled then roiIn.scale / iscale else 1.0;
    roiIn.(x := 0, y := 0,
           width := roiIn.width - BorderAmount(crop.x + crop.width, downsampled, s),
           height := roiIn.height - BorderAmount(crop.y + crop.height, downsampled, s))
  }

  /** modify_roi_in: copy the output region, then grow width and height. */
  method ModifyRoiIn(piece: Piece, roiOut: Region) returns (roiIn: Region)
    requires piece.pipe.downsampled ==> piece.iscale != 0.0
    ensures roiIn == RoiIn(piece.data.CropRect(), piece.pipe.downsampled, piece.iscale, roiOut)
  {
    roiIn := roiOut;
    var d := piece.data;
    var x, y := d.x + d.width, d.y + d.height;
    if piece.pipe.downsampled {
      var scale := roiIn.scale / piece.iscale;
      roiIn := roiIn.(width := roiIn.width + RoundF(x as real * scale));
      roiIn := roiIn.(height := roiIn.height + RoundF(y as real * scale));
    } else {
      roiIn := roiIn.(width := roiIn.width + x);
      roiIn := roiIn.(height := roiIn.height + y);
    }
  }

  /** modify_roi_out: copy the input region, reset its origin, then shrink
      width and height. */
  method ModifyRoiOut(piece: Piece, roiIn: Region) returns (roiOut: Region)
    requires piece.pipe.downsampled ==> piece.iscale != 0.0
    ensures roiOut == RoiOut(piece.data.CropRect(), piece.pipe.downsampled, piece.iscale, roiIn)
  {
    roiOut := roiIn;
    var d := piece.data;
    roiOut := roiOut.(x := 0, y := 0);
    var x, y := d.x + d.width, d.y + d.height;
    if piece.pipe.downsampled {
      var scale := roiIn.scale / piece.iscale;
      roiOut := roiOut.(width := roiOut.width - RoundF(x as real * scale));
      roiOut := roiOut.(height := roiOut.height - RoundF(y as real * scale));
    } else {
      roiOut := roiOut.(width := roiOut.width - x);
      roiOut := roiOut.(height := roiOut.height - y);
    }
  }

  /** Shrinking the grown region gives back the requested size exactly (the
      scale is copied before it is used, so both directions round the same
      product); only the origin is reset. */
  lemma ShrinkAfterGrow(crop: Crop, downsampled: bool, iscale: real, r: Region)
    requires downsampled ==> iscale != 0.0
    ensures RoiOut(crop, downsampled, iscale, RoiIn(crop, downsampled, iscale, r)) == r.(x := 0, y := 0)
  {
  }

  /** Growing the shrunk region gives back the available size exactly. */
  lemma GrowAfterShrink(crop: Crop, downsampled: bool, iscale: real, r: Region)
    requires downsampled ==> iscale != 0.0
    ensures RoiIn(crop, downsampled, iscale, RoiOut(crop, downsampled, iscale, r)) == r.(x := 0, y := 0)
  {
  }

  /** With non-negative borders and scales the input region is never
      smaller than the output region it serves. */
  lemma GrowCovers(crop: Crop, downsampled: bool, iscale: real, r: Region)
    requires downsampled ==> iscale > 0.0
    requires crop.x + crop.width >= 0 && crop.y + crop.height >= 0 && r.scale >= 0.0
    ensures RoiIn(crop, downsampled, iscale, r).width >= r.width
    ensures RoiIn(crop, downsampled, iscale, r).height >= r.height
  {
    if downsampled {
      assert r.scale / iscale >= 0.0;
    }
  }
}
