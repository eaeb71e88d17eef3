/** Coefficient derivation (commit_params) and default parameters
    (reload_defaults). */
module Commit {
  import opened Base

  /** Four subtract/divide pairs, indexed by mosaic class in mosaic mode. */
  datatype Coeffs = Coeffs(sub: seq<real>, div: seq<real>)

  predicate WellFormed(c: Coeffs) {
    |c.sub| == 4 && |c.div| == 4
  }

  /** Nothing in the stage checks this; `process` divides by every divisor. */
  predicate NonZeroDivisors(c: Coeffs) {
    WellFormed(c) && forall k :: 0 <= k < 4 ==> c.div[k] != 0.0
  }

  function Level(b: Levels, k: nat): real
    requires k < 4
  {
    b[k] as int as real
  }

  /** The sum of the first n black levels, each divided by UINT16_MAX, in
      the order the averaged branch accumulates them. */
  function NormalizedSum(b: Levels, n: nat): real
    requires n <= 4
  {
    if n == 0 then 0.0 else NormalizedSum(b, n - 1) + Level(b, n - 1) / Uint16Max
  }

  /** The averaged-mode black level: the mean of the four levels on the
      [0, 1] scale of a 16-bit sample. */
  function AveragedBlack(b: Levels): (m: real)
    ensures m == (Level(b, 0) + Level(b, 1) + Level(b, 2) + Level(b, 3)) / (4.0 * Uint16Max)
    ensures 0.0 <= m <= 1.0
  {
    assert NormalizedSum(b, 1) == Level(b, 0) / Uint16Max;
    assert NormalizedSum(b, 2) == NormalizedSum(b, 1) + Level(b, 1) / Uint16Max;
    assert NormalizedSum(b, 3) == NormalizedSum(b, 2) + Level(b, 2) / Uint16Max;
    assert NormalizedSum(b, 4) == NormalizedSum(b, 3) + Level(b, 3) / Uint16Max;
    NormalizedSum(b, 4) / 4.0
  }

  /** The coefficients commit_params derives: per class black level and
      white minus black in mosaic mode; in averaged mode one normalised pair,
      repeated for the four lanes. */
  function Derive(p: Params, mosaic: bool): (c: Coeffs)
    ensures WellFormed(c)
    ensures mosaic ==> forall k :: 0 <= k < 4 ==>
      c.sub[k] == Level(p.black, k) && c.sub[k] + c.div[k] == p.white as real
    ensures !mosaic ==> forall k :: 0 <= k < 4 ==>
      c.sub[k] == AveragedBlack(p.black) && c.div[k] == c.div[0] &&
      c.sub[k] + c.div[k] == p.white as real / Uint16Max
  {
    if mosaic then
      var white := p.white as real;
      var b := p.black;
      Coeffs([Level(b, 0), Level(b, 1), Level(b, 2), Level(b, 3)],
             [white - Level(b, 0), white - Level(b, 1), white - Level(b, 2), white - Level(b, 3)])
    else
      var white := p.white as real / Uint16Max;
      var black := AveragedBlack(p.black);
      Coeffs([black, black, black, black], [white - black, white - black, white - black, white - black])
  }

  /** The mosaic branch of commit_params: per class, subtract the black
      level and divide by white minus black. */
  method FillMosaic(d: Data, p: Params)
    requires d.Valid()
    modifies d.sub, d.div
    ensures d.sub[..] == Derive(p, true).sub && d.div[..] == Derive(p, true).div
  {
    var white := p.white as real;
    for i := 0 to 4
      invariant forall k :: 0 <= k < i ==> d.sub[k] == Level(p.black, k)
      invariant forall k :: 0 <= k < i ==> d.div[k] == white - d.sub[k]
    {
      d.sub[i] := p.black[i] as int as real;
      d.div[i] := white - d.sub[i];
    }
    assert d.sub[..] == Derive(p, true).sub;
    assert d.div[..] == Derive(p, true).div;
  }

  /** The averaged branch of commit_params: accumulate the normalised black
      levels, take their mean, and store one pair in all four lanes. */
  method FillAveraged(d: Data, p: Params)
    requires d.Valid()
    modifies d.sub, d.div
    ensures d.sub[..] == Derive(p, false).sub && d.div[..] == Derive(p, false).div
  {
    var white := p.white as real / Uint16Max;
    var black := 0.0;
    for i := 0 to 4
      invariant black == NormalizedSum(p.black, i)
    {
      black := black + p.black[i] as int as real / Uint16Max;
    }
    black := black / 4.0;
    for i := 0 to 4
      invariant forall k :: 0 <= k < i ==> d.sub[k] == black && d.div[k] == white - black
    {
      d.sub[i] := black;
      d.div[i] := white - black;
    }
    assert d.sub[..] == Derive(p, false).sub;
    assert d.div[..] == Derive(p, false).div;
  }

  /** commit_params: copy the crop, fill sub[] and div[] for the mode of the
      pipe, and switch the piece off for non-raw or float images (otherwise
      the flag is left as it was). */
  method CommitParams(p: Params, piece: Piece)
    requires piece.data.Valid()
    modifies piece, piece.data, piece.data.sub, piece.data.div
    ensures piece.data.CropRect() == Crop(p.x, p.y, p.width, p.height)
    ensures piece.data.sub[..] == Derive(p, MosaicMode(piece.pipe)).sub
    ensures piece.data.div[..] == Derive(p, MosaicMode(piece.pipe)).div
    ensures piece.enabled == (old(piece.enabled) && !SwitchedOff(piece.pipe.image))
  {
    var d := piece.data;
    d.x := p.x;
    d.y := p.y;
    d.width := p.width;
    d.height := p.height;

    if !piece.pipe.downsampled && piece.pipe.image.filters != 0 {
      FillMosaic(d, p);
    } else {
      FillAveraged(d, p);
    }

    if !piece.pipe.image.raw || piece.pipe.image.bpp == SizeofFloat {
      piece.enabled := false;
    }
  }

  /** The divisors are all non-zero exactly when the white point differs
      from every black level (mosaic mode) or from their mean (averaged
      mode). */
  lemma DivisorsNonZeroIff(p: Params, mosaic: bool)
    ensures NonZeroDivisors(Derive(p, mosaic)) <==>
      if mosaic then forall k :: 0 <= k < 4 ==> Level(p.black, k) != p.white as real
      else 4.0 * p.white as real != Level(p.black, 0) + Level(p.black, 1) + Level(p.black, 2) + Level(p.black, 3)
  {
    var c := Derive(p, mosaic);
    if !mosaic {
      var w := p.white as real;
      var s := Level(p.black, 0) + Level(p.black, 1) + Level(p.black, 2) + Level(p.black, 3);
      assert c.div[0] == (4.0 * w - s) / (4.0 * Uint16Max);
    }
  }

  /** A white point above every black level makes every divisor positive,
      in both modes. */
  lemma DivisorsPositive(p: Params, mosaic: bool)
    requires forall k :: 0 <= k < 4 ==> Level(p.black, k) < p.white as real
    ensures forall k :: 0 <= k < 4 ==> Derive(p, mosaic).div[k] > 0.0
  {
    if !mosaic {
      assert Level(p.black, 0) < p.white as real && Level(p.black, 1) < p.white as real;
      assert Level(p.black, 2) < p.white as real && Level(p.black, 3) < p.white as real;
    }
  }

  /** The parameters reload_defaults seeds from the image metadata; all zero
      when there is no image. */
  function DefaultParams(dev: Option<Image>): Params {
    match dev
    case None => ZeroParams
    case Some(img) => Params(img.cropX, img.cropY, img.cropWidth, img.cropHeight,
                             img.blackLevels, img.whitePoint)
  }

  /** The module instance (dt_iop_module_t) as far as reload_defaults
      touches it. `dev` is the develop session, absent when the presets
      machinery reloads without an image. */
  class Module {
    var params: Params
    var defaultParams: Params
    var defaultEnabled: bool
    const dev: Option<Image>

    /** A plain constructor with zeroed records: it is not the stage's
        `init`, which also sets the default enable flag. */
    constructor (dev: Option<Image>)
      ensures this.dev == dev
      ensures params == ZeroParams && defaultParams == ZeroParams && !defaultEnabled
    {
      this.dev := dev;
      params, defaultParams, defaultEnabled := ZeroParams, ZeroParams, false;
    }

    /** reload_defaults: seed both parameter records from the image and
        enable by default exactly for raw, non-float images; without an
        image, zero both records and leave the default flag alone. */
    method ReloadDefaults()
      modifies this
      ensures params == defaultParams == DefaultParams(dev)
      ensures dev.None? ==> params == ZeroParams && defaultEnabled == old(defaultEnabled)
      ensures dev.Some? ==> defaultEnabled == !SwitchedOff(dev.value)
    {
      var tmp := ZeroParams;
      if dev.Some? {
        var image := dev.value;
        tmp := Params(image.cropX, image.cropY, image.cropWidth, image.cropHeight,
                      image.blackLevels, image.whitePoint);
        defaultEnabled := image.raw && image.bpp != SizeofFloat;
      }
      params := tmp;
      defaultParams := tmp;
    }
  }
}
