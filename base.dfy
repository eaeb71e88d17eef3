/** Types shared by the raw black/white point stage: samples, regions of
    interest, image metadata, the persisted parameters and the per-piece data
    that `commit_params` fills in. */
module Base {

  datatype Option<T> = None | Some(value: T)

  /** One raw mosaic sample as the decoder stores it (uint16_t). */
  newtype u16 = x: int | 0 <= x < 0x1_0000

  /** The four per-phase black levels of the persisted parameters. */
  type Levels = s: seq<u16> | |s| == 4 witness [0, 0, 0, 0]

  /** UINT16_MAX, the largest native sample value. */
  const Uint16Max: real := 65535.0

  /** sizeof(float) on the platforms the stage runs on. */
  const SizeofFloat: nat := 4

  /** A region of interest (dt_iop_roi_t). */
  datatype Region = Region(x: int, y: int, width: int, height: int, scale: real)

  /** The crop rectangle as the stage data holds it. */
  datatype Crop = Crop(x: int, y: int, width: int, height: int)

  /** What the stage reads of the image: the raw flag, the mosaic filter
      pattern (0 when the buffer is not a mosaic), bytes per sample, and the
      metadata the decoder reports for the defaults. */
  datatype Image = Image(
    raw: bool,
    filters: nat,
    bpp: nat,
    cropX: int, cropY: int, cropWidth: int, cropHeight: int,
    blackLevels: Levels,
    whitePoint: u16)

  /** What the stage reads of its pipeline: whether the pipe feeds
      downsampled input, and the image it develops. */
  datatype Pipe = Pipe(downsampled: bool, image: Image)

  /** The persisted parameters (dt_iop_rawprepare_params_t). */
  datatype Params = Params(x: int, y: int, width: int, height: int, black: Levels, white: u16)

  /** The all-zero parameter record. */
  const ZeroParams := Params(0, 0, 0, 0, [0, 0, 0, 0], 0)

  /** The stage works on single-channel mosaic samples at native resolution
      exactly when the pipe is not downsampled and the image has a filter
      pattern; otherwise it works on four-channel float pixels. */
  predicate MosaicMode(pipe: Pipe) {
    !pipe.downsampled && pipe.image.filters != 0
  }

  /** The stage is switched off for images that are not raw or whose samples
      are already floats. */
  predicate SwitchedOff(image: Image) {
    !image.raw || image.bpp == SizeofFloat
  }

  /** Per-piece data (dt_iop_rawprepare_data_t): the crop and four
      subtract/divide coefficient pairs held in fixed-size buffers. */
  class Data {
    var x: int
    var y: int
    var width: int
    var height: int
    const sub: array<real>
    const div: array<real>

    ghost predicate Valid() {
      sub.Length == 4 && div.Length == 4 && sub != div
    }

    function CropRect(): Crop
      reads this
    {
      Crop(x, y, width, height)
    }

    /** Zero-filled data, as the pipe allocates it. */
    constructor ()
      ensures Valid() && fresh(sub) && fresh(div)
      ensures CropRect() == Crop(0, 0, 0, 0)
      ensures sub[..] == [0.0, 0.0, 0.0, 0.0] && div[..] == [0.0, 0.0, 0.0, 0.0]
    {
      x, y, width, height := 0, 0, 0, 0;
      sub := new real[4](_ => 0.0);
      div := new real[4](_ => 0.0);
    }
  }

  /** One instance of the stage in one pipe (dt_dev_pixelpipe_iop_t): its
      enable flag, its data, the pipe, the pipe's input scale and the scale
      of the buffer it receives. */
  class Piece {
    var enabled: bool
    const data: Data
    const pipe: Pipe
    const iscale: real
    const bufInScale: real

    constructor (data: Data, pipe: Pipe, iscale: real, bufInScale: real)
      ensures enabled && this.data == data && this.pipe == pipe
      ensures this.iscale == iscale && this.bufInScale == bufInScale
    {
      enabled := true;
      this.data := data;
      this.pipe := pipe;
      this.iscale := iscale;
      this.bufInScale := bufInScale;
    }
  }

  /** MAX(0, v). */
  function Max0(v: real): (r: real)
    ensures r >= 0.0 && r >= v
    ensures r == 0.0 || r == v
  {
    if 0.0 > v then 0.0 else v
  }

  /** roundf on exact reals: nearest integer, halves away from zero. */
  function RoundF(v: real): (n: int)
    ensures n as real - 0.5 <= v <= n as real + 0.5
    ensures v >= 0.0 ==> n >= 0
    ensures v <= 0.0 ==> n <= 0
  {
    if v >= 0.0 then (v + 0.5).Floor else -((-v + 0.5).Floor)
  }

  /** n is v rounded toward zero. */
  predicate TowardZero(n: int, v: real) {
    if v >= 0.0 then 0 <= n && n as real <= v < n as real + 1.0
    else n <= 0 && n as real - 1.0 < v <= n as real
  }

  /** The C conversion of a float to int: truncation toward zero. */
  function Trunc(v: real): (n: int)
    ensures TowardZero(n, v)
  {
    if v >= 0.0 then v.Floor else -((-v).Floor)
  }

  /** Truncation leaves a whole number unchanged. */
  lemma TruncOfInt(k: int)
    ensures Trunc(k as real) == k
  {
  }
}
