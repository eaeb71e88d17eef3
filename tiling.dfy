/** What the stage tells the pipeline about its buffers: the tiling cost
    descriptor (tiling_callback) and the bytes per output pixel
    (output_bpp). */
module Tiling {
  import opened Base

  /** dt_develop_tiling_t: memory factor relative to the input buffer, the
      largest single buffer, fixed overhead in bytes, tile overlap in pixels
      and the alignment every tile origin must respect. */
  datatype Descriptor = Descriptor(
    factor: real, maxbuf: real, overhead: int, overlap: int, xalign: int, yalign: int)

  function Area(r: Region): int {
    r.width * r.height
  }

  /** tiling_callback: one input and one output buffer and nothing else, no
      overlap, and tiles aligned to the 2x2 mosaic. */
  function TilingCallback(roiIn: Region, roiOut: Region): (t: Descriptor)
    requires Area(roiIn) != 0
    ensures t.factor == 1.0 + Area(roiOut) as real / Area(roiIn) as real
    ensures t.maxbuf == 1.0 && t.overhead == 0 && t.overlap == 0
    ensures t.xalign == 2 && t.yalign == 2
    ensures Area(roiIn) > 0 && 0 <= Area(roiOut) <= Area(roiIn) ==> 1.0 <= t.factor <= 2.0
  {
    var ioratio := (roiOut.width * roiOut.height) as real / (roiIn.width * roiIn.height) as real;
    Descriptor(1.0 + ioratio, 1.0, 0, 0, 2, 2)
  }

  /** output_bpp: one float per pixel on native raw input, four otherwise. */
  function OutputBpp(pipe: Pipe): (n: nat)
    ensures n == SizeofFloat || n == 4 * SizeofFloat
    ensures n == SizeofFloat <==> !pipe.downsampled && pipe.image.raw
  {
    if !pipe.downsampled && pipe.image.raw then SizeofFloat else 4 * SizeofFloat
  }

  /** Floats `process` writes per output pixel: one on the mosaic path, four
      on the averaged path. */
  function FloatsWritten(pipe: Pipe): (n: nat)
    ensures n == 1 || n == 4
  {
    if MosaicMode(pipe) then 1 else 4
  }

  /** output_bpp decides by the raw flag, `process` by the filter pattern:
      the size announced matches what is written exactly when the pipe is
      downsampled or the image is raw precisely when it has a filter
      pattern. */
  lemma OutputBppMatchesProcess(pipe: Pipe)
    ensures OutputBpp(pipe) == SizeofFloat * FloatsWritten(pipe)
        <==> pipe.downsampled || pipe.image.raw == (pipe.image.filters != 0)
  {
  }
}
