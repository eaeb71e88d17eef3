# rawprepare in Dafny

A model of darktable's `rawprepare` image operation (`src/iop/rawprepare.c`).
This is the first stage of the raw pipeline. It crops the sensor borders off
the raw buffer, subtracts the black level and divides by the white-minus-black
range, so that samples land on a [0, 1] scale.

The stage runs in one of two modes:

- **Mosaic mode.** Native, undownsampled input with a colour filter pattern.
  Each 16-bit sample gets the black level and divisor of its 2x2 Bayer class,
  and the stage writes one float per pixel.
- **Averaged mode.** Everything else: the input is already four floats per
  pixel. One normalised black/divisor pair (the mean of the four black levels)
  is applied to every channel.

Modules, one per concern of the source file:

- `Base`: shared records and classes.
  - Regions of interest, the image, the pipe, the parameters.
  - The per-piece `Data` class holding `x`, `y`, `width`, `height` and the arrays `sub[4]` and `div[4]`.
  - The `Piece` class.
  - `roundf` and the truncating float-to-int cast, written out on reals.
- `Bayer`: the `BL` class index and its parity, periodicity and shift laws.
- `Roi`: `modify_roi_in` and `modify_roi_out`, and the exact round trip between them.
- `Distort`: `distort_transform` and `distort_backtransform` on a flat array of points, and their inverse law.
- `Tiling`: `tiling_callback` and `output_bpp`.
- `Commit`: `commit_params` (coefficients for both modes, the enable rule) and `reload_defaults`.
- `Kernel`: `process`.
  - Mosaic path: the row loop, the scalar prologue up to an aligned address, the 8-wide block loop with coefficients loaded once per row, and the scalar epilogue.
  - Averaged path: the row loop with four channels per pixel.
  - The dispatcher.
  - Laws relating the two clamp orders, the two modes, and tiles to the whole image.
- `OpenCl`: `process_cl` as buffer management around one kernel launch.

Floats are modelled as exact reals and C `int` as unbounded integers.
The alignment test in the prologue is a parameter (`aligned`), so the mosaic
results are proved for every buffer alignment. Each parallel row loop is
modelled as a sequential loop. Each SSE vector is modelled as a simultaneous
assignment to four lanes.

## Model

| member | source | states |
|---|---|---|
| Bayer.BL | src/iop/rawprepare.c:212-216 | the class is in 0..3; its high bit is the parity of the sensor row (row + region y + crop y) and its low bit the parity of the sensor column |
| Bayer.SameClassIff | src/iop/rawprepare.c:212-216 | two pixels share a class if and only if their rows and their columns differ by even amounts |
| Bayer.Periodic | src/iop/rawprepare.c:212-216 | the class repeats every two rows and every two columns |
| Bayer.CropShift | src/iop/rawprepare.c:212-216 | a crop of (cx, cy) gives at (row, col) the class of sensor pixel (row + cy, col + cx) without crop |
| Bayer.OriginShift | src/iop/rawprepare.c:212-216 | moving the region origin by (dx, dy) is the same as moving the pixel by (dx, dy) |
| Bayer.BlockReuse | src/iop/rawprepare.c:250-274 | the lane coefficients loaded once at the block-loop start are right for lanes l and l + 4 of every later 8-wide block |
| Bayer.OddShiftChangesClass | src/iop/rawprepare.c:119-120 | an odd row or column offset always changes the class, which is why tiles are aligned to 2 |
| Roi.BorderAmount | src/iop/rawprepare.c:176-188 | the border is the crop sum itself on native input, and that sum times the scale rounded to within 0.5 on downsampled input; it is non-negative for non-negative inputs |
| Roi.RoiIn | src/iop/rawprepare.c:191-210 | the input region keeps the output region's origin and scale |
| Roi.RoiOut | src/iop/rawprepare.c:168-189 | the output region has origin (0, 0) and keeps the input region's scale |
| Roi.ModifyRoiIn | src/iop/rawprepare.c:191-210 | modify_roi_in returns the output region with its width grown by d.x + d.width and its height by d.y + d.height (rescaled and rounded on downsampled input) |
| Roi.ModifyRoiOut | src/iop/rawprepare.c:168-189 | modify_roi_out returns the input region with its origin reset and its width shrunk by d.x + d.width and its height by d.y + d.height (rescaled and rounded on downsampled input) |
| Roi.ShrinkAfterGrow | src/iop/rawprepare.c:168-210 | modify_roi_out after modify_roi_in gives back the requested size exactly; only the origin is reset |
| Roi.GrowAfterShrink | src/iop/rawprepare.c:168-210 | modify_roi_in after modify_roi_out gives back the available size exactly |
| Roi.GrowCovers | src/iop/rawprepare.c:191-210 | with non-negative crop sums and scales, the input region is at least as large as the output region it serves |
| Distort.Offset | src/iop/rawprepare.c:136-138 | the point offset is the crop origin times the buffer scale ratio; it is the crop origin itself when the two scales are equal |
| Distort.DistortTransform | src/iop/rawprepare.c:132-147 | returns 1; the first pointsCount points move by minus the offset and every later array entry is unchanged |
| Distort.DistortBacktransform | src/iop/rawprepare.c:149-165 | returns 1; the first pointsCount points move by plus the offset and every later array entry is unchanged |
| Distort.ShiftStep | src/iop/rawprepare.c:140-144 | one loop iteration moves exactly the x and y entries of one more point |
| Distort.ShiftCompose | src/iop/rawprepare.c:132-165 | two shifts of the same points compose into one shift by the summed offset |
| Distort.TransformsInverse | src/iop/rawprepare.c:132-165 | backtransform undoes transform and transform undoes backtransform, entry by entry |
| Distort.ShiftedAt | src/iop/rawprepare.c:140-144 | even entries below 2n move by dx, odd ones by dy, and the rest are unchanged |
| Tiling.TilingCallback | src/iop/rawprepare.c:110-122 | the factor is 1 plus the output-to-input area ratio (between 1 and 2 when the output is no larger); maxbuf 1, no overhead, no overlap, x and y alignment 2 |
| Tiling.OutputBpp | src/iop/rawprepare.c:124-130 | 4 bytes (one float) exactly on undownsampled raw input, 16 bytes otherwise |
| Tiling.FloatsWritten | src/iop/rawprepare.c:226-310 | process writes one float per pixel in mosaic mode and four otherwise |
| Tiling.OutputBppMatchesProcess | src/iop/rawprepare.c:124-130 | the announced size matches the floats process writes if and only if the pipe is downsampled or the raw flag agrees with having a filter pattern |
| Commit.AveragedBlack | src/iop/rawprepare.c:404-409 | the accumulated black is the mean of the four levels over 65535, and lies in [0, 1] |
| Commit.Derive | src/iop/rawprepare.c:391-416 | mosaic: sub[k] is black level k and sub[k] + div[k] is the white point; averaged: every sub[k] is the mean black level (`AveragedBlack`), all divisors are equal, and sub + div is white/65535 |
| Commit.FillMosaic | src/iop/rawprepare.c:391-400 | after the mosaic loop, sub[] and div[] hold the mosaic coefficients |
| Commit.FillAveraged | src/iop/rawprepare.c:401-416 | after the accumulation and fill loops, sub[] and div[] hold the averaged coefficients |
| Commit.CommitParams | src/iop/rawprepare.c:380-419 | copies the crop; sub[] and div[] hold the coefficients of the pipe's mode; the piece stays enabled if and only if it was enabled and the image is raw and not float |
| Commit.DivisorsNonZeroIff | src/iop/rawprepare.c:391-416 | all divisors are non-zero if and only if the white point differs from every black level (mosaic) or from their mean (averaged); the stage itself checks neither |
| Commit.DivisorsPositive | src/iop/rawprepare.c:391-416 | a white point above every black level makes all divisors positive, in both modes |
| Commit.Module.ReloadDefaults | src/iop/rawprepare.c:433-457 | params and default_params are both the image's crop, black levels and white point, or all zero without an image; default_enabled is raw and not float, and is untouched without an image |
| Kernel.NormMosaic | src/iop/rawprepare.c:244 | the mosaic formula (clamp, then divide): with a positive divisor it is non-negative, zero exactly for samples at or below the black level, and at most 1 up to black + divisor |
| Kernel.NormFloat | src/iop/rawprepare.c:305-307 | the averaged formula (divide, then clamp) is never negative; with a positive divisor it is zero exactly at or below the black level and at most 1 up to black + divisor |
| Kernel.MosaicPixel | src/iop/rawprepare.c:235-244 | the value of output pixel (j, i) normalises the sample at input row j + cy, column i + cx with its class's pair; with a positive divisor it lies in [0, 1] for samples up to the white point and is 0 exactly at or below the black level |
| Kernel.AveragedPixel | src/iop/rawprepare.c:297-307 | the value of channel ch of output pixel (j, i) normalises channel ch of input pixel (j + csy, i + csx) with pair ch; it is never negative and, with a positive divisor, lies in [0, 1] up to the white point and is 0 exactly at or below the black level |
| Kernel.ScaledCrop | src/iop/rawprepare.c:287-288 | each crop offset is the crop origin times the buffer scale ratio, truncated toward zero as the int conversion does |
| Kernel.StoreBlock | src/iop/rawprepare.c:257-274 | an 8-wide block writes the clamped and divided samples to 8 consecutive outputs, the low four and high four with the same lane coefficients, and nothing else |
| Kernel.SetLanes | src/iop/rawprepare.c:250-254 | lane l of the loaded vector is the coefficient of the class of column i + l |
| Kernel.BlockCorrect | src/iop/rawprepare.c:250-274 | every output of an 8-wide block, at any multiple of 8 after the load point, equals the mosaic formula for its own class |
| Kernel.BlockLoop | src/iop/rawprepare.c:257-274 | the block loop stops with fewer than 8 pixels left, and leaves every pixel it passed holding the mosaic formula, written once each in order |
| Kernel.StorePixel | src/iop/rawprepare.c:277-281 | one scalar step writes the mosaic formula for pixel i and nothing else |
| Kernel.Prologue | src/iop/rawprepare.c:241-248 | the scalar prologue stops at the row end or at the first aligned pixel, with no aligned column before it and every pixel before it correct |
| Kernel.Epilogue | src/iop/rawprepare.c:277-281 | the scalar epilogue completes the row |
| Kernel.MosaicRow | src/iop/rawprepare.c:233-282 | for every alignment, each pixel of row j holds the mosaic formula, each is written exactly once in order, and nothing outside the row changes |
| Kernel.ProcessMosaic | src/iop/rawprepare.c:226-283 | every output pixel holds max(0, sample - sub[class]) / div[class] for the sample under it after the crop; outputs are written once each in order |
| Kernel.ScaledCropUnscaled | src/iop/rawprepare.c:287-288 | the crop in downsampled pixels is the crop itself when the buffer is not rescaled |
| Kernel.StorePixel4 | src/iop/rawprepare.c:301-308 | one four-lane step writes the averaged formula on all four channels of one pixel and nothing else |
| Kernel.AveragedRow | src/iop/rawprepare.c:295-309 | every channel of every pixel of row j holds the averaged formula, written once each in order, and nothing outside the row changes |
| Kernel.ProcessAveraged | src/iop/rawprepare.c:284-310 | every channel of every output pixel holds max(0, (value - sub[ch]) / div[ch]) for the input pixel under it after the scaled crop |
| Kernel.Process | src/iop/rawprepare.c:218-312 | dispatches on the mode; in each mode every output holds that mode's formula and is written once, in order; the trace covers exactly `FloatsWritten` floats per pixel; the output buffer beyond the region is untouched |
| Kernel.ClampOrder | src/iop/rawprepare.c:226-310 | the mosaic order (clamp, then divide) and the averaged order (divide, then clamp) agree if and only if the divisor is positive or the sample is the black level |
| Kernel.ModesAgree | src/iop/rawprepare.c:380-416 | with four equal black levels below white, the averaged path on a sample over 65535 gives exactly the mosaic path's value |
| Kernel.UniformBlack | src/iop/rawprepare.c:404-409 | equal black levels average to their own value over 65535 |
| Kernel.TileAligned | src/iop/rawprepare.c:110-122 | a tile cut at an offset that respects the descriptor's alignment, with the same region origin, gives at every pixel what the whole image gives at the matching pixel |
| Kernel.TileShiftedOrigin | src/iop/rawprepare.c:212-216 | at any offset, a tile whose region origin moves with the offset gives the whole image's values |
| OpenCl.KernelArgs | src/iop/rawprepare.c:326-342 | the 1f kernel exactly in mosaic mode, with the crop origin; otherwise the 4f kernel with the scaled, truncated crop |
| OpenCl.ProcessCl | src/iop/rawprepare.c:315-377 | returns success if and only if both copies succeed and the launch returns CL_SUCCESS; every created buffer is released exactly once and no buffer outlives the call; the launch is recorded with the mode's kernel and arguments; the two constant buffers hold sub[] and div[] |

## Left out

- The GUI, the key accelerators, `cleanup`, `init_global`, `cleanup_global` and `cleanup_pipe` (lines 64-108, 427-431, 459-467 and 482-583). These only allocate, free, register or set up widgets.
- `init` (lines 469-480). Besides allocating, it sets `default_enabled` by the same rule as `reload_defaults` (line 452, modelled by `Commit.Module.ReloadDefaults`), and it reads the image through `self->dev` without checking for its absence.
- `init_pipe` (lines 421-425). Besides allocating the piece data, it commits the default parameters (modelled by `Commit.CommitParams`).
- IEEE single-precision rounding. Every float is an exact real. Divisions by a zero divisor (which yield infinity or NaN in C) are excluded by preconditions. `Commit.DivisorsNonZeroIff` states exactly when they occur.
- Distort.TransformsInverse: exact on reals only. With float rounding, `(p - x) + x` need not equal `p`.
- 32-bit overflow of `d->x + d->width` and of the index products. Integers are unbounded.
- OpenMP. Rows are independent and are processed in order.
- The non-temporal stores and `_mm_sfence`. They affect caching only.
- The OpenCL kernel bodies (in `data/kernels`). They are not part of this model. The launch is recorded with its arguments.
- The `ROUNDUPWD`/`ROUNDUPHT` work sizes of the launch.
- The debug print on the error path.
- The driver calls behind `dt_opencl_copy_host_to_device_constant` and `dt_opencl_enqueue_kernel_2d`. Their outcomes are parameters.
- The address test `dt_is_aligned`. It is a parameter; the mosaic results hold for any answer it gives.
- The SSE 16-bit loads in the block loop. They are modelled as reading eight consecutive samples, whatever their alignment.
- Kernel.ProcessMosaic and Kernel.ProcessAveraged: require the crop to lie within each input row and the input buffer, and the output to fit its buffer. Otherwise the C code reads out of bounds or across a row end. Negative sizes are excluded as well, and so are empty regions whose crop falls outside the input row or buffer, although the C loops do nothing on them.
- Kernel.Process: requires every divisor to be non-zero. Nothing in the stage checks this.
- OpenCl.ProcessCl: the kernel's effect on the output buffer is not stated.
