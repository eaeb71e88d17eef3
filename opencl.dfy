/** The OpenCL path of process: buffer management around one kernel launch.
    The device is a model of handles and launches; what the kernels compute
    is the `Kernel` module's formulas, not restated here. */
module OpenCl {
  import opened Base
  import Kernel

  /** CL_SUCCESS. */
  const ClSuccess: int := 0

  /** The value `err` holds before any OpenCL call. */
  const ErrUnset: int := -999

  /** The two kernels of the stage: one float per pixel (mosaic mode) or
      four (averaged mode). */
  datatype KernelChoice = Rawprepare1f | Rawprepare4f

  /** One kernel launch and the arguments set before it. */
  datatype Launch = Launch(kernel: KernelChoice, input: nat, output: nat, width: int, height: int,
                           cx: int, cy: int, sub: nat, div: nat, x: int, y: int)

  /** A device: buffer handles handed out so far, the ones still alive,
      what each buffer was filled with, and logs of releases and launches. */
  class Device {
    var next: nat
    ghost var live: set<nat>
    ghost var contents: map<nat, seq<real>>
    ghost var released: seq<nat>
    ghost var launches: seq<Launch>

    ghost predicate Valid()
      reads this
    {
      forall h :: h in live ==> h < next
    }

    constructor ()
      ensures Valid() && live == {} && contents == map[] && released == [] && launches == []
    {
      next, live, contents, released, launches := 0, {}, map[], [], [];
    }

    /** dt_opencl_copy_host_to_device_constant: a new constant buffer
        holding `data`, or none when the copy fails (`succeeds` stands for
        the outcome of the driver call). */
    method CopyToDevice(data: seq<real>, succeeds: bool) returns (h: Option<nat>)
      requires Valid()
      modifies this
      ensures Valid()
      ensures succeeds ==> h == Some(old(next)) && live == old(live) + {old(next)}
      ensures succeeds ==> contents == old(contents)[old(next) := data]
      ensures !succeeds ==> h.None? && live == old(live) && contents == old(contents)
      ensures old(next) <= next && released == old(released) && launches == old(launches)
    {
      if succeeds {
        h := Some(next);
        live := live + {next};
        contents := contents[next := data];
        next := next + 1;
      } else {
        h := None;
      }
    }

    /** dt_opencl_release_mem_object. */
    method Release(h: nat)
      requires Valid() && h in live
      modifies this
      ensures Valid()
      ensures live == old(live) - {h} && released == old(released) + [h]
      ensures next == old(next) && contents == old(contents) && launches == old(launches)
    {
      live := live - {h};
      released := released + [h];
    }

    /** dt_opencl_enqueue_kernel_2d after the arguments are set: the launch
        is recorded and the driver's status (`result`) returned. */
    method Enqueue(launch: Launch, result: int) returns (err: int)
      requires Valid()
      modifies this
      ensures Valid() && err == result
      ensures launches == old(launches) + [launch]
      ensures next == old(next) && live == old(live) && contents == old(contents) && released == old(released)
    {
      launches := launches + [launch];
      err := result;
    }
  }

  /** The kernel and crop offsets process_cl passes: the 1f kernel with the
      crop itself in mosaic mode, otherwise the 4f kernel with the crop
      scaled to the downsampled buffer and truncated. */
  function KernelArgs(piece: Piece, roiIn: Region): (r: (KernelChoice, int, int))
    reads piece, piece.data
    requires !MosaicMode(piece.pipe) ==> piece.iscale != 0.0
    ensures MosaicMode(piece.pipe) <==> r.0 == Rawprepare1f
    ensures MosaicMode(piece.pipe) ==> r.1 == piece.data.x && r.2 == piece.data.y
    ensures !MosaicMode(piece.pipe) ==> (r.1, r.2) == Kernel.ScaledCrop(piece.data, roiIn, piece.iscale)
  {
    if !piece.pipe.downsampled && piece.pipe.image.filters != 0 then
      (Rawprepare1f, piece.data.x, piece.data.y)
    else
      var cs := Kernel.ScaledCrop(piece.data, roiIn, piece.iscale);
      (Rawprepare4f, cs.0, cs.1)
  }

  /** process_cl: copy sub[] and div[] to the device, launch the kernel for
      the mode, release both buffers. Any failure jumps to one error exit
      that releases whichever buffers exist. It reports success exactly when
      both copies and the launch succeed; every buffer it creates is
      released exactly once, so no device buffer outlives the call. */
  method ProcessCl(dev: Device, piece: Piece, devIn: nat, devOut: nat, roiIn: Region, roiOut: Region,
                   copySubOk: bool, copyDivOk: bool, enqueueResult: int)
    returns (ok: bool, ghost created: seq<nat>)
    requires dev.Valid() && piece.data.Valid()
    requires !MosaicMode(piece.pipe) ==> piece.iscale != 0.0
    modifies dev
    ensures dev.Valid() && dev.live == old(dev.live)
    ensures ok <==> copySubOk && copyDivOk && enqueueResult == ClSuccess
    ensures |created| == (if !copySubOk then 0 else if !copyDivOk then 1 else 2)
    ensures forall h :: h in created ==> h !in old(dev.live)
    ensures |created| == 2 ==> created[0] != created[1]
    ensures dev.released == old(dev.released) + created
    ensures |created| >= 1 ==> created[0] in dev.contents && dev.contents[created[0]] == piece.data.sub[..]
    ensures |created| == 2 ==> created[1] in dev.contents && dev.contents[created[1]] == piece.data.div[..]
    ensures copySubOk && copyDivOk ==>
      var args := KernelArgs(piece, roiIn);
      dev.launches == old(dev.launches) + [Launch(args.0, devIn, devOut, roiOut.width, roiOut.height,
                                                  args.1, args.2, created[0], created[1], roiOut.x, roiOut.y)]
    ensures !(copySubOk && copyDivOk) ==> dev.launches == old(dev.launches)
  {
    var d := piece.data;
    var args := KernelArgs(piece, roiIn);
    var err := ErrUnset;
    var devSub: Option<nat> := None;
    var devDiv: Option<nat> := None;
    var failed := false;
    created := [];

    devSub := dev.CopyToDevice(d.sub[..], copySubOk);
    if devSub.None? {
      failed := true;
    } else {
      created := created + [devSub.value];
      devDiv := dev.CopyToDevice(d.div[..], copyDivOk);
      if devDiv.None? {
        failed := true;
      } else {
        created := created + [devDiv.value];
        var launch := Launch(args.0, devIn, devOut, roiOut.width, roiOut.height, args.1, args.2,
                             devSub.value, devDiv.value, roiOut.x, roiOut.y);
        err := dev.Enqueue(launch, enqueueResult);
        if err != ClSuccess {
          failed := true;
        }
      }
    }

    if !failed {
      dev.Release(devSub.value);
      dev.Release(devDiv.value);
      return true, created;
    }

    // error:
    if devSub.Some? {
      dev.Release(devSub.value);
    }
    if devDiv.Some? {
      dev.Release(devDiv.value);
    }
    ok := false;
  }
}
