/**
 * Stand-ins for the Android objects the core talks to. Each keeps only the
 * state the core reads or changes, and each operation's contract is what
 * the core relies on: the clock never runs backwards and a sleep lasts at
 * least as long as asked; acquiring an image hands over the newest frame;
 * closing a reader and releasing a display are counted; a started activity
 * is recorded with its flags and display.
 */
module Platform {
  import opened Results
  import opened Jvm

  /** `SystemClock.uptimeMillis()` and `Thread.sleep`. */
  class Clock {
    var now: int
    /** Every timeout passed to a sleep that was carried out, oldest first. */
    ghost var sleeps: seq<int>

    constructor (start: int)
      ensures now == start && sleeps == []
    {
      now := start;
      sleeps := [];
    }

    /** Reads the clock; time may have passed since the last reading, never backwards. */
    method UptimeMillis() returns (t: int)
      modifies this
      ensures old(now) <= t == now
      ensures sleeps == old(sleeps)
    {
      t := now;
    }

    /** `Thread.sleep(ms)`: a negative timeout throws; otherwise at least `ms` pass. */
    method Sleep(ms: int) returns (r: Outcome)
      modifies this
      ensures r.Fail? <==> ms < 0
      ensures r.Fail? ==> r.error == NegativeSleep && now == old(now) && sleeps == old(sleeps)
      ensures r.Pass? ==> now >= old(now) + ms && sleeps == old(sleeps) + [ms]
    {
      if ms < 0 {
        return Fail(NegativeSleep);
      }
      now := now + ms;
      sleeps := sleeps + [ms];
      r := Pass;
    }
  }

  /** One acquired frame: plane 0's geometry and bytes (from position 0 to the limit). */
  class Image {
    const width: int
    const height: int
    const pixelStride: int
    const rowStride: int
    const buffer: seq<bv8>
    var closed: bool

    /** What the platform guarantees of an RGBA_8888 plane. */
    predicate WellFormed() {
      width >= 0 && height >= 0 && pixelStride > 0 && rowStride >= 0
    }

    constructor (width: int, height: int, pixelStride: int, rowStride: int, buffer: seq<bv8>)
      ensures this.width == width && this.height == height
      ensures this.pixelStride == pixelStride && this.rowStride == rowStride
      ensures this.buffer == buffer && !closed
    {
      this.width := width;
      this.height := height;
      this.pixelStride := pixelStride;
      this.rowStride := rowStride;
      this.buffer := buffer;
      closed := false;
    }

    method Close()
      modifies this
      ensures closed
    {
      closed := true;
    }
  }

  /** The frame sink of a virtual display. */
  class ImageReader {
    const width: int
    const height: int
    /** How many frames may be in flight at once. */
    const maxImages: nat
    /** The newest rendered frame not yet acquired, if any. */
    var latest: Image?
    var closeCalls: nat

    constructor (width: int, height: int, maxImages: nat)
      ensures this.width == width && this.height == height && this.maxImages == maxImages
      ensures latest == null && closeCalls == 0
    {
      this.width := width;
      this.height := height;
      this.maxImages := maxImages;
      latest := null;
      closeCalls := 0;
    }

    /** `acquireLatestImage()`: the newest frame, or null when none has arrived. */
    method AcquireLatestImage() returns (img: Image?)
      modifies this
      ensures img == old(latest) && latest == null
      ensures closeCalls == old(closeCalls)
    {
      img := latest;
      latest := null;
    }

    method Close()
      modifies this
      ensures closeCalls == old(closeCalls) + 1 && latest == old(latest)
    {
      closeCalls := closeCalls + 1;
    }
  }

  class VirtualDisplay {
    const displayId: int32
    /** Whether the platform throws when this display is released. */
    const releaseThrows: bool
    var releaseCalls: nat

    constructor (displayId: int32, releaseThrows: bool)
      ensures this.displayId == displayId && this.releaseThrows == releaseThrows
      ensures releaseCalls == 0
    {
      this.displayId := displayId;
      this.releaseThrows := releaseThrows;
      releaseCalls := 0;
    }

    method Release() returns (r: Outcome)
      modifies this
      ensures releaseCalls == old(releaseCalls) + 1
      ensures r == if releaseThrows then Fail(DisplayReleaseFailed) else Pass
    {
      releaseCalls := releaseCalls + 1;
      r := if releaseThrows then Fail(DisplayReleaseFailed) else Pass;
    }
  }

  /** The mode and density of the primary display (`displays[0]`). */
  datatype DisplayMode = DisplayMode(physicalWidth: int32, physicalHeight: int32, densityDpi: int32)

  /** Whether a virtual display of this size and density may be created at all. */
  predicate PositiveSize(width: int32, height: int32, dpi: int32) {
    width > 0 && height > 0 && dpi > 0
  }

  /**
   * What the allocator gives a request of this size when it `refuses` or
   * would number the next display `nextDisplayId`: that id, or the error
   * `createVirtualDisplay` throws.
   */
  function Allocation(refuses: bool, nextDisplayId: int32, width: int32, height: int32, dpi: int32): Result<int32> {
    if !PositiveSize(width, height, dpi) then Err(InvalidDisplaySize)
    else if refuses then Err(DisplayCreationFailed)
    else Ok(nextDisplayId)
  }

  /** The surface allocator: `VirtualDisplayManager.createVirtualDisplay`. */
  class VirtualDisplayManager {
    /** Whether `DisplayManager.createVirtualDisplay` will return null. */
    var refuses: bool
    /** The id the platform gives the next virtual display. */
    var nextDisplayId: int32
    /** Whether displays created from now on throw when released. */
    var releasesThrow: bool

    constructor (refuses: bool, nextDisplayId: int32, releasesThrow: bool)
      ensures this.refuses == refuses && this.nextDisplayId == nextDisplayId
      ensures this.releasesThrow == releasesThrow
    {
      this.refuses := refuses;
      this.nextDisplayId := nextDisplayId;
      this.releasesThrow := releasesThrow;
    }

    /**
     * A new display of the requested size backed by a new double-buffered
     * reader (two frames in flight). `ImageReader.newInstance` rejects a
     * non-positive width or height and `DisplayManager.createVirtualDisplay`
     * a non-positive density, both with an `IllegalArgumentException`; a
     * valid request fails only when the platform refuses.
     */
    method CreateVirtualDisplay(name: string, width: int32, height: int32, dpi: int32)
      returns (r: Result<(VirtualDisplay, ImageReader)>)
      modifies this
      ensures refuses == old(refuses) && releasesThrow == old(releasesThrow)
      ensures !PositiveSize(width, height, dpi) ==> r == Err(InvalidDisplaySize)
      ensures PositiveSize(width, height, dpi) && old(refuses) ==> r == Err(DisplayCreationFailed)
      ensures PositiveSize(width, height, dpi) && !old(refuses) ==> r.Ok?
      ensures r.Err? ==> nextDisplayId == old(nextDisplayId)
      ensures r.Ok? ==> fresh(r.value.0) && fresh(r.value.1)
      ensures r.Ok? ==> r.value.0.displayId == old(nextDisplayId) && r.value.0.releaseCalls == 0
      ensures r.Ok? ==> r.value.0.releaseThrows == old(releasesThrow)
      ensures r.Ok? ==> r.value.1.width == width && r.value.1.height == height && r.value.1.maxImages == 2
      ensures r.Ok? ==> r.value.1.latest == null && r.value.1.closeCalls == 0
    {
      if width <= 0 || height <= 0 {
        return Err(InvalidDisplaySize);
      }
      if dpi <= 0 || refuses {
        return Err(if dpi <= 0 then InvalidDisplaySize else DisplayCreationFailed);
      }
      var reader := new ImageReader(width, height, 2);
      var display := new VirtualDisplay(nextDisplayId, releasesThrow);
      nextDisplayId := if nextDisplayId < INT_MAX then nextDisplayId + 1 else 1;
      r := Ok((display, reader));
    }
  }

  const FLAG_ACTIVITY_NEW_TASK: bv32 := 0x1000_0000
  const FLAG_ACTIVITY_CLEAR_TASK: bv32 := 0x0000_8000

  /** What an activity launch names: a package's launch intent, or an explicit component with optional extras. */
  datatype LaunchTarget =
    | LaunchIntentFor(packageName: string)
    | ExplicitComponent(packageName: string, className: string, extras: Option<map<string, string>>)

  datatype Launch = Launch(target: LaunchTarget, flags: bv32, displayId: int32)

  /** `PackageManager.getLaunchIntentForPackage` and `Context.startActivity` with a launch display. */
  class ActivityStarter {
    /** The packages that have a launcher activity. */
    const launchable: set<string>
    var started: seq<Launch>

    constructor (launchable: set<string>)
      ensures this.launchable == launchable && started == []
    {
      this.launchable := launchable;
      started := [];
    }

    method StartActivity(target: LaunchTarget, flags: bv32, displayId: int32)
      modifies this
      ensures started == old(started) + [Launch(target, flags, displayId)]
    {
      started := started + [Launch(target, flags, displayId)];
    }
  }
}
