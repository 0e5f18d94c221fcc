/**
 * Session: one automation session, either headless (backed by a virtual
 * display and the image reader it renders into) or bound to the physical
 * display. Its lifecycle runs one way, from active to destroyed. Screen,
 * input, launch and foreground-app operations fail once it is destroyed,
 * before any delegate is called. The system pass-throughs and
 * `getScreenSize` do not look at the lifecycle. Destroying closes the owned
 * reader and releases the owned display, once.
 */
module Sessions {
  import opened Results
  import opened Jvm
  import opened SessionConfigs
  import opened Platform
  import opened Input
  import opened ScreenCapture
  import opened SystemExecution

  const PHYSICAL_ID: string := "physical-0"
  const PHYSICAL_DISPLAY_ID: int32 := 0

  const KEYCODE_HOME: int32 := 3
  const KEYCODE_BACK: int32 := 4
  const KEYCODE_VOLUME_UP: int32 := 24
  const KEYCODE_VOLUME_DOWN: int32 := 25
  const KEYCODE_POWER: int32 := 26
  const KEYCODE_APP_SWITCH: int32 := 187

  /** `FLAG_ACTIVITY_NEW_TASK or FLAG_ACTIVITY_CLEAR_TASK`. */
  const LAUNCH_FLAGS: bv32 := FLAG_ACTIVITY_NEW_TASK | FLAG_ACTIVITY_CLEAR_TASK

  class Session {
    const id: string
    const displayId: int32
    const config: SessionConfig
    const virtualDisplay: VirtualDisplay?
    const imageReader: ImageReader?
    const injector: InputInjector
    const capturer: ScreenCapturer
    const executor: SystemExecutor
    const starter: ActivityStarter
    var destroyed: bool

    /** `isHeadless`: a virtual display is present. */
    predicate IsHeadless() {
      virtualDisplay != null
    }

    /** The objects only this session may close or release. */
    ghost function Owned(): set<object> {
      {this} + (if imageReader != null then {imageReader} else {})
      + (if virtualDisplay != null then {virtualDisplay} else {})
    }

    /**
     * A headless session owns both a reader and a display, a physical one
     * neither; each has been closed or released once if the session is
     * destroyed and never otherwise.
     */
    ghost predicate Valid()
      reads this, imageReader, virtualDisplay
    {
      (virtualDisplay == null <==> imageReader == null)
      && (virtualDisplay != null ==>
            virtualDisplay.releaseCalls == (if destroyed then 1 else 0)
            && imageReader.closeCalls == (if destroyed then 1 else 0))
    }

    constructor (id: string, displayId: int32, config: SessionConfig,
                 virtualDisplay: VirtualDisplay?, imageReader: ImageReader?,
                 injector: InputInjector, capturer: ScreenCapturer,
                 executor: SystemExecutor, starter: ActivityStarter)
      ensures this.id == id && this.displayId == displayId && this.config == config
      ensures this.virtualDisplay == virtualDisplay && this.imageReader == imageReader
      ensures this.injector == injector && this.capturer == capturer
      ensures this.executor == executor && this.starter == starter
      ensures !destroyed
    {
      this.id := id;
      this.displayId := displayId;
      this.config := config;
      this.virtualDisplay := virtualDisplay;
      this.imageReader := imageReader;
      this.injector := injector;
      this.capturer := capturer;
      this.executor := executor;
      this.starter := starter;
      destroyed := false;
    }

    /**
     * `createHeadless`: a new virtual display of the configured size, and a
     * session on it under a fresh id, whose display id is the new display's;
     * it fails as the allocator does for that size.
     */
    static method CreateHeadless(freshId: string, config: SessionConfig, displays: VirtualDisplayManager,
                                 injector: InputInjector, capturer: ScreenCapturer,
                                 executor: SystemExecutor, starter: ActivityStarter)
      returns (r: Result<Session>)
      modifies displays
      ensures displays.refuses == old(displays.refuses) && displays.releasesThrow == old(displays.releasesThrow)
      ensures var a := Allocation(old(displays.refuses), old(displays.nextDisplayId), config.width, config.height, config.dpi);
        (r.Err? <==> a.Err?) && (r.Err? ==> r.error == a.error)
      ensures r.Ok? ==> fresh(r.value) && fresh(r.value.virtualDisplay) && fresh(r.value.imageReader)
      ensures r.Ok? ==> r.value.id == freshId && r.value.config == config && r.value.IsHeadless()
      ensures r.Ok? ==> r.value.displayId == r.value.virtualDisplay.displayId == old(displays.nextDisplayId)
      ensures r.Ok? ==> r.value.virtualDisplay.releaseThrows == old(displays.releasesThrow)
      ensures r.Ok? ==> r.value.imageReader.width == config.width && r.value.imageReader.height == config.height
      ensures r.Ok? ==> r.value.imageReader.latest == null
      ensures r.Ok? ==> r.value.injector == injector && r.value.capturer == capturer
      ensures r.Ok? ==> r.value.executor == executor && r.value.starter == starter
      ensures r.Ok? ==> !r.value.destroyed && r.value.Valid()
    {
      var created := displays.CreateVirtualDisplay("agi-session-" + freshId, config.width, config.height, config.dpi);
      if created.Err? {
        return Err(created.error);
      }
      var (display, reader) := created.value;
      var s := new Session(freshId, display.displayId, config, display, reader, injector, capturer, executor, starter);
      r := Ok(s);
    }

    /**
     * `createPhysical`: the session `"physical-0"` on display 0, sized like
     * the primary display's mode and not headless.
     */
    static method CreatePhysical(mode: DisplayMode, injector: InputInjector, capturer: ScreenCapturer,
                                 executor: SystemExecutor, starter: ActivityStarter)
      returns (s: Session)
      ensures fresh(s)
      ensures s.id == PHYSICAL_ID && s.displayId == PHYSICAL_DISPLAY_ID && !s.IsHeadless()
      ensures s.config == SessionConfig(mode.physicalWidth, mode.physicalHeight, mode.densityDpi, false)
      ensures s.imageReader == null
      ensures s.injector == injector && s.capturer == capturer
      ensures s.executor == executor && s.starter == starter
      ensures !s.destroyed && s.Valid()
    {
      var config := SessionConfig(mode.physicalWidth, mode.physicalHeight, mode.densityDpi, false);
      s := new Session(PHYSICAL_ID, PHYSICAL_DISPLAY_ID, config, null, null, injector, capturer, executor, starter);
    }

    // ------------------------------------------------------------ screen

    /**
     * `captureScreenRaw`: from the session's reader when headless, from the
     * physical display otherwise.
     */
    method CaptureScreenRaw() returns (r: Result<seq<bv8>>)
      requires Valid()
      requires imageReader != null && imageReader.latest != null ==> imageReader.latest.WellFormed()
      modifies imageReader, if imageReader != null then imageReader.latest else null
      ensures destroyed ==> r == Err(SessionDestroyed) && (imageReader != null ==> unchanged(imageReader))
      ensures !destroyed && !IsHeadless() ==> r == capturer.CapturedPhysically()
      ensures !destroyed && IsHeadless() ==> imageReader.latest == null && imageReader.closeCalls == old(imageReader.closeCalls)
      ensures !destroyed && IsHeadless() && old(imageReader.latest) == null ==> r == Err(NoImageAvailable)
      ensures !destroyed && IsHeadless() && old(imageReader.latest) != null ==>
        var img := old(imageReader.latest);
        img.closed && r == CaptureRaw(img.width, img.height, img.pixelStride, img.rowStride, img.buffer)
      ensures Valid()
    {
      if destroyed {
        return Err(SessionDestroyed);
      }
      if IsHeadless() {
        r := capturer.CaptureVirtualDisplayRaw(imageReader);
      } else {
        r := capturer.CapturePhysicalDisplayRaw();
      }
    }

    /** `getScreenSize`: the configured size, whether or not the session is destroyed. */
    function GetScreenSize(): (size: (int32, int32))
      ensures size.0 == config.width && size.1 == config.height
    {
      (config.width, config.height)
    }

    // ------------------------------------------------------------ input

    method Click(x: real, y: real) returns (r: Outcome)
      modifies injector, injector.clock
      ensures r.Fail? <==> destroyed
      ensures destroyed ==> r.error == SessionDestroyed && unchanged(injector, injector.clock)
      ensures !destroyed ==> PressLogged(old(injector.log), injector.log, displayId, x, y, old(injector.clock.now), injector.clock.now, 0)
    {
      if destroyed {
        return Fail(SessionDestroyed);
      }
      injector.InjectTap(displayId, x, y);
      r := Pass;
    }

    /** `longPress`: fails when destroyed, or when the duration is negative (after the DOWN). */
    method LongPress(x: real, y: real, durationMs: int64) returns (r: Outcome)
      modifies injector, injector.clock
      ensures destroyed ==> r == Fail(SessionDestroyed) && unchanged(injector, injector.clock)
      ensures !destroyed ==> (r.Pass? <==> durationMs >= 0)
      ensures !destroyed && r.Pass? ==>
        PressLogged(old(injector.log), injector.log, displayId, x, y, old(injector.clock.now), injector.clock.now, durationMs)
      ensures !destroyed && r.Fail? ==> r.error == NegativeSleep && |injector.log| == |old(injector.log)| + 1
    {
      if destroyed {
        return Fail(SessionDestroyed);
      }
      r := injector.InjectLongPress(displayId, x, y, durationMs);
    }

    method DoubleClick(x: real, y: real) returns (r: Outcome)
      modifies injector, injector.clock
      ensures r.Fail? <==> destroyed
      ensures destroyed ==> r.error == SessionDestroyed && unchanged(injector, injector.clock)
      ensures !destroyed ==> DoubleTapLogged(old(injector.log), injector.log, displayId, x, y, old(injector.clock.now), injector.clock.now)
    {
      if destroyed {
        return Fail(SessionDestroyed);
      }
      injector.InjectDoubleTap(displayId, x, y);
      r := Pass;
    }

    method Drag(startX: real, startY: real, endX: real, endY: real, durationMs: int64) returns (r: Outcome)
      modifies injector, injector.clock
      ensures destroyed ==> r == Fail(SessionDestroyed) && unchanged(injector, injector.clock)
      ensures !destroyed ==> (r.Pass? <==> DragSleepsSucceed(durationMs))
      ensures !destroyed && r.Pass? ==>
        DragLogged(old(injector.log), injector.log, displayId, startX, startY, endX, endY, durationMs,
                   old(injector.clock.now), injector.clock.now)
      ensures !destroyed && r.Fail? ==> r.error == NegativeSleep
    {
      if destroyed {
        return Fail(SessionDestroyed);
      }
      r := injector.InjectDrag(displayId, startX, startY, endX, endY, durationMs);
    }

    /** `type`: the text's key events on this display. */
    method Type(text: string) returns (r: Outcome)
      modifies injector, injector.clock
      ensures r.Fail? <==> destroyed
      ensures destroyed ==> r.error == SessionDestroyed && unchanged(injector, injector.clock)
      ensures !destroyed ==> injector.log == old(injector.log) + TextEvents(displayId, injector.keyMap, text)
      ensures !destroyed ==> unchanged(injector.clock)
    {
      if destroyed {
        return Fail(SessionDestroyed);
      }
      injector.InjectText(displayId, text);
      r := Pass;
    }

    method PressKey(keyCode: int32) returns (r: Outcome)
      modifies injector, injector.clock
      ensures r.Fail? <==> destroyed
      ensures destroyed ==> r.error == SessionDestroyed && unchanged(injector, injector.clock)
      ensures !destroyed ==> KeyPressLogged(old(injector.log), injector.log, displayId, keyCode, old(injector.clock.now), injector.clock.now)
    {
      if destroyed {
        return Fail(SessionDestroyed);
      }
      injector.InjectKeyEvent(displayId, keyCode);
      r := Pass;
    }

    method PressHome() returns (r: Outcome)
      modifies injector, injector.clock
      ensures r.Fail? <==> destroyed
      ensures destroyed ==> r.error == SessionDestroyed && unchanged(injector, injector.clock)
      ensures !destroyed ==> KeyPressLogged(old(injector.log), injector.log, displayId, KEYCODE_HOME, old(injector.clock.now), injector.clock.now)
    {
      r := PressKey(KEYCODE_HOME);
    }

    method PressBack() returns (r: Outcome)
      modifies injector, injector.clock
      ensures r.Fail? <==> destroyed
      ensures destroyed ==> r.error == SessionDestroyed && unchanged(injector, injector.clock)
      ensures !destroyed ==> KeyPressLogged(old(injector.log), injector.log, displayId, KEYCODE_BACK, old(injector.clock.now), injector.clock.now)
    {
      r := PressKey(KEYCODE_BACK);
    }

    method PressRecents() returns (r: Outcome)
      modifies injector, injector.clock
      ensures r.Fail? <==> destroyed
      ensures destroyed ==> r.error == SessionDestroyed && unchanged(injector, injector.clock)
      ensures !destroyed ==> KeyPressLogged(old(injector.log), injector.log, displayId, KEYCODE_APP_SWITCH, old(injector.clock.now), injector.clock.now)
    {
      r := PressKey(KEYCODE_APP_SWITCH);
    }

    method PressPower() returns (r: Outcome)
      modifies injector, injector.clock
      ensures r.Fail? <==> destroyed
      ensures destroyed ==> r.error == SessionDestroyed && unchanged(injector, injector.clock)
      ensures !destroyed ==> KeyPressLogged(old(injector.log), injector.log, displayId, KEYCODE_POWER, old(injector.clock.now), injector.clock.now)
    {
      r := PressKey(KEYCODE_POWER);
    }

    method PressVolumeUp() returns (r: Outcome)
      modifies injector, injector.clock
      ensures r.Fail? <==> destroyed
      ensures destroyed ==> r.error == SessionDestroyed && unchanged(injector, injector.clock)
      ensures !destroyed ==> KeyPressLogged(old(injector.log), injector.log, displayId, KEYCODE_VOLUME_UP, old(injector.clock.now), injector.clock.now)
    {
      r := PressKey(KEYCODE_VOLUME_UP);
    }

    method PressVolumeDown() returns (r: Outcome)
      modifies injector, injector.clock
      ensures r.Fail? <==> destroyed
      ensures destroyed ==> r.error == SessionDestroyed && unchanged(injector, injector.clock)
      ensures !destroyed ==> KeyPressLogged(old(injector.log), injector.log, displayId, KEYCODE_VOLUME_DOWN, old(injector.clock.now), injector.clock.now)
    {
      r := PressKey(KEYCODE_VOLUME_DOWN);
    }

    // ------------------------------------------------------------ apps

    /** `launchApp`: the package's launch intent, in a new cleared task on this display. */
    method LaunchApp(packageName: string) returns (r: Outcome)
      modifies starter
      ensures destroyed ==> r == Fail(SessionDestroyed) && starter.started == old(starter.started)
      ensures !destroyed && packageName !in starter.launchable ==>
        r == Fail(PackageNotFound) && starter.started == old(starter.started)
      ensures !destroyed && packageName in starter.launchable ==>
        r == Pass && starter.started == old(starter.started) + [Launch(LaunchIntentFor(packageName), LAUNCH_FLAGS, displayId)]
    {
      if destroyed {
        return Fail(SessionDestroyed);
      }
      if packageName !in starter.launchable {
        return Fail(PackageNotFound);
      }
      starter.StartActivity(LaunchIntentFor(packageName), LAUNCH_FLAGS, displayId);
      r := Pass;
    }

    /** `launchActivity`: an explicit component, with the extras if any, in a new cleared task on this display. */
    method LaunchActivity(packageName: string, activityName: string, extras: Option<map<string, string>>) returns (r: Outcome)
      modifies starter
      ensures r.Fail? <==> destroyed
      ensures destroyed ==> r.error == SessionDestroyed && starter.started == old(starter.started)
      ensures !destroyed ==>
        starter.started == old(starter.started) + [Launch(ExplicitComponent(packageName, activityName, extras), LAUNCH_FLAGS, displayId)]
    {
      if destroyed {
        return Fail(SessionDestroyed);
      }
      starter.StartActivity(ExplicitComponent(packageName, activityName, extras), LAUNCH_FLAGS, displayId);
      r := Pass;
    }

    /** `getCurrentApp`: the foreground package of this session's display. */
    function GetCurrentApp(): (r: Result<string>)
      reads this, executor
      ensures r.Err? <==> destroyed
      ensures r.Err? ==> r.error == SessionDestroyed
      ensures r.Ok? ==> r.value == executor.GetCurrentForegroundApp(displayId)
    {
      if destroyed then Err(SessionDestroyed) else Ok(executor.GetCurrentForegroundApp(displayId))
    }

    method KillApp(packageName: string) returns (r: Outcome)
      modifies executor
      ensures r.Fail? <==> destroyed
      ensures destroyed ==> r.error == SessionDestroyed && unchanged(executor)
      ensures !destroyed ==> executor.settings == old(executor.settings)
      ensures !destroyed ==> executor.calls == old(executor.calls) + [ForceStopPackage(packageName)]
    {
      if destroyed {
        return Fail(SessionDestroyed);
      }
      executor.ForceStopApp(packageName);
      r := Pass;
    }

    // ------------------------------------------------------------ system pass-throughs (no lifecycle check)

    method InstallApk(apkPath: string) returns (r: Result<bool>)
      modifies executor
      ensures executor.settings == old(executor.settings)
      ensures apkPath !in executor.apkFiles ==> r == Err(ApkNotFound) && executor.calls == old(executor.calls)
      ensures apkPath in executor.apkFiles ==> r == Ok(true) && executor.calls == old(executor.calls) + [InstallPackage(apkPath)]
    {
      r := executor.InstallApk(apkPath);
    }

    method UninstallApp(packageName: string) returns (r: bool)
      modifies executor
      ensures executor.settings == old(executor.settings) && r
      ensures executor.calls == old(executor.calls) + [UninstallPackage(packageName)]
    {
      r := executor.UninstallApp(packageName);
    }

    method GrantPermission(packageName: string, permission: string)
      modifies executor
      ensures executor.settings == old(executor.settings)
      ensures executor.calls == old(executor.calls) + [GrantRuntimePermission(packageName, permission)]
    {
      executor.GrantPermission(packageName, permission);
    }

    method RevokePermission(packageName: string, permission: string)
      modifies executor
      ensures executor.settings == old(executor.settings)
      ensures executor.calls == old(executor.calls) + [RevokeRuntimePermission(packageName, permission)]
    {
      executor.RevokePermission(packageName, permission);
    }

    method SetSystemSetting(namespace: string, key: string, value: string) returns (r: Outcome)
      modifies executor
      ensures executor.calls == old(executor.calls)
      ensures r.Fail? <==> ParseNamespace(namespace).None?
      ensures r.Fail? ==> r.error == UnknownNamespace && executor.settings == old(executor.settings)
      ensures r.Pass? ==> executor.settings == old(executor.settings).Put(ParseNamespace(namespace).value, key, value)
    {
      r := executor.SetSystemSetting(namespace, key, value);
    }

    function GetSystemSetting(namespace: string, key: string): (r: Result<Option<string>>)
      reads executor
      ensures r.Err? <==> ParseNamespace(namespace).None?
      ensures r.Ok? ==> r.value == executor.settings.Get(ParseNamespace(namespace).value, key)
    {
      executor.GetSystemSetting(namespace, key)
    }

    // ------------------------------------------------------------ lifecycle

    /**
     * `destroy`: the first call marks the session destroyed, closes the
     * reader and releases the display, and fails only if the release
     * throws; any later call returns at once and touches nothing.
     */
    method Destroy() returns (r: Outcome)
      modifies this, imageReader, virtualDisplay
      ensures destroyed && (old(Valid()) ==> Valid())
      ensures old(destroyed) ==> r == Pass
      ensures old(destroyed) && imageReader != null ==> unchanged(imageReader)
      ensures old(destroyed) && virtualDisplay != null ==> unchanged(virtualDisplay)
      ensures !old(destroyed) && imageReader != null ==> imageReader.closeCalls == old(imageReader.closeCalls) + 1
      ensures !old(destroyed) && virtualDisplay != null ==> virtualDisplay.releaseCalls == old(virtualDisplay.releaseCalls) + 1
      ensures !old(destroyed) && virtualDisplay != null ==>
        r == (if virtualDisplay.releaseThrows then Fail(DisplayReleaseFailed) else Pass)
      ensures virtualDisplay == null ==> r == Pass
      ensures imageReader != null ==> imageReader.latest == old(imageReader.latest)
    {
      if destroyed {
        return Pass;
      }
      destroyed := true;
      if imageReader != null {
        imageReader.Close();
      }
      r := Pass;
      if virtualDisplay != null {
        r := virtualDisplay.Release();
      }
    }
  }

  /** Destroying twice closes the reader and releases the display once, as destroying once does. */
  method DestroyTwice(s: Session) returns (first: Outcome, second: Outcome)
    requires s.Valid() && !s.destroyed && s.IsHeadless()
    modifies s, s.imageReader, s.virtualDisplay
    ensures s.destroyed && s.imageReader.closeCalls == 1 && s.virtualDisplay.releaseCalls == 1
    ensures second == Pass
  {
    first := s.Destroy();
    second := s.Destroy();
  }
}
