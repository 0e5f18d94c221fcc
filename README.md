# AGI Android OS session engine, modelled in Dafny

This project models the session orchestration core of the AGI Android OS
system service. The core gives automation agents sessions on the device,
each on its own headless virtual display or on the physical display. The
model covers the parts of that core that can be described by contracts once
the Android platform is replaced by small stand-in objects:

- `SessionManager`: the registry of live sessions, the physical-display
  slot, and the capacity of ten.
- `Session`: the one-way lifecycle from active to destroyed, the guarded
  operations, and an idempotent `destroy`.
- `InputInjector`: taps, long presses, double taps, drags, key presses and
  text, as events appended to a log, with a monotone clock.
- `ScreenCapturer.captureVirtualDisplayRaw`: the row-padding strip from a
  strided buffer into a packed `width * height * 4` array.
- `SessionConfig`: the data class defaults and its four-`Int` Parcel
  encoding.
- `SystemExecutor`: the case-insensitive settings-namespace dispatch, the
  settings tables it writes, and the timeout and output-format rules of
  `executeShell`.
- `AgentOS.executeShell` in the SDK: the client-side parse of that output,
  and `ShellResult.isSuccess` / `ShellResult.output`.

Modules, one per source file plus three helpers:

| module | file | models |
|---|---|---|
| `Results` | results.dfy | `Option`, `Result`, `Outcome`, and the exceptions the core throws, as `Error` values |
| `Jvm` | jvm.dfy | 32- and 64-bit integers, `Long` wrap-around, Kotlin's truncating division, `Long.toInt()` |
| `KotlinText` | kotlin_text.dfy | `startsWith`, `indexOf`, `substringAfter/Before`, `Int.toString()`, `toIntOrNull()` (ASCII digits only), `lowercase()` |
| `Platform` | platform.dfy | stand-ins for `SystemClock`/`Thread.sleep`, `Image`, `ImageReader`, `VirtualDisplay`, the virtual-display allocator, activity launching |
| `SessionConfigs` | session_config.dfy | `SessionConfig.kt` |
| `SystemExecution` | system_executor.dfy | `SystemExecutor.kt` |
| `AgentOSShell` | agent_os.dfy | the `executeShell` parse and `ShellResult` in `AgentOS.kt` |
| `Input` | input_injector.dfy | `InputInjector.kt` |
| `ScreenCapture` | screen_capturer.dfy | `ScreenCapturer.kt` (raw capture) |
| `Sessions` | session.dfy | `Session.kt` |
| `SessionManagement` | session_manager.dfy | `SessionManager.kt` |

The form of each part follows its source:

- Session, SessionManager, InputInjector and SystemExecutor are classes with
  mutable fields. Their methods carry `modifies` clauses and state the whole
  new state.
- The manager's registry is also modelled as a value: a `Registry` and one
  transition function per operation. Each class method is proved to move
  its ghost `model` exactly as that function says. The properties of the
  functions are proved as lemmas: the invariant, capacity, idempotence, and
  that each operation leaves the other entries alone.
- The row-strip loop works in place on a zero-filled `array<bv8>`. It is
  proved against the function `CaptureRaw`.
- The drag and text loops are `while` loops. They are proved against the
  event-sequence functions `DragEvents` and `TextEvents`.
- SessionConfig and the shell-output format and parse are pure functions
  with round-trip lemmas.

What the platform supplies becomes a parameter or a field of a stand-in
object:

- the clock readings and how long a sleep lasts, known only as bounds;
- the random UUID, as a `freshId` argument that is not `"physical-0"` and
  not already registered;
- whether the platform refuses to create a display, and the id it assigns;
- whether a display's `release()` throws;
- the frame in the image reader;
- the screenshot from the primary display;
- the virtual keyboard's key-character map;
- how a shell process ends: when, with which exit value, and what it wrote;
- which APK files exist, which packages have a launcher activity, and the
  top task's package.

Two points where the code differs from a natural reading of its intent; the
model follows the code:

- `createSession` checks the capacity before anything else, so a physical
  session is refused at ten sessions too.
- `controlPrimaryDisplay` has no capacity check at all. With ten headless
  sessions registered, it still adds the physical one, and the map then
  holds eleven. The model proves exactly this bound: at most ten headless
  sessions, at most eleven in all (`ReachableWithinCapacity`,
  `ControlPrimaryIgnoresCapacity`). It does not claim that the map never
  exceeds ten.

`lowercase()` is modelled on the letters A to Z only. The only non-ASCII
characters whose lowercase contains an ASCII letter are U+212A (KELVIN SIGN
to `k`) and U+0130 (to `i` plus a dot). `system`, `secure` and `global`
contain no `k`, and U+0130 lowercases to two characters. So neither can
make a name match a namespace, and the dispatch is the same.

## Model

| member | source | states |
|---|---|---|
| SessionManagement.CreateAtCapacityFails | system-service/src/com/agi/os/session/SessionManager.kt:44-47 | with ten or more sessions registered, `createSession` fails with the capacity error for headless and physical configs alike, and the registry is unchanged |
| SessionManagement.CreatePhysical | system-service/src/com/agi/os/session/SessionManager.kt:58-75 | below capacity, a physical `createSession` fails exactly when the slot is held, with the busy error; otherwise it takes the slot with "physical-0" on display 0 and adds exactly that one entry |
| SessionManagement.CreateHeadlessAddsOne | system-service/src/com/agi/os/session/SessionManager.kt:49-57 | a headless `createSession` below capacity returns the fresh id, registers it as headless on the new display, leaves every other entry and the slot alone, and grows the map by one |
| SessionManagement.CreateHeadlessWithoutDisplay | system-service/src/com/agi/os/session/SessionManager.kt:49-57 | when the platform rejects or refuses the display, a headless `createSession` fails with the platform's error |
| SessionManagement.ControlPrimaryIdempotent | system-service/src/com/agi/os/session/SessionManager.kt:114-132 | a second `controlPrimaryDisplay` returns the same "physical-0" session and changes neither map nor slot |
| SessionManagement.ControlPrimaryIgnoresCapacity | system-service/src/com/agi/os/session/SessionManager.kt:114-132 | with ten sessions and an empty slot, `controlPrimaryDisplay` still adds the physical one: the map reaches eleven |
| SessionManagement.DestroyAbsent | system-service/src/com/agi/os/session/SessionManager.kt:98-99 | `destroySession` of an unknown id leaves the registry as it is |
| SessionManagement.DestroyPresent | system-service/src/com/agi/os/session/SessionManager.kt:98-109 | destroying a registered id removes that id only, clears the slot only when it names that id, and a second destroy changes nothing more |
| SessionManagement.ReleasePrimaryEffect | system-service/src/com/agi/os/session/SessionManager.kt:137-145 | `releasePrimaryDisplay` with an empty slot changes nothing; otherwise "physical-0" and the slot are gone and every other entry is as it was |
| SessionManagement.ReleaseIsDestroyOfSlot | system-service/src/com/agi/os/session/SessionManager.kt:137-145 | under the invariant, releasing the primary display is the same transition as destroying "physical-0" |
| SessionManagement.DestroyMakesRoom | system-service/src/com/agi/os/session/SessionManager.kt:44-47 | at capacity, destroying any registered session lets the next headless `createSession` succeed |
| SessionManagement.CreateKeepsInv | system-service/src/com/agi/os/session/SessionManager.kt:44-79 | a successful create with a fresh id keeps the invariant: the slot is set exactly when "physical-0" is registered and names it, only "physical-0" is not headless, and at most ten sessions are headless |
| SessionManagement.ControlPrimaryKeepsInv | system-service/src/com/agi/os/session/SessionManager.kt:114-132 | `controlPrimaryDisplay` keeps the invariant |
| SessionManagement.DestroyKeepsInv | system-service/src/com/agi/os/session/SessionManager.kt:98-109 | `destroySession` keeps the invariant |
| SessionManagement.ReleasePrimaryKeepsInv | system-service/src/com/agi/os/session/SessionManager.kt:137-145 | `releasePrimaryDisplay` keeps the invariant |
| SessionManagement.ShutdownKeepsInv | system-service/src/com/agi/os/session/SessionManager.kt:164-175 | the registry `shutdown` leaves behind satisfies the invariant |
| SessionManagement.AtMostOnePhysical | system-service/src/com/agi/os/session/SessionManager.kt:24-25 | under the invariant, any two registered sessions that are not headless are both "physical-0", and the slot names it |
| SessionManagement.RegistrySize | system-service/src/com/agi/os/session/SessionManager.kt:21-25 | under the invariant the registry holds at most eleven sessions |
| SessionManagement.ApplyKeepsInv | system-service/src/com/agi/os/session/SessionManager.kt:44-175 | every manager operation, given a fresh UUID, keeps the invariant |
| SessionManagement.RunKeepsInv | system-service/src/com/agi/os/session/SessionManager.kt:44-175 | any sequence of manager operations with fresh UUIDs keeps the invariant |
| SessionManagement.ReachableWithinCapacity | system-service/src/com/agi/os/session/SessionManager.kt:44-132 | from the empty manager, every reachable registry satisfies the invariant, has at most ten headless sessions, and holds at most eleven in all |
| SessionManagement.DestroyMember | system-service/src/com/agi/os/session/SessionManager.kt:166-171 | one step of the shutdown loop: destroys the chosen session, fails exactly when that session's display throws on release, and the other sessions keep their lifecycle state |
| SessionManagement.DestroyAll | system-service/src/com/agi/os/session/SessionManager.kt:164-172 | every session of the map ends destroyed, going on past failing destroys; the count returned is the number of headless sessions whose release throws |
| SessionManagement.SessionManager.constructor | system-service/src/com/agi/os/session/SessionManager.kt:17-32 | a new manager has no sessions, an empty slot and its subsystems |
| SessionManagement.SessionManager.CreateSession | system-service/src/com/agi/os/session/SessionManager.kt:44-79 | the map, slot and model move as `Create` says: on failure nothing changes; on success the fresh session is stored under its id, and a physical session gets the primary display's mode |
| SessionManagement.SessionManager.Open | system-service/src/com/agi/os/session/SessionManager.kt:49-73 | the session `createSession` builds: a headless one on a new display under the fresh id, or "physical-0"; fails with the allocator's error for the config's size (non-positive size, or refused) or when the slot is held |
| SessionManagement.SessionManager.Register | system-service/src/com/agi/os/session/SessionManager.kt:70-75 | stores a live session under its id, in the slot too when asked, and records it in the model |
| SessionManagement.SessionManager.Unregister | system-service/src/com/agi/os/session/SessionManager.kt:99-105 | removes the id from the map, frees the slot if it held that session, and returns the live session removed |
| SessionManagement.SessionManager.GetSession | system-service/src/com/agi/os/session/SessionManager.kt:84-86 | null exactly when the id is not registered; otherwise the live session with that id, headless flag and display |
| SessionManagement.SessionManager.ListSessionIds | system-service/src/com/agi/os/session/SessionManager.kt:91-93 | every registered id, each exactly once |
| SessionManagement.SessionManager.DestroySession | system-service/src/com/agi/os/session/SessionManager.kt:98-109 | an unknown id passes and changes nothing; a known one is removed, leaves the slot if it held it, and is destroyed; the call fails exactly when its display throws on release |
| SessionManagement.SessionManager.ControlPrimaryDisplay | system-service/src/com/agi/os/session/SessionManager.kt:114-132 | returns the slot's session when held, changing nothing; otherwise a new physical session, put in the slot and in the map |
| SessionManagement.SessionManager.ReleasePrimaryDisplay | system-service/src/com/agi/os/session/SessionManager.kt:137-145 | with a held slot, its session is destroyed and removed and the slot cleared (that destroy cannot fail, since the slot's session owns no display); with an empty slot nothing changes |
| SessionManagement.SessionManager.Shutdown | system-service/src/com/agi/os/session/SessionManager.kt:164-175 | every session registered before is destroyed, the map is empty, the slot is null, and the failures counted are exactly the releases that throw |
| Sessions.Session.constructor | system-service/src/com/agi/os/session/Session.kt:31-43 | a new session holds its id, display, config and delegates, and is not destroyed |
| Sessions.Session.CreateHeadless | system-service/src/com/agi/os/session/Session.kt:49-78 | fails exactly when the allocator does for the config's size, with its error (the size error for a non-positive width, height or density, else the creation error when the platform refuses); otherwise a new headless session under the fresh id, with the config as given, the new display's id, and a reader of the config's size |
| Sessions.Session.CreatePhysical | system-service/src/com/agi/os/session/Session.kt:83-111 | the session "physical-0" on display 0, not headless, sized by the primary display's mode and density |
| Sessions.Session.CaptureScreenRaw | system-service/src/com/agi/os/session/Session.kt:131-138 | destroyed: fails before touching the reader; headless: the reader path (no frame is an error, the frame is closed); otherwise the physical path |
| Sessions.Session.GetScreenSize | system-service/src/com/agi/os/session/Session.kt:140-142 | the configured width and height, destroyed or not |
| Sessions.Session.Click | system-service/src/com/agi/os/session/Session.kt:146-149 | fails exactly when destroyed, with nothing injected; otherwise one tap on this session's display |
| Sessions.Session.LongPress | system-service/src/com/agi/os/session/Session.kt:151-154 | destroyed: fails with nothing injected; otherwise a press held for the duration on this display, failing after the DOWN when the duration is negative |
| Sessions.Session.DoubleClick | system-service/src/com/agi/os/session/Session.kt:156-159 | fails exactly when destroyed; otherwise a double tap on this display |
| Sessions.Session.Drag | system-service/src/com/agi/os/session/Session.kt:161-164 | destroyed: fails with nothing injected; otherwise the whole drag on this display, succeeding exactly when its sleeps can be carried out |
| Sessions.Session.Type | system-service/src/com/agi/os/session/Session.kt:166-169 | fails exactly when destroyed; otherwise the text's key events on this display, stamped as the key map gives them; the model's clock is not read |
| Sessions.Session.PressKey | system-service/src/com/agi/os/session/Session.kt:171-174 | fails exactly when destroyed; otherwise a DOWN/UP pair of the key on this display |
| Sessions.Session.PressHome | system-service/src/com/agi/os/session/Session.kt:176 | `pressKey` with key code 3 |
| Sessions.Session.PressBack | system-service/src/com/agi/os/session/Session.kt:177 | `pressKey` with key code 4 |
| Sessions.Session.PressRecents | system-service/src/com/agi/os/session/Session.kt:178 | `pressKey` with key code 187 (app switch) |
| Sessions.Session.PressPower | system-service/src/com/agi/os/session/Session.kt:179 | `pressKey` with key code 26 |
| Sessions.Session.PressVolumeUp | system-service/src/com/agi/os/session/Session.kt:180 | `pressKey` with key code 24 |
| Sessions.Session.PressVolumeDown | system-service/src/com/agi/os/session/Session.kt:181 | `pressKey` with key code 25 |
| Sessions.Session.LaunchApp | system-service/src/com/agi/os/session/Session.kt:185-198 | destroyed: fails, nothing started; a package without a launch intent fails with nothing started; otherwise its launch intent starts in a new cleared task on this display |
| Sessions.Session.LaunchActivity | system-service/src/com/agi/os/session/Session.kt:200-212 | fails exactly when destroyed; otherwise the explicit component, with its extras, starts in a new cleared task on this display |
| Sessions.Session.GetCurrentApp | system-service/src/com/agi/os/session/Session.kt:214-219 | fails exactly when destroyed; otherwise the executor's foreground app for this display |
| Sessions.Session.KillApp | system-service/src/com/agi/os/session/Session.kt:221-224 | fails exactly when destroyed, delegating nothing; otherwise one force-stop request for the package |
| Sessions.Session.InstallApk | system-service/src/com/agi/os/session/Session.kt:228-230 | delegated without a lifecycle check: a missing file fails, otherwise one install request and true |
| Sessions.Session.UninstallApp | system-service/src/com/agi/os/session/Session.kt:232-234 | delegated without a lifecycle check: one uninstall request, and true |
| Sessions.Session.GrantPermission | system-service/src/com/agi/os/session/Session.kt:236-238 | delegated without a lifecycle check: one grant request |
| Sessions.Session.RevokePermission | system-service/src/com/agi/os/session/Session.kt:240-242 | delegated without a lifecycle check: one revoke request |
| Sessions.Session.SetSystemSetting | system-service/src/com/agi/os/session/Session.kt:244-246 | delegated without a lifecycle check: an unknown namespace fails with the tables unchanged; otherwise exactly one key of one table is written |
| Sessions.Session.GetSystemSetting | system-service/src/com/agi/os/session/Session.kt:248-250 | delegated without a lifecycle check: an unknown namespace fails; otherwise the table's value, or null for an absent key |
| Sessions.Session.Destroy | system-service/src/com/agi/os/session/Session.kt:254-260 | the session ends destroyed; the first call closes the reader and releases the display once each and fails only if the release throws; a later call passes and touches neither |
| Sessions.DestroyTwice | system-service/src/com/agi/os/session/Session.kt:254-260 | destroying twice leaves the reader closed once and the display released once; the second call passes |
| Input.InputInjector.InjectEvent | system-service/src/com/agi/os/input/InputInjector.kt:277-290 | the event is appended to the injected log |
| Input.InputInjector.InjectTap | system-service/src/com/agi/os/input/InputInjector.kt:48-67 | appends one press at (x, y): DOWN then UP sharing the DOWN's time as down time, both within the call's clock interval, with no sleep |
| Input.InputInjector.InjectLongPress | system-service/src/com/agi/os/input/InputInjector.kt:72-94 | succeeds exactly when the duration is not negative, then a press whose UP is at least the duration after the DOWN; a negative duration leaves only the DOWN |
| Input.InputInjector.InjectDoubleTap | system-service/src/com/agi/os/input/InputInjector.kt:99-103 | two presses at (x, y) with one 100 ms sleep between them |
| Input.InputInjector.InjectKeyEvent | system-service/src/com/agi/os/input/InputInjector.kt:158-179 | a DOWN and an UP of the key code, from the virtual keyboard with the system flag, sharing the first reading as down time |
| Input.InputInjector.InjectText | system-service/src/com/agi/os/input/InputInjector.kt:184-188 | appends exactly `TextEvents` of the text: each character's events in order |
| Input.InputInjector.InjectCharacter | system-service/src/com/agi/os/input/InputInjector.kt:193-212 | appends the key map's events for the character, on this display with the system flag added, or nothing when it has no mapping |
| Input.InputInjector.InjectDrag | system-service/src/com/agi/os/input/InputInjector.kt:108-153 | succeeds exactly when the sleeps can be carried out; then it logs the whole drag, with steps - 1 sleeps of the step delay; otherwise only the DOWN and the first MOVE |
| Input.InputInjector.InjectMoves | system-service/src/com/agi/os/input/InputInjector.kt:127-143 | the MOVE loop: all `steps` MOVEs and steps - 1 sleeps when it succeeds, otherwise only MOVE 1 |
| Input.PressIsGesture | system-service/src/com/agi/os/input/InputInjector.kt:48-67 | a logged press is a DOWN then an UP at one point, sharing one down time, on its display |
| Input.DoubleTapShape | system-service/src/com/agi/os/input/InputInjector.kt:99-103 | a double tap is two gestures at one point, times in order, with at least 100 ms between the first UP and the second DOWN |
| Input.KeyPressPairs | system-service/src/com/agi/os/input/InputInjector.kt:158-179 | a key press is DOWN then UP with the same key code and the same down time, on its display |
| Input.TextEventsConcat | system-service/src/com/agi/os/input/InputInjector.kt:184-188 | text is processed in order: the events of `a + b` are those of `a` followed by those of `b` |
| Input.UnmappedCharacterSkipped | system-service/src/com/agi/os/input/InputInjector.kt:193-212 | a character with no key mapping adds no event and does not stop the rest |
| Input.TextEventsOnDisplay | system-service/src/com/agi/os/input/InputInjector.kt:193-212 | every event of typed text is a key event on the session's display with the system flag set |
| Input.Steps | system-service/src/com/agi/os/input/InputInjector.kt:115 | the step count is at least 1 |
| Input.StepsWithoutWrap | system-service/src/com/agi/os/input/InputInjector.kt:115-116 | where `toInt` does not wrap, the step count is max(1, durationMs / 15) |
| Input.DragShape | system-service/src/com/agi/os/input/InputInjector.kt:118-152 | a drag is steps + 2 events on its display: DOWN at the start, `steps` MOVEs, UP at the end |
| Input.DragLastMoveAtEnd | system-service/src/com/agi/os/input/InputInjector.kt:127-130 | over the reals, the last MOVE lies exactly on the end point |
| Input.DragMoveTimes | system-service/src/com/agi/os/input/InputInjector.kt:131 | for a duration that is not negative and a DOWN time with room for it below `Long.MAX_VALUE`, MOVE stamps never decrease, none precedes the DOWN, and the last is at most downTime + durationMs |
| Input.DragStampWraps | system-service/src/com/agi/os/input/InputInjector.kt:114-131 | the largest duration gives one step with the whole duration as its delay, so a DOWN at 1 ms stamps the MOVE `Long.MIN_VALUE`, before the DOWN |
| Input.DragSleepsSucceedWithoutWrap | system-service/src/com/agi/os/input/InputInjector.kt:115-142 | no drag shorter than 15 * 2^31 ms either way fails on a sleep |
| Input.DragWrapsToNegativeDelay | system-service/src/com/agi/os/input/InputInjector.kt:115-142 | a huge negative duration wraps to five steps with a negative delay, so the drag's first sleep throws |
| Input.DefaultDrag | system-service/src/com/agi/os/input/InputInjector.kt:108-131 | 300 ms gives 20 steps of 15 ms; a drag from (0, 0) to (100, 0) ends its MOVEs at (100, 0), stamped 300 ms after the DOWN as a `Long` |
| Input.DragUpMayPrecedeLastMove | system-service/src/com/agi/os/input/InputInjector.kt:131-152 | only steps - 1 sleeps precede the UP, so a valid 300 ms drag whose DOWN is at least 300 ms below `Long.MAX_VALUE` can stamp its UP before its last MOVE |
| Jvm.ToInt | system-service/src/com/agi/os/input/InputInjector.kt:115 | `Long.toInt()` keeps values in `Int` range and otherwise agrees with them modulo 2^32 |
| ScreenCapture.ScreenCapturer.CaptureVirtualDisplayRaw | system-service/src/com/agi/os/screen/ScreenCapturer.kt:39-72 | no frame: fails with the no-image error; otherwise the result is `CaptureRaw` of the frame, and the frame is closed whether or not the copy throws |
| ScreenCapture.StripPadding | system-service/src/com/agi/os/screen/ScreenCapturer.kt:48-67 | the body of the `try` computes exactly `CaptureRaw` |
| ScreenCapture.CopyRows | system-service/src/com/agi/os/screen/ScreenCapturer.kt:57-67 | the row loop over the zero-filled output gives the first failing row's error, or the unpadded rows followed by the zeros never written |
| ScreenCapture.BufferGet | system-service/src/com/agi/os/screen/ScreenCapturer.kt:63-64 | `position` then `get`: the bytes at the position land at the offset, and the rest of the output is unchanged |
| ScreenCapture.NoPaddingCopiesBuffer | system-service/src/com/agi/os/screen/ScreenCapturer.kt:48-54 | without row padding the output is exactly the buffer's remaining bytes |
| ScreenCapture.CaptureSucceedsIff | system-service/src/com/agi/os/screen/ScreenCapturer.kt:57-67 | with padding, the strip succeeds exactly when the last row lies inside the buffer and no pixel has more than four bytes |
| ScreenCapture.PaddedCaptureIs | system-service/src/com/agi/os/screen/ScreenCapturer.kt:57-67 | with padding, a successful strip is `width * height * 4` bytes: the unpadded rows, `height * width * pixelStride` bytes, then zeros |
| ScreenCapture.UnpaddedAt | system-service/src/com/agi/os/screen/ScreenCapturer.kt:62-66 | output byte `r * width * pixelStride + j` is buffer byte `r * rowStride + j`: padding never reaches the output |
| ScreenCapture.UnpaddedLength | system-service/src/com/agi/os/screen/ScreenCapturer.kt:60-66 | the rows copied occupy exactly `height * width * pixelStride` output bytes, the final `outputOffset` |
| ScreenCapture.NoFailureIffAllFit | system-service/src/com/agi/os/screen/ScreenCapturer.kt:62-66 | no row from `row` on throws exactly when each of them fits both the buffer and the output |
| ScreenCapture.FourBytePixelsFillOutput | system-service/src/com/agi/os/screen/ScreenCapturer.kt:59-66 | with four-byte pixels the copied rows are the whole output: no byte is left unwritten |
| ScreenCapture.PaddedExample | system-service/src/com/agi/os/screen/ScreenCapturer.kt:48-67 | a 2x2 frame with four padding bytes per row loses exactly those bytes |
| Platform.VirtualDisplayManager.CreateVirtualDisplay | system-service/src/com/agi/os/display/VirtualDisplayManager.kt:39-69 | a new display with the next id and a new reader of the requested size with two frames in flight, or the size error for a non-positive width, height or density, or else the creation error when the platform refuses |
| SessionConfigs.Defaults | aidl/com/agi/os/SessionConfig.kt:15-31 | the defaults are 1080 x 1920 at 420 dpi, headless |
| SessionConfigs.WriteToParcel | aidl/com/agi/os/SessionConfig.kt:41-46 | appends exactly four `Int`s and leaves what was written before untouched |
| SessionConfigs.ReadAfterWrite | aidl/com/agi/os/SessionConfig.kt:34-46 | reading back what `writeToParcel` wrote gives the same config and consumes four `Int`s |
| SessionConfigs.WriteAfterRead | aidl/com/agi/os/SessionConfig.kt:34-46 | writing what was read reproduces the four `Int`s exactly when the fourth is 0 or 1 |
| SessionConfigs.ShortParcel | aidl/com/agi/os/SessionConfig.kt:34-39 | a parcel with only three `Int`s reads the missing flag as 0, so as not headless |
| SystemExecution.ParseNamespaceIgnoresCase | system-service/src/com/agi/os/session/SystemExecutor.kt:162-166 | a namespace is accepted exactly when it spells system, secure or global in any case, and then names that namespace |
| SystemExecution.SettingsTables.Put | system-service/src/com/agi/os/session/SystemExecutor.kt:163-165 | a write sets the key in its namespace's table and leaves the other two tables unchanged |
| SystemExecution.GetAfterSet | system-service/src/com/agi/os/session/SystemExecutor.kt:159-180 | reading a key right after writing it, through any spelling of the same namespace, gives the value written |
| SystemExecution.SetTouchesOneEntry | system-service/src/com/agi/os/session/SystemExecutor.kt:159-168 | a write changes no other key and no other namespace |
| SystemExecution.SetThenGet | system-service/src/com/agi/os/session/SystemExecutor.kt:159-180 | on the executor, set then get of an accepted namespace returns the value; an unknown namespace fails |
| SystemExecution.SystemExecutor.SetSystemSetting | system-service/src/com/agi/os/session/SystemExecutor.kt:159-168 | an unknown namespace fails with the tables unchanged; otherwise the one key of that namespace is written |
| SystemExecution.SystemExecutor.ExecuteShell | system-service/src/com/agi/os/session/SystemExecutor.kt:188-210 | a process still running after 30 s is destroyed forcibly and the call fails without output; otherwise the result is the formatted output |
| SystemExecution.SystemExecutor.InstallApk | system-service/src/com/agi/os/session/SystemExecutor.kt:52-93 | a missing APK file fails before anything is requested; otherwise one install request, and true |
| SystemExecution.SystemExecutor.UninstallApp | system-service/src/com/agi/os/session/SystemExecutor.kt:98-109 | one uninstall request, and true |
| SystemExecution.SystemExecutor.GrantPermission | system-service/src/com/agi/os/session/SystemExecutor.kt:116-132 | one grant request for the package and permission |
| SystemExecution.SystemExecutor.RevokePermission | system-service/src/com/agi/os/session/SystemExecutor.kt:137-151 | one revoke request for the package and permission |
| SystemExecution.SystemExecutor.ForceStopApp | system-service/src/com/agi/os/session/SystemExecutor.kt:217-231 | one force-stop request for the package |
| AgentOSShell.ParseErrorOutput | sdk/src/com/agi/os/sdk/AgentOS.kt:185-187 | error-prefixed output: the exit code is the `Int` between "exit " and the first ")", or 1; stdout is empty; stderr follows the first "): " |
| AgentOSShell.ParsePlainOutput | sdk/src/com/agi/os/sdk/AgentOS.kt:188-189 | any other output is exit code 0 with the whole string as stdout, which is a success whose `output` is that string |
| AgentOSShell.ParseErrorLine | sdk/src/com/agi/os/sdk/AgentOS.kt:185-187 | an error line whose exit field has only digits and minus signs parses to that number (or 1), no stdout, and the rest as stderr |
| AgentOSShell.ParseFormattedFailure | sdk/src/com/agi/os/sdk/AgentOS.kt:185-187 | round trip with the service's format: a failing command with stderr comes back with its exit value, empty stdout, and stderr + "\n" + stdout, and is not a success |
| AgentOSShell.ParseFormattedOther | sdk/src/com/agi/os/sdk/AgentOS.kt:188-189 | every other formatted output not itself starting with the error prefix comes back as exit code 0 with stdout + stderr |
| AgentOSShell.SilentFailureReadsAsSuccess | sdk/src/com/agi/os/sdk/AgentOS.kt:185-189 | a failing command that wrote nothing to stderr reads as a success: the format drops its exit value |

## Left out

- Concurrency: `ConcurrentHashMap`, `synchronized`, `@Volatile`, and the
  race between the unlocked capacity check and the insert in
  `createSession`. Every call is modelled as sequential.
- Float coordinates: coordinates and interpolation are reals, so the model
  makes no claim about bit-exact float results.
- The Bitmap, PNG and JPEG capture paths (`captureScreen`,
  `captureVirtualDisplay`, `capturePhysicalDisplay`,
  `capturePhysicalDisplayBitmap`): they depend on library pixel semantics.
  The physical raw capture (`capturePhysicalDisplayRaw`) is part of the
  platform stand-in: it gives the stand-in's frame of the primary display,
  or a failure, and nothing beyond that is proved about it.
- Reflection on hidden platform APIs (`injectInputEvent`, `setDisplayId`,
  `setLaunchDisplayId`, `SurfaceControl.screenshot`,
  `grantRuntimePermission`, `forceStopPackage`): these are foreign calls.
  Their effects are recorded as events, launches or requests.
- The shell fallbacks taken when that reflection fails (`pm grant`,
  `pm revoke`, `am force-stop`), and the `dumpsys` regex fallback of
  `getCurrentForegroundApp`: these are OS delegation.
- What the OS does with a request: the APK install session (write, fsync,
  commit, abandon), uninstalling, running the shell process, reading its
  streams. The streams' contents are inputs of `ExecuteShell`.
- `getInstalledPackages`, `getActiveNotifications` and `listDisplays`: they
  only query the OS.
- The service and IPC layers: binder, the SDK's session wrappers,
  `RemoteException` handling, the `AgentOS` singleton and service lookup,
  service bootstrap and boot hooks. Also the build script.
- Logging (`Slog`): `shutdown` returns the number of failed destroys instead
  of logging each one.
- `SessionManagement.SessionManager.CreateSession`: the capacity bound of ten
  headless sessions is not part of the manager's class invariant. That
  invariant keeps only the registry's shape (slot and physical session).
  The bound is proved on the registry value instead: the `*KeepsInv`
  lemmas and `ReachableWithinCapacity`.
- `SessionManagement.SessionManager.Shutdown`: it destroys the sessions "in
  no particular order", as iteration over a concurrent map's values
  promises; the order in which the releases happen is not stated.
- `Sessions.Session.Destroy`: `ImageReader.close()` is taken never to throw;
  only `VirtualDisplay.release()` may.
- The model does not prove that different sessions own different readers and
  displays. The manager's invariant does not carry each session's own
  `Valid()`.
- `Platform.VirtualDisplayManager.CreateVirtualDisplay`: when the platform
  refuses the display, or rejects a non-positive density, the reader just
  created is not closed in the code; the stand-in does not model that leak.
  Which of the library's own checks throws first is not modelled either:
  any non-positive width, height or density gives the one size error.
- `Input.InputInjector.InjectCharacter`: the re-issued event's input source
  (`SOURCE_KEYBOARD`) is not modelled; only its flags and display are. The
  key map is a fixed function, so the time stamps `getEvents` takes from the
  uptime at each lookup are whatever the map gives, the same on every call,
  and the model's clock is not read while typing.
- `Input.InputInjector.InjectText`: the text is a sequence of Unicode scalar
  values, while Kotlin walks its UTF-16 code units. A character outside the
  Basic Multilingual Plane is one lookup here and two surrogate lookups
  there. The two agree when the key map maps neither such characters nor
  lone surrogates.
- `Input.DragMoveTimes`: the ordering of MOVE stamps is proved only where
  downTime + durationMs fits in a `Long`. Beyond it the stamps wrap, and
  `DragStampWraps` gives a drag whose only MOVE precedes its DOWN.
- `AgentOSShell.ParseErrorOutput`: only the ASCII digits `0` to `9` count as
  digits. Kotlin's `toIntOrNull` also reads the other Unicode decimal digits,
  so "ERROR (exit ٣): boom", with U+0663 ARABIC-INDIC DIGIT THREE, gives
  exit code 3 there and 1 here.
- The clock is an oracle: the model knows readings never decrease and a sleep
  lasts at least as long as asked, but not how long output or injection
  takes. Its readings are unbounded integers rather than `Long`s; the MOVE
  stamps computed from them do wrap as `Long`s.
- The UUID generator is a parameter: the caller supplies a fresh id that is
  neither "physical-0" nor already registered.
