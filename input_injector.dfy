/**
 * InputInjector: synthesises touch gestures and key presses on one display.
 * Every event handed to `InputManager.injectInputEvent` is appended to
 * `log`; times come from the platform clock (a reading never runs
 * backwards, a sleep lasts at least as long as asked). Coordinates are
 * reals, so interpolation is exact rather than in `Float`.
 */
module Input {
  import opened Results
  import opened Jvm
  import opened Platform

  const DEFAULT_LONG_PRESS_MS: int64 := 500
  const DEFAULT_DOUBLE_TAP_DELAY_MS: int64 := 100
  const DRAG_STEP_INTERVAL_MS: int64 := 15
  const FLAG_FROM_SYSTEM: bv32 := 0x8
  const VIRTUAL_KEYBOARD: int32 := -1

  datatype MotionAction = ActionDown | ActionMove | ActionUp
  datatype KeyAction = KeyDown | KeyUp

  datatype MotionEvent = MotionEvent(action: MotionAction, downTime: int, eventTime: int, x: real, y: real, displayId: int32)

  datatype KeyEvent = KeyEvent(
    action: KeyAction, keyCode: int32, downTime: int, eventTime: int,
    repeatCount: int32, metaState: int32, deviceId: int32, scanCode: int32,
    flags: bv32, displayId: int32)

  datatype InputEvent = Touch(motion: MotionEvent) | Key(key: KeyEvent)
  {
    function DownTime(): int {
      match this
      case Touch(m) => m.downTime
      case Key(k) => k.downTime
    }

    function EventTime(): int {
      match this
      case Touch(m) => m.eventTime
      case Key(k) => k.eventTime
    }

    function DisplayId(): int32 {
      match this
      case Touch(m) => m.displayId
      case Key(k) => k.displayId
    }
  }

  /** The key events the virtual keyboard's map gives for one character; None when it has none. */
  type KeyCharacterMap = char -> Option<seq<KeyEvent>>

  function TouchEvent(action: MotionAction, downTime: int, eventTime: int, x: real, y: real, displayId: int32): InputEvent {
    Touch(MotionEvent(action, downTime, eventTime, x, y, displayId))
  }

  predicate OnDisplay(events: seq<InputEvent>, displayId: int32) {
    forall i :: 0 <= i < |events| ==> events[i].DisplayId() == displayId
  }

  /**
   * One touch gesture: a DOWN, then only MOVEs, then an UP, all carrying
   * the DOWN's time as their down time, none stamped before it.
   */
  predicate IsGesture(events: seq<InputEvent>) {
    |events| >= 2
    && events[0].Touch? && events[0].motion.action == ActionDown
    && events[|events| - 1].Touch? && events[|events| - 1].motion.action == ActionUp
    && (forall i :: 0 < i < |events| - 1 ==> events[i].Touch? && events[i].motion.action == ActionMove)
    && (forall i :: 0 <= i < |events| ==> events[i].DownTime() == events[0].EventTime() <= events[i].EventTime())
  }

  // ---------------------------------------------------------------- taps

  /** A DOWN and an UP at one point sharing one down time. */
  function TapEvents(displayId: int32, x: real, y: real, downTime: int, upTime: int): seq<InputEvent> {
    [TouchEvent(ActionDown, downTime, downTime, x, y, displayId),
     TouchEvent(ActionUp, downTime, upTime, x, y, displayId)]
  }

  /**
   * `events` is a press at (x, y): DOWN not before `t0`, UP not before the
   * DOWN plus `hold` and not after `t1`.
   */
  predicate IsPress(events: seq<InputEvent>, displayId: int32, x: real, y: real, t0: int, t1: int, hold: int) {
    |events| == 2
    && events == TapEvents(displayId, x, y, events[0].EventTime(), events[1].EventTime())
    && t0 <= events[0].EventTime() && events[0].EventTime() + hold <= events[1].EventTime() <= t1
  }

  /** `after` is `before` followed by one press. */
  predicate PressLogged(before: seq<InputEvent>, after: seq<InputEvent>, displayId: int32, x: real, y: real,
                        t0: int, t1: int, hold: int) {
    |after| == |before| + 2 && after[..|before|] == before
    && IsPress(after[|before|..], displayId, x, y, t0, t1, hold)
  }

  /** `after` is `before` followed by two taps, the second starting at least 100 ms after the first ends. */
  predicate DoubleTapLogged(before: seq<InputEvent>, after: seq<InputEvent>, displayId: int32, x: real, y: real,
                            t0: int, t1: int) {
    |after| == |before| + 4
    && PressLogged(before, after[..|before| + 2], displayId, x, y, t0, after[|before| + 1].EventTime(), 0)
    && PressLogged(after[..|before| + 2], after, displayId, x, y,
                   after[|before| + 1].EventTime() + DEFAULT_DOUBLE_TAP_DELAY_MS, t1, 0)
  }

  /** A logged press is a well-formed gesture on its display. */
  lemma PressIsGesture(before: seq<InputEvent>, after: seq<InputEvent>, displayId: int32, x: real, y: real,
                       t0: int, t1: int, hold: int)
    requires PressLogged(before, after, displayId, x, y, t0, t1, hold)
    requires hold >= 0
    ensures IsGesture(after[|before|..]) && OnDisplay(after[|before|..], displayId)
  {
  }

  /**
   * A double tap is DOWN, UP, DOWN, UP at one point, each tap keeping its
   * own down time, with the time stamps in order and at least 100 ms
   * between the first UP and the second DOWN.
   */
  lemma DoubleTapShape(before: seq<InputEvent>, after: seq<InputEvent>, displayId: int32, x: real, y: real,
                       t0: int, t1: int)
    requires DoubleTapLogged(before, after, displayId, x, y, t0, t1)
    ensures after[..|before|] == before
    ensures var e := after[|before|..];
      |e| == 4 && OnDisplay(e, displayId)
      && IsGesture(e[..2]) && IsGesture(e[2..])
      && e[0].EventTime() <= e[1].EventTime()
      && e[1].EventTime() + 100 <= e[2].EventTime() <= e[3].EventTime()
      && t0 <= e[0].EventTime() && e[3].EventTime() <= t1
  {
    var n := |before|;
    var mid := after[..n + 2];
    assert mid[..n] == before;
    assert after[..n] == before;
    var e := after[n..];
    assert mid[n..] == e[..2];
    assert after[n + 2..] == e[2..];
  }

  // ---------------------------------------------------------------- keys

  /** `injectKeyEvent`: a DOWN and an UP with the same key code and down time, from the system. */
  function KeyPressEvents(displayId: int32, keyCode: int32, downTime: int, upTime: int): seq<InputEvent> {
    [Key(KeyEvent(KeyDown, keyCode, downTime, downTime, 0, 0, VIRTUAL_KEYBOARD, 0, FLAG_FROM_SYSTEM, displayId)),
     Key(KeyEvent(KeyUp, keyCode, downTime, upTime, 0, 0, VIRTUAL_KEYBOARD, 0, FLAG_FROM_SYSTEM, displayId))]
  }

  predicate KeyPressLogged(before: seq<InputEvent>, after: seq<InputEvent>, displayId: int32, keyCode: int32,
                           t0: int, t1: int) {
    |after| == |before| + 2 && after[..|before|] == before
    && after[|before|..] == KeyPressEvents(displayId, keyCode, after[|before|].EventTime(), after[|before| + 1].EventTime())
    && t0 <= after[|before|].EventTime() <= after[|before| + 1].EventTime() <= t1
  }

  /** A logged key press is DOWN then UP of one key code, one down time, on one display. */
  lemma KeyPressPairs(before: seq<InputEvent>, after: seq<InputEvent>, displayId: int32, keyCode: int32, t0: int, t1: int)
    requires KeyPressLogged(before, after, displayId, keyCode, t0, t1)
    ensures var e := after[|before|..];
      e[0].Key? && e[1].Key? && e[0].key.action == KeyDown && e[1].key.action == KeyUp
      && e[0].key.keyCode == e[1].key.keyCode == keyCode
      && e[0].DownTime() == e[1].DownTime() == e[0].EventTime() <= e[1].EventTime()
      && OnDisplay(e, displayId)
  {
  }

  // ---------------------------------------------------------------- text

  /** A key-map event re-issued on `displayId` with the system flag added. */
  function OnDisplayFromSystem(e: KeyEvent, displayId: int32): KeyEvent {
    e.(flags := e.flags | FLAG_FROM_SYSTEM, displayId := displayId)
  }

  function Relabel(events: seq<KeyEvent>, displayId: int32): (r: seq<InputEvent>)
    ensures |r| == |events|
    ensures forall i :: 0 <= i < |events| ==> r[i] == Key(OnDisplayFromSystem(events[i], displayId))
  {
    seq(|events|, i requires 0 <= i < |events| => Key(OnDisplayFromSystem(events[i], displayId)))
  }

  /** `injectCharacter`: the character's mapped events, or nothing when it has no mapping. */
  function CharEvents(displayId: int32, keyMap: KeyCharacterMap, c: char): seq<InputEvent> {
    match keyMap(c)
    case Some(events) => Relabel(events, displayId)
    case None => []
  }

  /** `injectText`: the characters' events one character after another. */
  function TextEvents(displayId: int32, keyMap: KeyCharacterMap, text: string): seq<InputEvent>
    decreases |text|
  {
    if text == [] then [] else TextEvents(displayId, keyMap, text[..|text| - 1]) + CharEvents(displayId, keyMap, text[|text| - 1])
  }

  /** One more character appends that character's events. */
  lemma TextEventsSnoc(displayId: int32, keyMap: KeyCharacterMap, s: string, c: char)
    ensures TextEvents(displayId, keyMap, s + [c]) == TextEvents(displayId, keyMap, s) + CharEvents(displayId, keyMap, c)
  {
    assert (s + [c])[..|s + [c]| - 1] == s;
  }

  /** Text is processed in order: the events of a concatenation are the concatenated events. */
  lemma {:induction false} TextEventsConcat(displayId: int32, keyMap: KeyCharacterMap, a: string, b: string)
    ensures TextEvents(displayId, keyMap, a + b) == TextEvents(displayId, keyMap, a) + TextEvents(displayId, keyMap, b)
    decreases |b|
  {
    if b == [] {
      assert a + b == a;
    } else {
      var b', c := b[..|b| - 1], b[|b| - 1];
      assert b == b' + [c];
      assert a + b == (a + b') + [c];
      TextEventsSnoc(displayId, keyMap, a + b', c);
      TextEventsSnoc(displayId, keyMap, b', c);
      TextEventsConcat(displayId, keyMap, a, b');
      ConcatAssoc(TextEvents(displayId, keyMap, a), TextEvents(displayId, keyMap, b'), CharEvents(displayId, keyMap, c));
    }
  }

  lemma ConcatAssoc<T>(x: seq<T>, y: seq<T>, z: seq<T>)
    ensures (x + y) + z == x + (y + z)
  {
  }

  /** A character without a mapping is skipped silently: it adds no event and stops nothing. */
  lemma UnmappedCharacterSkipped(displayId: int32, keyMap: KeyCharacterMap, a: string, c: char, b: string)
    requires keyMap(c).None?
    ensures TextEvents(displayId, keyMap, a + [c] + b) == TextEvents(displayId, keyMap, a + b)
  {
    TextEventsConcat(displayId, keyMap, a + [c], b);
    TextEventsConcat(displayId, keyMap, a, b);
    assert (a + [c])[..|a + [c]| - 1] == a;
    assert TextEvents(displayId, keyMap, a + [c]) == TextEvents(displayId, keyMap, a);
  }

  /** Every event of typed text is a key event on the session's display with the system flag set. */
  lemma {:induction false} TextEventsOnDisplay(displayId: int32, keyMap: KeyCharacterMap, text: string)
    ensures OnDisplay(TextEvents(displayId, keyMap, text), displayId)
    ensures forall i :: 0 <= i < |TextEvents(displayId, keyMap, text)| ==>
      TextEvents(displayId, keyMap, text)[i].Key? && TextEvents(displayId, keyMap, text)[i].key.flags & FLAG_FROM_SYSTEM != 0
    decreases |text|
  {
    if text != [] {
      TextEventsOnDisplay(displayId, keyMap, text[..|text| - 1]);
      var prefix := TextEvents(displayId, keyMap, text[..|text| - 1]);
      var last := CharEvents(displayId, keyMap, text[|text| - 1]);
      assert TextEvents(displayId, keyMap, text) == prefix + last;
      forall i | 0 <= i < |last|
        ensures last[i].Key? && last[i].DisplayId() == displayId && last[i].key.flags & FLAG_FROM_SYSTEM != 0
      {
        var e := keyMap(text[|text| - 1]).value[i];
        OrKeepsFlag(e.flags);
      }
    }
  }

  lemma OrKeepsFlag(f: bv32)
    ensures (f | FLAG_FROM_SYSTEM) & FLAG_FROM_SYSTEM != 0
  {
  }

  // ---------------------------------------------------------------- drag

  /** `maxOf(1, (durationMs / 15).toInt())`: Long division truncated toward zero, then narrowed to `Int`. */
  function Steps(durationMs: int64): (s: int32)
    ensures s >= 1
  {
    QuotInLongRange(durationMs, DRAG_STEP_INTERVAL_MS as int);
    var q := ToInt(Quot(durationMs, DRAG_STEP_INTERVAL_MS as int));
    if q > 1 then q else 1
  }

  /** `durationMs / steps`, truncated toward zero. */
  function StepDelay(durationMs: int64): int64 {
    QuotInLongRange(durationMs, Steps(durationMs) as int);
    Quot(durationMs, Steps(durationMs) as int)
  }

  lemma QuotInLongRange(a: int64, b: int)
    requires b > 0
    ensures -0x8000_0000_0000_0000 <= Quot(a, b) < 0x8000_0000_0000_0000
  {
    var q := Quot(a, b);
    if a < 0 {
      MulPositiveNonPositive(q, b);
    } else {
      DivMulBound(a, b);
      MulPositiveNonNegative(q, b);
    }
  }

  lemma MulPositiveNonPositive(q: int, b: int)
    requires q <= 0 && b > 0
    ensures q * b <= q
  {
  }

  lemma MulPositiveNonNegative(q: int, b: int)
    requires q >= 0 && b > 0
    ensures q <= q * b
  {
  }

  /**
   * The i-th MOVE, for 1 <= i <= steps: the linear interpolation at i / steps,
   * stamped downTime + i * stepDelay in `Long` arithmetic (wrapping the
   * product and then the sum leaves the same low 64 bits as wrapping the
   * exact sum once).
   */
  function MoveEvent(displayId: int32, startX: real, startY: real, endX: real, endY: real, durationMs: int64,
                     downTime: int, i: int): InputEvent {
    var steps := Steps(durationMs);
    var progress := i as real / steps as real;
    TouchEvent(ActionMove, downTime, WrapLong(downTime + i * StepDelay(durationMs)),
               startX + (endX - startX) * progress, startY + (endY - startY) * progress, displayId)
  }

  /** MOVEs 1 to k. */
  function DragMoves(displayId: int32, startX: real, startY: real, endX: real, endY: real, durationMs: int64,
                     downTime: int, k: nat): (r: seq<InputEvent>)
    ensures |r| == k
    ensures forall j :: 0 <= j < k ==> r[j] == MoveEvent(displayId, startX, startY, endX, endY, durationMs, downTime, j + 1)
  {
    seq(k, j requires 0 <= j < k => MoveEvent(displayId, startX, startY, endX, endY, durationMs, downTime, j + 1))
  }

  /** `injectDrag`: DOWN at the start, `steps` MOVEs, UP at the end. */
  function DragEvents(displayId: int32, startX: real, startY: real, endX: real, endY: real, durationMs: int64,
                      downTime: int, upTime: int): seq<InputEvent> {
    [TouchEvent(ActionDown, downTime, downTime, startX, startY, displayId)]
    + DragMoves(displayId, startX, startY, endX, endY, durationMs, downTime, Steps(durationMs) as nat)
    + [TouchEvent(ActionUp, downTime, upTime, endX, endY, displayId)]
  }

  /** The sleeps between MOVEs are only carried out when there is one step or the step delay is not negative. */
  predicate DragSleepsSucceed(durationMs: int64) {
    Steps(durationMs) == 1 || StepDelay(durationMs) >= 0
  }

  /**
   * `after` is `before` followed by a whole drag: DOWN not before `t0`,
   * UP at least (steps - 1) step delays after the DOWN and not after `t1`.
   */
  predicate DragLogged(before: seq<InputEvent>, after: seq<InputEvent>, displayId: int32,
                       startX: real, startY: real, endX: real, endY: real, durationMs: int64, t0: int, t1: int) {
    |after| == |before| + Steps(durationMs) + 2 && after[..|before|] == before
    && var downTime := after[|before|].EventTime();
    && var upTime := after[|after| - 1].EventTime();
    && after[|before|..] == DragEvents(displayId, startX, startY, endX, endY, durationMs, downTime, upTime)
    && t0 <= downTime
    && downTime + (Steps(durationMs) - 1) * StepDelay(durationMs) <= upTime <= t1
  }

  /** The drag's events: steps + 2 of them, all on its display, DOWN at the start and UP at the end. */
  lemma DragShape(displayId: int32, startX: real, startY: real, endX: real, endY: real, durationMs: int64,
                  downTime: int, upTime: int)
    ensures var e := DragEvents(displayId, startX, startY, endX, endY, durationMs, downTime, upTime);
      |e| == Steps(durationMs) + 2 && OnDisplay(e, displayId)
      && e[0] == TouchEvent(ActionDown, downTime, downTime, startX, startY, displayId)
      && e[|e| - 1] == TouchEvent(ActionUp, downTime, upTime, endX, endY, displayId)
      && forall i :: 1 <= i <= Steps(durationMs) ==> e[i].Touch? && e[i].motion.action == ActionMove
  {
    var e := DragEvents(displayId, startX, startY, endX, endY, durationMs, downTime, upTime);
    var moves := DragMoves(displayId, startX, startY, endX, endY, durationMs, downTime, Steps(durationMs) as nat);
    assert forall i :: 1 <= i <= Steps(durationMs) ==> e[i] == moves[i - 1];
  }

  /** Over the reals the last MOVE lands exactly on the end point. */
  lemma DragLastMoveAtEnd(displayId: int32, startX: real, startY: real, endX: real, endY: real, durationMs: int64,
                          downTime: int, upTime: int)
    ensures var e := DragEvents(displayId, startX, startY, endX, endY, durationMs, downTime, upTime);
      e[Steps(durationMs)].motion.x == endX && e[Steps(durationMs)].motion.y == endY
  {
    var steps := Steps(durationMs);
    var e := DragEvents(displayId, startX, startY, endX, endY, durationMs, downTime, upTime);
    var moves := DragMoves(displayId, startX, startY, endX, endY, durationMs, downTime, steps as nat);
    assert e[steps] == moves[steps - 1];
    SelfRatio(steps as int);
  }

  lemma SelfRatio(n: int)
    requires n >= 1
    ensures n as real / n as real == 1.0
  {
  }

  /**
   * For a duration that is not negative and a DOWN time that leaves room
   * for it below `Long.MAX_VALUE`, the MOVE stamps never decrease, none
   * precedes the DOWN, and the last is at most the DOWN time plus the
   * duration. Past that bound the stamps wrap (see `DragStampWraps`).
   */
  lemma DragMoveTimes(displayId: int32, startX: real, startY: real, endX: real, endY: real, durationMs: int64,
                      downTime: int, upTime: int, i: int, j: int)
    requires durationMs >= 0
    requires LONG_MIN <= downTime && downTime + durationMs <= LONG_MAX
    requires 1 <= i <= j <= Steps(durationMs)
    ensures var e := DragEvents(displayId, startX, startY, endX, endY, durationMs, downTime, upTime);
      downTime <= e[i].EventTime() <= e[j].EventTime() <= e[Steps(durationMs)].EventTime() <= downTime + durationMs
  {
    var steps := Steps(durationMs) as int;
    var delay := StepDelay(durationMs) as int;
    DivMulBound(durationMs, steps);
    assert delay >= 0 && delay * steps <= durationMs;
    MulMonotone(i, j, delay);
    MulMonotone(j, steps, delay);
    MulMonotone(0, i, delay);
    DragShape(displayId, startX, startY, endX, endY, durationMs, downTime, upTime);
  }

  lemma MulSucc(n: int, d: int)
    ensures (n + 1) * d == n * d + d
  {
  }

  lemma MulMonotone(a: int, b: int, c: int)
    requires a <= b && c >= 0
    ensures a * c <= b * c
  {
  }

  /** Within the range where `toInt` does not wrap, steps = max(1, durationMs / 15). */
  lemma StepsWithoutWrap(durationMs: int64)
    requires 0 <= durationMs < 15 * 0x8000_0000
    ensures Steps(durationMs) == if durationMs / 15 > 1 then durationMs / 15 else 1
  {
  }

  /** No drag shorter than about 370 days in either direction can fail on a sleep. */
  lemma DragSleepsSucceedWithoutWrap(durationMs: int64)
    requires -15 * 0x8000_0000 < durationMs < 15 * 0x8000_0000
    ensures DragSleepsSucceed(durationMs)
  {
    if durationMs >= 0 {
      DivMulBound(durationMs, Steps(durationMs) as int);
    } else {
      var q := Quot(durationMs, 15);
      assert q * 15 >= durationMs > -15 * 0x8000_0000;
      assert q > -0x8000_0000;
    }
  }

  /**
   * A huge negative duration wraps in `toInt` to five steps with a negative
   * step delay, so `Thread.sleep` throws after the first MOVE.
   */
  lemma DragWrapsToNegativeDelay()
    ensures Steps(-15 * 0x1_0000_0000 + 75) == 5
    ensures StepDelay(-15 * 0x1_0000_0000 + 75) < 0
    ensures !DragSleepsSucceed(-15 * 0x1_0000_0000 + 75)
  {
    var d: int64 := -15 * 0x1_0000_0000 + 75;
    assert Quot(d, 15) == -0x1_0000_0000 + 5;
    assert ToInt(-0x1_0000_0000 + 5) == 5;
  }

  /**
   * The largest duration gives one step whose delay is the whole duration,
   * so a DOWN at 1 ms puts the only MOVE at `Long.MIN_VALUE`, before the DOWN.
   */
  lemma DragStampWraps(displayId: int32, upTime: int)
    ensures Steps(LONG_MAX) == 1 && StepDelay(LONG_MAX) == LONG_MAX
    ensures var e := DragEvents(displayId, 0.0, 0.0, 100.0, 0.0, LONG_MAX, 1, upTime);
      e[1].EventTime() == LONG_MIN < e[0].EventTime()
  {
    assert Quot(LONG_MAX, 15) == 614891469123651720;
    assert ToInt(614891469123651720) == -2004318072;
    DragShape(displayId, 0.0, 0.0, 100.0, 0.0, LONG_MAX, 1, upTime);
    assert WrapLong(1 + LONG_MAX) == LONG_MIN;
  }

  /**
   * Duration 300 gives 20 steps of 15 ms, and the drag from (0, 0) to
   * (100, 0) ends its MOVEs at (100, 0), stamped 300 ms (as a `Long`) after the DOWN.
   */
  lemma DefaultDrag(displayId: int32, downTime: int, upTime: int)
    ensures Steps(300) == 20 && StepDelay(300) == 15
    ensures var e := DragEvents(displayId, 0.0, 0.0, 100.0, 0.0, 300, downTime, upTime);
      e[20].motion.x == 100.0 && e[20].motion.y == 0.0 && e[20].EventTime() == WrapLong(downTime + 300)
  {
    assert Quot(300, 15) == 20;
    DragLastMoveAtEnd(displayId, 0.0, 0.0, 100.0, 0.0, 300, downTime, upTime);
    DragShape(displayId, 0.0, 0.0, 100.0, 0.0, 300, downTime, upTime);
  }

  /**
   * Only steps - 1 sleeps separate the DOWN from the UP, while the last MOVE
   * is stamped a full duration after the DOWN: for 300 ms the UP is only
   * guaranteed 285 ms after the DOWN, before the last MOVE's 300 ms stamp.
   */
  lemma DragUpMayPrecedeLastMove(displayId: int32, downTime: int)
    requires LONG_MIN <= downTime <= LONG_MAX - 300
    ensures var e := DragEvents(displayId, 0.0, 0.0, 100.0, 0.0, 300, downTime, downTime + 285);
      DragLogged([], e, displayId, 0.0, 0.0, 100.0, 0.0, 300, downTime, downTime + 285)
      && e[|e| - 1].EventTime() < e[|e| - 2].EventTime()
  {
    DefaultDrag(displayId, downTime, downTime + 285);
    var e := DragEvents(displayId, 0.0, 0.0, 100.0, 0.0, 300, downTime, downTime + 285);
    DragShape(displayId, 0.0, 0.0, 100.0, 0.0, 300, downTime, downTime + 285);
    assert e[..0] == [];
    assert e[0..] == e;
  }

  // ---------------------------------------------------------------- the injector

  class InputInjector {
    /** Every event injected so far, oldest first. */
    var log: seq<InputEvent>
    const clock: Clock
    /** `KeyCharacterMap.load(VIRTUAL_KEYBOARD)`. */
    const keyMap: KeyCharacterMap

    constructor (clock: Clock, keyMap: KeyCharacterMap)
      ensures this.clock == clock && this.keyMap == keyMap && log == []
    {
      this.clock := clock;
      this.keyMap := keyMap;
      log := [];
    }

    method InjectEvent(e: InputEvent)
      modifies this
      ensures log == old(log) + [e]
    {
      log := log + [e];
    }

    /** `injectTap`: DOWN then UP at (x, y), with no wait between them. */
    method InjectTap(displayId: int32, x: real, y: real)
      modifies this, clock
      ensures PressLogged(old(log), log, displayId, x, y, old(clock.now), clock.now, 0)
      ensures clock.sleeps == old(clock.sleeps)
    {
      var downTime := clock.UptimeMillis();
      InjectEvent(TouchEvent(ActionDown, downTime, downTime, x, y, displayId));
      var upTime := clock.UptimeMillis();
      InjectEvent(TouchEvent(ActionUp, downTime, upTime, x, y, displayId));
      assert log[|old(log)|..] == TapEvents(displayId, x, y, downTime, upTime);
    }

    /**
     * `injectLongPress`: DOWN, a sleep of `durationMs`, UP. A negative
     * duration makes the sleep throw after the DOWN, and no UP follows.
     */
    method InjectLongPress(displayId: int32, x: real, y: real, durationMs: int64) returns (r: Outcome)
      modifies this, clock
      ensures r.Pass? <==> durationMs >= 0
      ensures r.Pass? ==> PressLogged(old(log), log, displayId, x, y, old(clock.now), clock.now, durationMs)
      ensures r.Pass? ==> clock.sleeps == old(clock.sleeps) + [durationMs as int]
      ensures r.Fail? ==> r.error == NegativeSleep && clock.sleeps == old(clock.sleeps)
      ensures r.Fail? ==> |log| == |old(log)| + 1 && log[..|old(log)|] == old(log)
      ensures r.Fail? ==> log[|old(log)|] == TouchEvent(ActionDown, log[|old(log)|].EventTime(), log[|old(log)|].EventTime(), x, y, displayId)
      ensures r.Fail? ==> old(clock.now) <= log[|old(log)|].EventTime() <= clock.now
    {
      var downTime := clock.UptimeMillis();
      InjectEvent(TouchEvent(ActionDown, downTime, downTime, x, y, displayId));
      r := clock.Sleep(durationMs);
      if r.Fail? {
        return;
      }
      var upTime := clock.UptimeMillis();
      InjectEvent(TouchEvent(ActionUp, downTime, upTime, x, y, displayId));
      assert log[|old(log)|..] == TapEvents(displayId, x, y, downTime, upTime);
    }

    /** `injectDoubleTap`: a tap, a 100 ms sleep, a tap. */
    method InjectDoubleTap(displayId: int32, x: real, y: real)
      modifies this, clock
      ensures DoubleTapLogged(old(log), log, displayId, x, y, old(clock.now), clock.now)
      ensures clock.sleeps == old(clock.sleeps) + [DEFAULT_DOUBLE_TAP_DELAY_MS as int]
    {
      ghost var before := log;
      InjectTap(displayId, x, y);
      ghost var mid := log;
      ghost var firstUp := log[|before| + 1].EventTime();
      var s := clock.Sleep(DEFAULT_DOUBLE_TAP_DELAY_MS);
      InjectTap(displayId, x, y);
      assert log[..|before| + 2] == mid;
      assert log[|before| + 1] == mid[|before| + 1];
    }

    /**
     * `injectKeyEvent`: a DOWN and an UP of `keyCode` sharing the first
     * clock reading as down time; the UP is stamped by a second reading.
     */
    method InjectKeyEvent(displayId: int32, keyCode: int32)
      modifies this, clock
      ensures KeyPressLogged(old(log), log, displayId, keyCode, old(clock.now), clock.now)
      ensures clock.sleeps == old(clock.sleeps)
    {
      var downTime := clock.UptimeMillis();
      var down := Key(KeyEvent(KeyDown, keyCode, downTime, downTime, 0, 0, VIRTUAL_KEYBOARD, 0, FLAG_FROM_SYSTEM, displayId));
      var upTime := clock.UptimeMillis();
      var up := Key(KeyEvent(KeyUp, keyCode, downTime, upTime, 0, 0, VIRTUAL_KEYBOARD, 0, FLAG_FROM_SYSTEM, displayId));
      InjectEvent(down);
      InjectEvent(up);
      assert log[|old(log)|..] == KeyPressEvents(displayId, keyCode, downTime, upTime);
    }

    /** `injectText`: each character in order; unmapped characters add nothing. */
    method InjectText(displayId: int32, text: string)
      modifies this
      ensures log == old(log) + TextEvents(displayId, keyMap, text)
    {
      var i := 0;
      while i < |text|
        invariant 0 <= i <= |text|
        invariant log == old(log) + TextEvents(displayId, keyMap, text[..i])
      {
        InjectCharacter(displayId, text[i]);
        assert text[..i + 1][..i] == text[..i];
        i := i + 1;
      }
      assert text[..|text|] == text;
    }

    /** `injectCharacter`: the key map's events for `c`, re-issued on the display with the system flag. */
    method InjectCharacter(displayId: int32, c: char)
      modifies this
      ensures log == old(log) + CharEvents(displayId, keyMap, c)
    {
      var events := keyMap(c);
      if events.Some? {
        var evs := events.value;
        var j := 0;
        while j < |evs|
          invariant 0 <= j <= |evs|
          invariant log == old(log) + Relabel(evs[..j], displayId)
        {
          InjectEvent(Key(OnDisplayFromSystem(evs[j], displayId)));
          assert Relabel(evs[..j + 1], displayId) == Relabel(evs[..j], displayId) + [Key(OnDisplayFromSystem(evs[j], displayId))];
          j := j + 1;
        }
        assert evs[..|evs|] == evs;
      }
    }

    /**
     * `injectDrag`: DOWN at the start; MOVEs 1 to steps, each stamped
     * downTime + i * stepDelay as a `Long` and followed, except the last, by a sleep of
     * stepDelay; UP at the end, stamped by the clock. When the step delay is
     * negative the first sleep throws, leaving only the DOWN and one MOVE.
     */
    method InjectDrag(displayId: int32, startX: real, startY: real, endX: real, endY: real, durationMs: int64)
      returns (r: Outcome)
      modifies this, clock
      ensures r.Pass? <==> DragSleepsSucceed(durationMs)
      ensures r.Pass? ==> DragLogged(old(log), log, displayId, startX, startY, endX, endY, durationMs, old(clock.now), clock.now)
      ensures r.Pass? ==> clock.sleeps == old(clock.sleeps) + Repeat(Steps(durationMs) - 1, StepDelay(durationMs))
      ensures r.Fail? ==> r.error == NegativeSleep && |log| == |old(log)| + 2 && log[..|old(log)|] == old(log)
      ensures r.Fail? ==> log[|old(log)|..] == DragEvents(displayId, startX, startY, endX, endY, durationMs, log[|old(log)|].EventTime(), 0)[..2]
    {
      var downTime := clock.UptimeMillis();
      ghost var before := log;
      var down := TouchEvent(ActionDown, downTime, downTime, startX, startY, displayId);
      InjectEvent(down);
      r := InjectMoves(displayId, startX, startY, endX, endY, durationMs, downTime);
      if r.Fail? {
        DragPrefix(displayId, startX, startY, endX, endY, durationMs, downTime);
        return;
      }
      var upTime := clock.UptimeMillis();
      InjectEvent(TouchEvent(ActionUp, downTime, upTime, endX, endY, displayId));
      assert log[|before|..] == DragEvents(displayId, startX, startY, endX, endY, durationMs, downTime, upTime);
    }

    /**
     * The drag's MOVE loop: MOVE i for i = 1 to steps, sleeping the step
     * delay after each but the last; a negative delay makes the first sleep
     * throw, after MOVE 1.
     */
    method InjectMoves(displayId: int32, startX: real, startY: real, endX: real, endY: real, durationMs: int64,
                       downTime: int) returns (r: Outcome)
      modifies this, clock
      ensures r.Pass? <==> DragSleepsSucceed(durationMs)
      ensures r.Pass? ==> log == old(log) + DragMoves(displayId, startX, startY, endX, endY, durationMs, downTime, Steps(durationMs) as nat)
      ensures r.Pass? ==> clock.sleeps == old(clock.sleeps) + Repeat(Steps(durationMs) - 1, StepDelay(durationMs))
      ensures r.Pass? ==> clock.now >= old(clock.now) + (Steps(durationMs) - 1) * StepDelay(durationMs)
      ensures r.Fail? ==> r.error == NegativeSleep
      ensures r.Fail? ==> log == old(log) + DragMoves(displayId, startX, startY, endX, endY, durationMs, downTime, 1)
    {
      var steps: int := Steps(durationMs);
      var stepDelay := StepDelay(durationMs);
      ghost var slept: nat := 0;
      var i: int := 1;
      while i <= steps
        invariant 1 <= i <= steps + 1
        invariant slept == if i <= steps then i - 1 else steps - 1
        invariant steps > 1 && i > 1 ==> stepDelay >= 0
        invariant log == old(log) + DragMoves(displayId, startX, startY, endX, endY, durationMs, downTime, i - 1)
        invariant clock.sleeps == old(clock.sleeps) + Repeat(slept, stepDelay)
        invariant clock.now >= old(clock.now) + slept * stepDelay
      {
        InjectEvent(MoveEvent(displayId, startX, startY, endX, endY, durationMs, downTime, i));
        DragMovesSnoc(displayId, startX, startY, endX, endY, durationMs, downTime, i);
        if i < steps {
          var s := clock.Sleep(stepDelay);
          if s.Fail? {
            return s;
          }
          MulSucc(slept, stepDelay);
          slept := slept + 1;
        }
        i := i + 1;
      }
      r := Pass;
    }
  }

  /** `n` copies of `x`: the sleeps a drag performs. */
  function Repeat(n: int, x: int): (r: seq<int>)
    ensures |r| == if n > 0 then n else 0
    ensures forall i :: 0 <= i < |r| ==> r[i] == x
    decreases n
  {
    if n <= 0 then [] else Repeat(n - 1, x) + [x]
  }

  lemma DragMovesSnoc(displayId: int32, startX: real, startY: real, endX: real, endY: real, durationMs: int64,
                      downTime: int, i: nat)
    requires i >= 1
    ensures DragMoves(displayId, startX, startY, endX, endY, durationMs, downTime, i)
         == DragMoves(displayId, startX, startY, endX, endY, durationMs, downTime, i - 1)
            + [MoveEvent(displayId, startX, startY, endX, endY, durationMs, downTime, i)]
  {
  }

  lemma DragPrefix(displayId: int32, startX: real, startY: real, endX: real, endY: real, durationMs: int64,
                   downTime: int)
    requires Steps(durationMs) >= 2
    ensures [TouchEvent(ActionDown, downTime, downTime, startX, startY, displayId)]
            + DragMoves(displayId, startX, startY, endX, endY, durationMs, downTime, 1)
         == DragEvents(displayId, startX, startY, endX, endY, durationMs, downTime, 0)[..2]
  {
  }

}
