/**
 * SessionManager: the registry of live sessions, keyed by id, with a slot
 * for the one session that controls the physical display.
 *
 * The first half is the registry as a value: each operation a function
 * from the old registry to the new one, and the invariant they keep:
 *   - the slot is set exactly when "physical-0" is registered, and then
 *     names it;
 *   - the only session that is not headless is "physical-0";
 *   - at most MAX_SESSIONS sessions are headless.
 * The second half is the class the service holds. Each of its methods is
 * proved to move its abstract registry exactly as the function says, and to
 * destroy what it removes.
 */
module SessionManagement {
  import opened Results
  import opened Jvm
  import opened SessionConfigs
  import opened Platform
  import opened Sessions

  const MAX_SESSIONS: nat := 10

  /** What the registry records of each session. */
  datatype Entry = Entry(headless: bool, displayId: int32)

  datatype Registry = Registry(sessions: map<string, Entry>, slot: Option<string>)

  function HeadlessIds(reg: Registry): set<string> {
    reg.sessions.Keys - {PHYSICAL_ID}
  }

  /** The slot is set exactly when "physical-0" is registered, and then names it. */
  ghost predicate SlotNamesPhysical(reg: Registry) {
    (reg.slot.Some? <==> PHYSICAL_ID in reg.sessions)
    && (reg.slot.Some? ==> reg.slot.value == PHYSICAL_ID)
  }

  /** Every registered session but "physical-0" is headless, and "physical-0" is not. */
  ghost predicate OnlyPhysicalIsNotHeadless(reg: Registry) {
    forall id :: id in reg.sessions ==> (reg.sessions[id].headless <==> id != PHYSICAL_ID)
  }

  ghost predicate WithinCapacity(reg: Registry) {
    |HeadlessIds(reg)| <= MAX_SESSIONS
  }

  /** The shape of the registry, which the manager keeps as part of its own invariant. */
  ghost predicate Structure(reg: Registry) {
    SlotNamesPhysical(reg) && OnlyPhysicalIsNotHeadless(reg)
  }

  ghost predicate Inv(reg: Registry) {
    Structure(reg) && WithinCapacity(reg)
  }

  function AddHeadless(reg: Registry, id: string, d: int32): Registry {
    reg.(sessions := reg.sessions[id := Entry(true, d)])
  }

  function AddPhysical(reg: Registry): Registry {
    Registry(reg.sessions[PHYSICAL_ID := Entry(false, PHYSICAL_DISPLAY_ID)], Some(PHYSICAL_ID))
  }

  /**
   * `createSession`: refused at capacity before anything else; a headless
   * session is registered under its fresh id and display; a physical one
   * is refused while the slot is held, and otherwise takes the slot.
   * `display` is the display the platform creates, or the error it throws.
   */
  function Create(reg: Registry, headless: bool, freshId: string, display: Result<int32>): Result<(Registry, string)> {
    if |reg.sessions| >= MAX_SESSIONS then Err(CapacityExceeded)
    else if headless then
      match display
      case Err(e) => Err(e)
      case Ok(d) => Ok((AddHeadless(reg, freshId, d), freshId))
    else if reg.slot.Some? then Err(PhysicalDisplayBusy)
    else Ok((AddPhysical(reg), PHYSICAL_ID))
  }

  /** `controlPrimaryDisplay`: the slot's session if set, else a new physical session in the slot; no capacity check. */
  function ControlPrimary(reg: Registry): (Registry, string) {
    if reg.slot.Some? then (reg, reg.slot.value) else (AddPhysical(reg), PHYSICAL_ID)
  }

  /** `destroySession`: removes the id, clearing the slot only if it names that id. */
  function Destroy(reg: Registry, id: string): Registry {
    if id !in reg.sessions then reg
    else Registry(reg.sessions - {id}, if reg.slot == Some(id) then None else reg.slot)
  }

  /** `releasePrimaryDisplay`: removes the slot's session and clears the slot. */
  function ReleasePrimary(reg: Registry): Registry {
    match reg.slot
    case None => reg
    case Some(id) => Registry(reg.sessions - {id}, None)
  }

  /** `shutdown`: nothing registered, the slot empty. */
  function ShutdownRegistry(reg: Registry): Registry {
    Registry(map[], None)
  }

  function Lookup(reg: Registry, id: string): Option<Entry> {
    if id in reg.sessions then Some(reg.sessions[id]) else None
  }

  // ---------------------------------------------------------------- the invariant is kept

  lemma SubsetCard<T>(a: set<T>, b: set<T>)
    requires a <= b
    ensures |a| <= |b|
  {
    assert b == a + (b - a);
  }

  lemma AddHeadlessKeepsInv(reg: Registry, freshId: string, d: int32)
    requires Inv(reg) && |reg.sessions| < MAX_SESSIONS
    requires freshId != PHYSICAL_ID && freshId !in reg.sessions
    ensures Inv(AddHeadless(reg, freshId, d))
  {
    var reg' := AddHeadless(reg, freshId, d);
    assert SlotNamesPhysical(reg');
    assert OnlyPhysicalIsNotHeadless(reg');
    AddHeadlessCapacity(reg, freshId, d);
  }

  lemma AddHeadlessCapacity(reg: Registry, freshId: string, d: int32)
    requires |reg.sessions| < MAX_SESSIONS
    requires freshId != PHYSICAL_ID && freshId !in reg.sessions
    ensures WithinCapacity(AddHeadless(reg, freshId, d))
  {
    var keys := reg.sessions.Keys;
    assert HeadlessIds(AddHeadless(reg, freshId, d)) == (keys + {freshId}) - {PHYSICAL_ID};
    assert |keys| == |reg.sessions|;
    AddedIdWithinCapacity(keys, freshId, |reg.sessions|);
  }

  lemma AddedIdWithinCapacity(keys: set<string>, freshId: string, n: nat)
    requires |keys| == n < MAX_SESSIONS && freshId !in keys
    ensures |(keys + {freshId}) - {PHYSICAL_ID}| <= MAX_SESSIONS
  {
    SubsetCard((keys + {freshId}) - {PHYSICAL_ID}, keys + {freshId});
  }

  lemma AddPhysicalKeepsInv(reg: Registry)
    requires Inv(reg) && reg.slot.None?
    ensures Inv(AddPhysical(reg))
  {
    var reg' := AddPhysical(reg);
    assert SlotNamesPhysical(reg');
    assert OnlyPhysicalIsNotHeadless(reg');
    assert HeadlessIds(reg') == HeadlessIds(reg);
  }

  lemma CreateKeepsInv(reg: Registry, headless: bool, freshId: string, display: Result<int32>)
    requires Inv(reg)
    requires freshId != PHYSICAL_ID && freshId !in reg.sessions
    ensures Create(reg, headless, freshId, display).Ok? ==> Inv(Create(reg, headless, freshId, display).value.0)
  {
    if Create(reg, headless, freshId, display).Ok? {
      if headless {
        AddHeadlessKeepsInv(reg, freshId, display.value);
      } else {
        AddPhysicalKeepsInv(reg);
      }
    }
  }

  lemma ControlPrimaryKeepsInv(reg: Registry)
    requires Inv(reg)
    ensures Inv(ControlPrimary(reg).0)
  {
    if reg.slot.None? {
      AddPhysicalKeepsInv(reg);
    }
  }

  lemma DestroyKeepsInv(reg: Registry, id: string)
    requires Inv(reg)
    ensures Inv(Destroy(reg, id))
  {
    if id in reg.sessions {
      var reg' := Destroy(reg, id);
      assert SlotNamesPhysical(reg');
      assert OnlyPhysicalIsNotHeadless(reg');
      SubsetCard(HeadlessIds(reg'), HeadlessIds(reg));
    }
  }

  lemma ReleasePrimaryKeepsInv(reg: Registry)
    requires Inv(reg)
    ensures Inv(ReleasePrimary(reg))
  {
    if reg.slot.Some? {
      var reg' := ReleasePrimary(reg);
      assert SlotNamesPhysical(reg');
      assert OnlyPhysicalIsNotHeadless(reg');
      assert HeadlessIds(reg') == HeadlessIds(reg);
    }
  }

  lemma ShutdownKeepsInv(reg: Registry)
    ensures Inv(ShutdownRegistry(reg))
  {
    assert HeadlessIds(ShutdownRegistry(reg)) == {};
  }

  /** Under the invariant at most one registered session is not headless: "physical-0", held in the slot. */
  lemma AtMostOnePhysical(reg: Registry, a: string, b: string)
    requires Inv(reg)
    requires a in reg.sessions && b in reg.sessions
    requires !reg.sessions[a].headless && !reg.sessions[b].headless
    ensures a == b == PHYSICAL_ID && reg.slot == Some(a)
  {
  }

  /** The headless sessions are capped at ten; with the physical one the registry may hold eleven. */
  lemma RegistrySize(reg: Registry)
    requires Inv(reg)
    ensures |reg.sessions| <= MAX_SESSIONS + 1
  {
    var keys := reg.sessions.Keys;
    assert keys <= HeadlessIds(reg) + {PHYSICAL_ID};
    SubsetCard(keys, HeadlessIds(reg) + {PHYSICAL_ID});
    assert |keys| == |reg.sessions|;
  }

  // ---------------------------------------------------------------- every run of the service

  /** One call on the manager, with what the platform supplied for it. */
  datatype Op =
    | CreateOp(headless: bool, freshId: string, display: Result<int32>)
    | ControlOp
    | DestroyOp(id: string)
    | ReleaseOp
    | ShutdownOp

  /** The registry after `op`; a failed `createSession` leaves it as it was. */
  function Apply(reg: Registry, op: Op): Registry {
    match op
    case CreateOp(headless, freshId, display) =>
      var r := Create(reg, headless, freshId, display);
      if r.Ok? then r.value.0 else reg
    case ControlOp => ControlPrimary(reg).0
    case DestroyOp(id) => Destroy(reg, id)
    case ReleaseOp => ReleasePrimary(reg)
    case ShutdownOp => ShutdownRegistry(reg)
  }

  /** A fresh UUID is never "physical-0" and never one already registered. */
  predicate Admissible(reg: Registry, op: Op) {
    op.CreateOp? ==> op.freshId != PHYSICAL_ID && op.freshId !in reg.sessions
  }

  function Run(reg: Registry, ops: seq<Op>): Registry
    decreases |ops|
  {
    if ops == [] then reg else Run(Apply(reg, ops[0]), ops[1..])
  }

  predicate AdmissibleRun(reg: Registry, ops: seq<Op>)
    decreases |ops|
  {
    ops == [] || (Admissible(reg, ops[0]) && AdmissibleRun(Apply(reg, ops[0]), ops[1..]))
  }

  lemma ApplyKeepsInv(reg: Registry, op: Op)
    requires Inv(reg) && Admissible(reg, op)
    ensures Inv(Apply(reg, op))
  {
    match op
    case CreateOp(headless, freshId, display) => CreateKeepsInv(reg, headless, freshId, display);
    case ControlOp => ControlPrimaryKeepsInv(reg);
    case DestroyOp(id) => DestroyKeepsInv(reg, id);
    case ReleaseOp => ReleasePrimaryKeepsInv(reg);
    case ShutdownOp => ShutdownKeepsInv(reg);
  }

  lemma {:induction false} RunKeepsInv(reg: Registry, ops: seq<Op>)
    requires Inv(reg) && AdmissibleRun(reg, ops)
    ensures Inv(Run(reg, ops))
    decreases |ops|
  {
    if ops != [] {
      ApplyKeepsInv(reg, ops[0]);
      RunKeepsInv(Apply(reg, ops[0]), ops[1..]);
    }
  }

  /**
   * Whatever calls reach the manager, starting from the empty registry it
   * never holds more than ten headless sessions nor more than eleven in all.
   */
  lemma ReachableWithinCapacity(ops: seq<Op>)
    requires AdmissibleRun(Registry(map[], None), ops)
    ensures Inv(Run(Registry(map[], None), ops))
    ensures |HeadlessIds(Run(Registry(map[], None), ops))| <= MAX_SESSIONS
    ensures |Run(Registry(map[], None), ops).sessions| <= MAX_SESSIONS + 1
  {
    ShutdownKeepsInv(Registry(map[], None));
    RunKeepsInv(Registry(map[], None), ops);
    RegistrySize(Run(Registry(map[], None), ops));
  }

  // ---------------------------------------------------------------- what each operation does

  /** At capacity `createSession` fails for headless and physical alike, leaving the registry as it was. */
  lemma CreateAtCapacityFails(reg: Registry, headless: bool, freshId: string, display: Result<int32>)
    requires |reg.sessions| >= MAX_SESSIONS
    ensures Create(reg, headless, freshId, display) == Err(CapacityExceeded)
  {
  }

  /** Below capacity a physical `createSession` fails exactly when the slot is held, and otherwise takes the slot. */
  lemma CreatePhysical(reg: Registry, freshId: string, display: Result<int32>)
    requires Inv(reg) && |reg.sessions| < MAX_SESSIONS
    ensures Create(reg, false, freshId, display).Err? <==> reg.slot.Some?
    ensures reg.slot.Some? ==> Create(reg, false, freshId, display) == Err(PhysicalDisplayBusy)
    ensures reg.slot.None? ==> var (reg', id) := Create(reg, false, freshId, display).value;
      id == PHYSICAL_ID && reg'.slot == Some(id)
      && reg'.sessions == reg.sessions[id := Entry(false, PHYSICAL_DISPLAY_ID)]
      && |reg'.sessions| == |reg.sessions| + 1
  {
  }

  /** A headless `createSession` below capacity adds exactly one entry, under the fresh id, and leaves the slot alone. */
  lemma CreateHeadlessAddsOne(reg: Registry, freshId: string, d: int32)
    requires |reg.sessions| < MAX_SESSIONS && freshId !in reg.sessions
    ensures var (reg', id) := Create(reg, true, freshId, Ok(d)).value;
      id == freshId && reg'.slot == reg.slot
      && Lookup(reg', id) == Some(Entry(true, d))
      && (forall other :: other != id ==> Lookup(reg', other) == Lookup(reg, other))
      && |reg'.sessions| == |reg.sessions| + 1
  {
  }

  /** When the platform rejects or refuses the display, a headless `createSession` fails with the platform's error. */
  lemma CreateHeadlessWithoutDisplay(reg: Registry, freshId: string, e: Error)
    requires |reg.sessions| < MAX_SESSIONS
    ensures Create(reg, true, freshId, Err(e)) == Err(e)
  {
  }

  /** Taking the primary display twice yields the same session and the second call changes nothing. */
  lemma ControlPrimaryIdempotent(reg: Registry)
    requires Inv(reg)
    ensures var (reg1, id1) := ControlPrimary(reg);
      ControlPrimary(reg1) == (reg1, id1) && id1 == PHYSICAL_ID
  {
  }

  /** With ten headless sessions `controlPrimaryDisplay` still succeeds and the registry reaches eleven. */
  lemma ControlPrimaryIgnoresCapacity(reg: Registry)
    requires Inv(reg) && reg.slot.None? && |reg.sessions| == MAX_SESSIONS
    ensures |ControlPrimary(reg).0.sessions| == MAX_SESSIONS + 1
  {
  }

  /** Destroying an unknown id changes nothing. */
  lemma DestroyAbsent(reg: Registry, id: string)
    requires id !in reg.sessions
    ensures Destroy(reg, id) == reg
  {
  }

  /**
   * Destroying a registered id removes it and nothing else, and clears the
   * slot only when the slot names it; destroying it again changes nothing.
   */
  lemma DestroyPresent(reg: Registry, id: string)
    requires id in reg.sessions
    ensures Lookup(Destroy(reg, id), id).None?
    ensures forall other :: other != id ==> Lookup(Destroy(reg, id), other) == Lookup(reg, other)
    ensures Destroy(reg, id).slot.None? <==> (reg.slot.None? || reg.slot == Some(id))
    ensures Destroy(Destroy(reg, id), id) == Destroy(reg, id)
  {
  }

  /** Releasing an empty slot changes nothing; otherwise only the slot's session goes, with the slot. */
  lemma ReleasePrimaryEffect(reg: Registry)
    requires Inv(reg)
    ensures reg.slot.None? ==> ReleasePrimary(reg) == reg
    ensures ReleasePrimary(reg).slot.None? && Lookup(ReleasePrimary(reg), PHYSICAL_ID).None?
    ensures forall other :: other != PHYSICAL_ID ==> Lookup(ReleasePrimary(reg), other) == Lookup(reg, other)
  {
  }

  /** Releasing the primary display is destroying the slot's session. */
  lemma ReleaseIsDestroyOfSlot(reg: Registry)
    requires Inv(reg)
    ensures ReleasePrimary(reg) == Destroy(reg, PHYSICAL_ID)
  {
  }

  /** Destroying one session at capacity makes room for a headless one. */
  lemma DestroyMakesRoom(reg: Registry, id: string, freshId: string, d: int32)
    requires |reg.sessions| == MAX_SESSIONS && id in reg.sessions
    ensures Create(Destroy(reg, id), true, freshId, Ok(d)).Ok?
  {
    assert |Destroy(reg, id).sessions| == MAX_SESSIONS - 1;
  }

  // ---------------------------------------------------------------- from sessions to entries

  /** `reg` records exactly the sessions of `m`, and its slot names `slot`'s session. */
  ghost predicate Describes(reg: Registry, m: map<string, Session>, slot: Session?) {
    reg.sessions.Keys == m.Keys
    && (forall id :: id in m ==> reg.sessions[id] == Entry(m[id].IsHeadless(), m[id].displayId))
    && reg.slot == (if slot == null then None else Some(slot.id))
  }

  lemma SameKeysSameSize<U, V>(a: map<string, U>, b: map<string, V>)
    requires a.Keys == b.Keys
    ensures |a| == |b|
  {
    assert |a.Keys| == |a| && |b.Keys| == |b|;
  }

  /** Each session is keyed by its own id and not destroyed; so no session object is stored twice. */
  ghost predicate LiveIn(m: map<string, Session>)
    reads m.Values
  {
    forall id :: id in m ==> m[id].id == id && !m[id].destroyed
  }

  lemma PutKeepsLive(m: map<string, Session>, s: Session)
    requires LiveIn(m) && !s.destroyed
    ensures LiveIn(m[s.id := s])
  {
  }

  lemma DescribesPut(reg: Registry, m: map<string, Session>, slot: Session?, s: Session, takeSlot: bool)
    requires Describes(reg, m, slot)
    ensures Describes(Registry(reg.sessions[s.id := Entry(s.IsHeadless(), s.displayId)], if takeSlot then Some(s.id) else reg.slot),
                      m[s.id := s], if takeSlot then s else slot)
  {
  }

  lemma RemoveKeepsLive(m: map<string, Session>, id: string)
    requires LiveIn(m)
    ensures LiveIn(m - {id})
  {
  }

  lemma DescribesRemove(reg: Registry, m: map<string, Session>, slot: Session?, id: string)
    requires Describes(reg, m, slot) && id in m
    ensures Describes(Destroy(reg, id), m - {id}, if slot != null && slot.id == id then null else slot)
  {
  }

  /** Every object a session of `m` may close or release. */
  ghost function FootprintOf(m: map<string, Session>): set<object> {
    set id, o | id in m && o in m[id].Owned() :: o
  }

  lemma OwnedInFootprint(m: map<string, Session>, id: string)
    requires id in m
    ensures m[id].Owned() <= FootprintOf(m)
  {
  }

  /** The ids of the headless sessions of `m` whose display will throw on release. */
  function Failing(m: map<string, Session>): set<string> {
    set id | id in m && m[id].IsHeadless() && m[id].virtualDisplay.releaseThrows
  }

  /** One more id leaves `remaining`: the failed ones among those done grow by it exactly when it fails. */
  lemma CountStep(fails: set<string>, remaining: set<string>, failed: set<string>, id: string)
    requires failed == fails - remaining && id in remaining
    ensures fails - (remaining - {id}) == if id in fails then failed + {id} else failed
    ensures id !in failed && |failed + {id}| == |failed| + 1
  {
  }

  /** Destroys the session under `id`, leaving every other session of `m` as it was. */
  method DestroyMember(m: map<string, Session>, id: string) returns (outcome: Outcome)
    requires id in m && !m[id].destroyed
    requires forall k :: k in m ==> m[k].id == k
    modifies m[id].Owned()
    ensures outcome.Fail? <==> id in Failing(m)
    ensures forall k :: k in m ==> m[k].destroyed == (k == id || old(m[k].destroyed))
  {
    outcome := m[id].Destroy();
  }

  /**
   * Destroys every session of `m`, in no particular order, going on past a
   * destroy that fails; returns how many failed.
   */
  method DestroyAll(m: map<string, Session>) returns (failures: nat)
    requires LiveIn(m)
    modifies FootprintOf(m)
    ensures forall id :: id in m ==> m[id].destroyed
    ensures failures == |Failing(m)|
  {
    failures := 0;
    ghost var failed: set<string> := {};
    var remaining := m.Keys;
    while remaining != {}
      invariant remaining <= m.Keys
      invariant forall id :: id in m ==> (m[id].destroyed <==> id !in remaining)
      invariant failed == Failing(m) - remaining
      invariant failures == |failed|
      decreases remaining
    {
      var id :| id in remaining;
      OwnedInFootprint(m, id);
      var outcome := DestroyMember(m, id);
      CountStep(Failing(m), remaining, failed, id);
      if outcome.Fail? {
        failures := failures + 1;
        failed := failed + {id};
      }
      remaining := remaining - {id};
    }
    assert failed == Failing(m);
  }

  // ---------------------------------------------------------------- the service's registry

  class SessionManager {
    var sessions: map<string, Session>
    var physicalDisplaySession: Session?
    /** What the registry records. */
    ghost var model: Registry

    const displays: VirtualDisplayManager
    const injector: Input.InputInjector
    const capturer: ScreenCapture.ScreenCapturer
    const executor: SystemExecution.SystemExecutor
    const starter: ActivityStarter
    /** The primary display's mode and density. */
    const primaryMode: DisplayMode

    /** The slot holds the session registered as "physical-0". */
    ghost predicate SlotHeld()
      reads this
    {
      physicalDisplaySession != null ==> PHYSICAL_ID in sessions && sessions[PHYSICAL_ID] == physicalDisplaySession
    }

    ghost predicate Valid()
      reads this, sessions.Values
    {
      LiveIn(sessions) && SlotHeld() && Describes(model, sessions, physicalDisplaySession) && Structure(model)
    }

    constructor (displays: VirtualDisplayManager, injector: Input.InputInjector, capturer: ScreenCapture.ScreenCapturer,
                 executor: SystemExecution.SystemExecutor, starter: ActivityStarter, primaryMode: DisplayMode)
      ensures Valid() && model == Registry(map[], None)
      ensures this.displays == displays && this.injector == injector && this.capturer == capturer
      ensures this.executor == executor && this.starter == starter && this.primaryMode == primaryMode
    {
      sessions := map[];
      physicalDisplaySession := null;
      model := Registry(map[], None);
      this.displays := displays;
      this.injector := injector;
      this.capturer := capturer;
      this.executor := executor;
      this.starter := starter;
      this.primaryMode := primaryMode;
      new;
    }

    /**
     * `createSession`: as `Create` on the registry, with `freshId` standing
     * for the random UUID and the display the platform would create.
     */
    method CreateSession(config: SessionConfig, freshId: string) returns (r: Result<Session>)
      requires Valid()
      requires freshId != PHYSICAL_ID && freshId !in sessions
      modifies this, displays
      ensures Valid()
      ensures var spec := Create(old(model), config.headless, freshId,
                                 Allocation(old(displays.refuses), old(displays.nextDisplayId), config.width, config.height, config.dpi));
        (spec.Err? ==> r == Err(spec.error) && model == old(model) && sessions == old(sessions))
        && (spec.Ok? ==> r.Ok? && model == spec.value.0 && r.value.id == spec.value.1
                          && fresh(r.value) && sessions == old(sessions)[r.value.id := r.value])
      ensures r.Ok? ==> r.value.Valid()
      ensures r.Ok? ==> r.value.config == (if config.headless then config
                                         else SessionConfig(primaryMode.physicalWidth, primaryMode.physicalHeight, primaryMode.densityDpi, false))
    {
      SameKeysSameSize(model.sessions, sessions);
      if |sessions| >= MAX_SESSIONS {
        return Err(CapacityExceeded);
      }
      var made := Open(config, freshId);
      if made.Err? {
        return Err(made.error);
      }
      var session := made.value;
      Register(session, !config.headless);
      r := Ok(session);
    }

    /**
     * The session `createSession` makes once capacity allows it: a headless
     * one on a new virtual display, or the physical one unless the slot is
     * held.
     */
    method Open(config: SessionConfig, freshId: string) returns (r: Result<Session>)
      modifies displays
      ensures var a := Allocation(old(displays.refuses), old(displays.nextDisplayId), config.width, config.height, config.dpi);
        (r.Err? <==> (if config.headless then a.Err? else physicalDisplaySession != null))
        && (r.Err? ==> r.error == (if config.headless then a.error else PhysicalDisplayBusy))
      ensures r.Ok? ==> fresh(r.value) && r.value.Valid() && !r.value.destroyed
      ensures r.Ok? ==> r.value.IsHeadless() == config.headless
      ensures r.Ok? ==> r.value.id == (if config.headless then freshId else PHYSICAL_ID)
      ensures r.Ok? ==> r.value.displayId == (if config.headless then old(displays.nextDisplayId) else PHYSICAL_DISPLAY_ID)
      ensures r.Ok? ==> r.value.config == (if config.headless then config
                                          else SessionConfig(primaryMode.physicalWidth, primaryMode.physicalHeight, primaryMode.densityDpi, false))
    {
      if config.headless {
        r := Session.CreateHeadless(freshId, config, displays, injector, capturer, executor, starter);
      } else if physicalDisplaySession != null {
        r := Err(PhysicalDisplayBusy);
      } else {
        var session := Session.CreatePhysical(primaryMode, injector, capturer, executor, starter);
        r := Ok(session);
      }
    }

    /** Adds a live session under its own id, putting it in the slot when `takeSlot` is set. */
    method Register(s: Session, takeSlot: bool)
      requires Valid() && s.id !in sessions && !s.destroyed
      requires takeSlot ==> s.id == PHYSICAL_ID && physicalDisplaySession == null
      requires !takeSlot ==> s.id != PHYSICAL_ID
      requires Structure(Registry(model.sessions[s.id := Entry(s.IsHeadless(), s.displayId)],
                            if takeSlot then Some(s.id) else model.slot))
      modifies this
      ensures Valid()
      ensures sessions == old(sessions)[s.id := s]
      ensures physicalDisplaySession == if takeSlot then s else old(physicalDisplaySession)
      ensures model == Registry(old(model).sessions[s.id := Entry(s.IsHeadless(), s.displayId)],
                                if takeSlot then Some(s.id) else old(model).slot)
    {
      var m := sessions[s.id := s];
      var slot := if takeSlot then s else physicalDisplaySession;
      ghost var reg := Registry(model.sessions[s.id := Entry(s.IsHeadless(), s.displayId)], if takeSlot then Some(s.id) else model.slot);
      PutKeepsLive(sessions, s);
      DescribesPut(model, sessions, physicalDisplaySession, s, takeSlot);
      sessions, physicalDisplaySession, model := m, slot, reg;
    }

    /**
     * Takes the session under `id` out of the registry, and out of the slot
     * if it is there, leaving it to the caller to destroy.
     */
    method Unregister(id: string) returns (s: Session)
      requires Valid() && id in sessions
      modifies this
      ensures Valid()
      ensures s == old(sessions[id]) && s.id == id && !s.destroyed && s.IsHeadless() == (id != PHYSICAL_ID)
      ensures sessions == old(sessions) - {id}
      ensures physicalDisplaySession == if old(physicalDisplaySession) == s then null else old(physicalDisplaySession)
      ensures model == Destroy(old(model), id)
    {
      s := sessions[id];
      var m := sessions - {id};
      var slot := if physicalDisplaySession != null && physicalDisplaySession.id == id then null else physicalDisplaySession;
      ghost var reg := Destroy(model, id);
      RemoveKeepsLive(sessions, id);
      DescribesRemove(model, sessions, physicalDisplaySession, id);
      sessions, physicalDisplaySession, model := m, slot, reg;
    }

    /** `getSession`: the live session registered under `id`, if any. */
    function GetSession(id: string): (s: Session?)
      requires Valid()
      reads this, sessions.Values
      ensures s == null <==> Lookup(model, id).None?
      ensures s != null ==> s.id == id && !s.destroyed && Lookup(model, id) == Some(Entry(s.IsHeadless(), s.displayId))
    {
      if id in sessions then sessions[id] else null
    }

    /** `listSessionIds`: every registered id, once each. */
    method ListSessionIds() returns (ids: seq<string>)
      requires Valid()
      ensures forall id :: id in ids <==> id in model.sessions
      ensures forall i, j :: 0 <= i < j < |ids| ==> ids[i] != ids[j]
      ensures |ids| == |model.sessions|
    {
      ids := [];
      var remaining := sessions.Keys;
      SameKeysSameSize(model.sessions, sessions);
      while remaining != {}
        invariant remaining <= sessions.Keys
        invariant forall id :: id in ids <==> id in sessions && id !in remaining
        invariant forall i, j :: 0 <= i < j < |ids| ==> ids[i] != ids[j]
        invariant |ids| + |remaining| == |sessions|
        decreases remaining
      {
        var id :| id in remaining;
        ids := ids + [id];
        remaining := remaining - {id};
      }
    }

    /**
     * `destroySession`: unregisters the id, frees the slot if it held that
     * session, then destroys the session; only that destroy can fail.
     */
    method DestroySession(id: string) returns (r: Outcome)
      requires Valid()
      modifies this, if id in sessions then sessions[id].Owned() else {}
      ensures Valid()
      ensures model == Destroy(old(model), id)
      ensures sessions == old(sessions) - {id}
      ensures id !in old(sessions) ==> r == Pass
      ensures id in old(sessions) ==> old(sessions)[id].destroyed
      ensures id in old(sessions) ==>
        r == (if old(sessions)[id].IsHeadless() && old(sessions)[id].virtualDisplay.releaseThrows then Fail(DisplayReleaseFailed) else Pass)
    {
      if id !in sessions {
        assert sessions == sessions - {id};
        return Pass;
      }
      var session := Unregister(id);
      r := session.Destroy();
    }

    /** `controlPrimaryDisplay`: the held physical session, or a new one put in the slot and registered. */
    method ControlPrimaryDisplay() returns (s: Session)
      requires Valid()
      modifies this
      ensures Valid()
      ensures model == ControlPrimary(old(model)).0 && s.id == ControlPrimary(old(model)).1
      ensures physicalDisplaySession == s && !s.destroyed && !s.IsHeadless()
      ensures old(physicalDisplaySession) != null ==> s == old(physicalDisplaySession) && sessions == old(sessions)
      ensures old(physicalDisplaySession) == null ==> fresh(s) && s.Valid() && sessions == old(sessions)[PHYSICAL_ID := s]
    {
      if physicalDisplaySession != null {
        return physicalDisplaySession;
      }
      s := Session.CreatePhysical(primaryMode, injector, capturer, executor, starter);
      Register(s, true);
    }

    /** `releasePrimaryDisplay`: unregisters and destroys the slot's session, then clears the slot. */
    method ReleasePrimaryDisplay()
      requires Valid()
      modifies this, if physicalDisplaySession != null then physicalDisplaySession.Owned() else {}
      ensures Valid()
      ensures model == ReleasePrimary(old(model))
      ensures physicalDisplaySession == null
      ensures old(physicalDisplaySession) == null ==> sessions == old(sessions)
      ensures old(physicalDisplaySession) != null ==>
        old(physicalDisplaySession).destroyed && sessions == old(sessions) - {PHYSICAL_ID}
    {
      var session := physicalDisplaySession;
      if session == null {
        return;
      }
      var removed := Unregister(session.id);
      var outcome := removed.Destroy();
      // A physical session owns no display, so its destroy cannot fail and the slot is always cleared.
      assert outcome == Pass;
    }

    /**
     * `shutdown`: destroys every registered session, going on past any
     * destroy that fails, then empties the registry and the slot. Returns
     * how many destroys failed.
     */
    method Shutdown() returns (failures: nat)
      requires Valid()
      modifies this, FootprintOf(sessions)
      ensures Valid()
      ensures model == ShutdownRegistry(old(model))
      ensures sessions == map[] && physicalDisplaySession == null
      ensures forall id :: id in old(sessions) ==> old(sessions)[id].destroyed
      ensures failures == |Failing(old(sessions))|
    {
      failures := DestroyAll(sessions);
      sessions, physicalDisplaySession, model := map[], null, ShutdownRegistry(model);
    }
  }
}
