/** The modem module shared by both applications: LTE registration, PSM and the low-power
    entry, with LTE events handled at any point. Every radio command is logged with its
    outcome; which radio may be active is a function of that log alone. */
module Modem {
  import opened Common

  datatype Command =
    | LteNormal(ok: bool) | LteDeactivate(ok: bool) | GnssActivate(ok: bool)
    | GnssStart(ok: bool) | GnssStop(ok: bool) | PsmRequest(enable: bool, ok: bool)

  /** LTE may be active from the moment activation is requested until a deactivation succeeds. */
  predicate LteMaybeActive(log: seq<Command>) {
    log != [] &&
    match log[|log| - 1]
    case LteNormal(_) => true
    case LteDeactivate(true) => false
    case _ => LteMaybeActive(log[..|log| - 1])
  }

  /** GNSS may be running from the moment a start is requested until a stop succeeds. */
  predicate GnssMaybeRunning(log: seq<Command>) {
    log != [] &&
    match log[|log| - 1]
    case GnssStart(_) => true
    case GnssStop(true) => false
    case _ => GnssMaybeRunning(log[..|log| - 1])
  }

  /** A PSM request is outstanding until its withdrawal succeeds. */
  predicate PsmOutstanding(log: seq<Command>) {
    log != [] &&
    var c := log[|log| - 1];
    if c.PsmRequest? && c.enable then true
    else if c.PsmRequest? && c.ok then false
    else PsmOutstanding(log[..|log| - 1])
  }

  /** The flags and semaphores of the modem module, then those of the listener that the
      button-stepped application adds. */
  datatype State = State(
    lteRegistered: bool, psmGranted: bool, inPsm: bool, connectedSem: bool, psmSem: bool,
    appOnline: bool, appInPsm: bool, appSleepSem: bool,
    log: seq<Command>)

  datatype Event = Registration(connected: bool) | PsmUpdate(granted: bool) | PsmEnter | PsmExit | Other

  function Handle(m: State, e: Event): State {
    match e
    case Registration(true) => m.(lteRegistered := true, connectedSem := true, appOnline := true)
    case Registration(false) => m.(lteRegistered := false, appOnline := false)
    case PsmUpdate(granted) => m.(psmGranted := granted)
    case PsmEnter => m.(inPsm := true, psmSem := true, appInPsm := true, appSleepSem := true)
    case PsmExit => m.(inPsm := false, appInPsm := false)
    case Other => m
  }

  function HandleAll(m: State, es: seq<Event>): State
    decreases |es|
  {
    if es == [] then m else HandleAll(Handle(m, es[0]), es[1..])
  }

  datatype Sem = Connected | PsmEntered | AppSleep

  predicate Given(m: State, s: Sem) {
    match s case Connected => m.connectedSem case PsmEntered => m.psmSem case AppSleep => m.appSleepSem
  }

  function Reset(m: State, s: Sem): State {
    match s
    case Connected => m.(connectedSem := false)
    case PsmEntered => m.(psmSem := false)
    case AppSleep => m.(appSleepSem := false)
  }

  /** Wait on `s` while `es` is handled; what is left of `es` after the first give is
      handled before the woken thread goes on. */
  function Take(m: State, s: Sem, es: seq<Event>): (State, bool)
    decreases |es|
  {
    if Given(m, s) then (HandleAll(Reset(m, s), es), true)
    else if es == [] then (m, false)
    else Take(Handle(m, es[0]), s, es[1..])
  }

  /** A mode change: the events handled between the decision for it and the statements that
      prepare it, those handled from there to its end, and its result. */
  datatype ModeWorld = ModeWorld(before: seq<Event>, during: seq<Event>, err: int)

  function Issue(m: State, c: Command): State {
    m.(log := m.log + [c])
  }

  function ReturnToGnss(m: State, w: ModeWorld): (State, int) {
    var m1 := HandleAll(m, w.before).(lteRegistered := false, psmGranted := false, inPsm := false);
    (HandleAll(Issue(m1, LteDeactivate(w.err == 0)), w.during), w.err)
  }

  /** The listener's record of a PSM entry is dropped; `es` is handled between the
      semaphore and the flag. */
  function ForgetSleep(m: State, es: seq<Event>): State {
    HandleAll(Reset(m, AppSleep), es).(appInPsm := false)
  }

  datatype UploadWorld = UploadWorld(before: seq<Event>, mode: ModeWorld, waiting: seq<Event>)

  function PrepareUpload(m: State, w: UploadWorld): (State, int) {
    var m0 := HandleAll(m, w.before);
    if m0.lteRegistered then (m0, 0)
    else
      var m1 := HandleAll(Issue(Reset(HandleAll(m0, w.mode.before), Connected), LteNormal(w.mode.err == 0)), w.mode.during);
      if w.mode.err != 0 then (m1, w.mode.err)
      else
        var (m2, taken) := Take(m1, Connected, w.waiting);
        (m2, if taken then 0 else -ETIMEDOUT)
  }

  /** `betweenReads` is handled between the reads of the registration and the grant flag,
      `beforeReset` from there to the semaphore reset, `beforeCheck` from there to the check
      of the PSM flag, `waiting` during the wait, `afterTimeout` between its end and the
      second check. */
  datatype LowPowerWorld = LowPowerWorld(
    before: seq<Event>, betweenReads: seq<Event>, beforeReset: seq<Event>, beforeCheck: seq<Event>,
    waiting: seq<Event>, afterTimeout: seq<Event>, mode: ModeWorld)

  /** The entry as far as the semaphore reset; `None` if it falls back before. */
  function AtReset(m: State, w: LowPowerWorld): Option<State> {
    var m0 := HandleAll(m, w.before);
    var m1 := HandleAll(m0, w.betweenReads);
    if m0.lteRegistered && m1.psmGranted then Some(HandleAll(m1, w.beforeReset)) else None
  }

  function EnterLowPower(m: State, w: LowPowerWorld): (State, int) {
    var m0 := HandleAll(m, w.before);
    if !m0.lteRegistered then ReturnToGnss(m0, w.mode)
    else
      var m1 := HandleAll(m0, w.betweenReads);
      if !m1.psmGranted then ReturnToGnss(m1, w.mode)
      else
        var m2 := HandleAll(Reset(HandleAll(m1, w.beforeReset), PsmEntered), w.beforeCheck);
        if m2.inPsm then (m2, 0) else AwaitPsm(m2, w)
  }

  function AwaitPsm(m: State, w: LowPowerWorld): (State, int) {
    var (m1, taken) := Take(m, PsmEntered, w.waiting);
    if taken then (m1, 0)
    else
      var m2 := HandleAll(m1, w.afterTimeout);
      if m2.inPsm then (m2, 0) else ReturnToGnss(m2, w.mode)
  }

  datatype InitWorld = InitWorld(libErr: int, paramErr: int, psmErr: int, mode: ModeWorld, activateErr: int)

  const POWER_ON := State(false, false, false, false, false, false, false, false, [])

  function Initialize(w: InitWorld): (State, int) {
    if w.libErr != 0 then (POWER_ON, w.libErr)
    else if w.paramErr != 0 then (POWER_ON, w.paramErr)
    else
      var (m, err) := ReturnToGnss(Issue(POWER_ON, PsmRequest(true, w.psmErr == 0)), w.mode);
      if err != 0 then (m, err) else (Issue(m, GnssActivate(w.activateErr == 0)), w.activateErr)
  }

  // ---- What the events leave behind ---------------------------------------------------

  /** The PSM flag after `es`: the last entry or exit decides. */
  function PsmFlag(es: seq<Event>, default: bool): bool {
    if es == [] then default
    else if es[|es| - 1].PsmEnter? then true
    else if es[|es| - 1].PsmExit? then false
    else PsmFlag(es[..|es| - 1], default)
  }

  /** The registration after `es`: the last registration event decides. */
  function Registered(es: seq<Event>, default: bool): bool {
    if es == [] then default
    else if es[|es| - 1].Registration? then es[|es| - 1].connected
    else Registered(es[..|es| - 1], default)
  }

  /** Whether PSM is granted after `es`: the last update decides. */
  function Granted(es: seq<Event>, default: bool): bool {
    if es == [] then default
    else if es[|es| - 1].PsmUpdate? then es[|es| - 1].granted
    else Granted(es[..|es| - 1], default)
  }

  /** The flags of the module, then those of the listener. */
  datatype Flags = Flags(registered: bool, granted: bool, asleep: bool, online: bool, appAsleep: bool)

  function FlagsOf(m: State): Flags {
    Flags(m.lteRegistered, m.psmGranted, m.inPsm, m.appOnline, m.appInPsm)
  }

  function FlagsAfter(f: Flags, es: seq<Event>): Flags {
    Flags(Registered(es, f.registered), Granted(es, f.granted), PsmFlag(es, f.asleep),
          Registered(es, f.online), PsmFlag(es, f.appAsleep))
  }

  lemma {:induction false} HandleAllSplit(m: State, a: seq<Event>, b: seq<Event>)
    ensures HandleAll(m, a + b) == HandleAll(HandleAll(m, a), b)
    decreases |a|
  {
    if a == [] {
      assert a + b == b;
    } else {
      assert (a + b)[1..] == a[1..] + b;
      HandleAllSplit(Handle(m, a[0]), a[1..], b);
    }
  }

  /** Everything the events leave behind. */
  ghost predicate Effect(m: State, es: seq<Event>, r: State) {
    r.log == m.log && FlagsOf(r) == FlagsAfter(FlagsOf(m), es) && SemsAfter(m, es, r)
  }

  ghost predicate SemsAfter(m: State, es: seq<Event>, r: State) {
    && (r.psmSem <==> m.psmSem || PsmEnter in es)
    && (r.appSleepSem <==> m.appSleepSem || PsmEnter in es)
    && (r.connectedSem <==> m.connectedSem || Registration(true) in es)
  }

  lemma FlagsStep(f: Flags, es: seq<Event>, r: State, e: Event)
    requires FlagsOf(r) == FlagsAfter(f, es)
    ensures FlagsOf(Handle(r, e)) == FlagsAfter(f, es + [e])
  {
    RegisteredStep(es, e, f.registered);
    RegisteredStep(es, e, f.online);
    GrantedStep(es, e, f.granted);
    PsmStep(es, e, f.asleep);
    PsmStep(es, e, f.appAsleep);
  }

  lemma RegisteredStep(es: seq<Event>, e: Event, default: bool)
    ensures Registered(es + [e], default) == if e.Registration? then e.connected else Registered(es, default)
  {
    assert (es + [e])[..|es|] == es;
  }

  lemma GrantedStep(es: seq<Event>, e: Event, default: bool)
    ensures Granted(es + [e], default) == if e.PsmUpdate? then e.granted else Granted(es, default)
  {
    assert (es + [e])[..|es|] == es;
  }

  lemma PsmStep(es: seq<Event>, e: Event, default: bool)
    ensures PsmFlag(es + [e], default) == if e.PsmEnter? then true else if e.PsmExit? then false else PsmFlag(es, default)
  {
    assert (es + [e])[..|es|] == es;
  }

  lemma SemsStep(m: State, es: seq<Event>, r: State, e: Event)
    requires SemsAfter(m, es, r)
    ensures SemsAfter(m, es + [e], Handle(r, e))
  {
    InAppend(es, e, PsmEnter);
    InAppend(es, e, Registration(true));
  }

  lemma EffectStep(m: State, es: seq<Event>, r: State, e: Event)
    requires Effect(m, es, r)
    ensures Effect(m, es + [e], Handle(r, e))
  {
    FlagsStep(FlagsOf(m), es, r, e);
    SemsStep(m, es, r, e);
  }

  lemma InAppend(es: seq<Event>, e: Event, x: Event)
    ensures x in es + [e] <==> x in es || x == e
  {
  }

  lemma {:induction false} HandleAllEffect(m: State, es: seq<Event>)
    ensures Effect(m, es, HandleAll(m, es))
  {
    if es == [] {
    } else {
      var k := |es| - 1;
      assert es == es[..k] + [es[k]];
      HandleAllSplit(m, es[..k], [es[k]]);
      HandleAllEffect(m, es[..k]);
      assert [es[k]][1..] == [];
      EffectStep(m, es[..k], HandleAll(m, es[..k]), es[k]);
    }
  }

  /** The event that gives `s`. */
  function Signal(s: Sem): Event {
    match s case Connected => Registration(true) case PsmEntered => PsmEnter case AppSleep => PsmEnter
  }

  /** The state but for its semaphores. */
  function Core(m: State): State {
    m.(connectedSem := false, psmSem := false, appSleepSem := false)
  }

  lemma CoreHandle(m: State, e: Event)
    ensures Core(Handle(m, e)) == Core(Handle(Core(m), e))
  {
    // The semaphores an event gives are not part of the core.
    match e
    case Registration(true) =>
    case Registration(false) =>
    case _ =>
  }

  lemma {:induction false} CoreOnly(m: State, n: State, es: seq<Event>)
    requires Core(m) == Core(n)
    ensures Core(HandleAll(m, es)) == Core(HandleAll(n, es))
    decreases |es|
  {
    if es == [] {
    } else {
      CoreHandle(m, es[0]);
      CoreHandle(n, es[0]);
      CoreOnly(Handle(m, es[0]), Handle(n, es[0]), es[1..]);
    }
  }

  lemma {:induction false} TakeCore(m: State, s: Sem, es: seq<Event>)
    ensures Core(Take(m, s, es).0) == Core(HandleAll(m, es))
    ensures !Take(m, s, es).1 ==> Take(m, s, es).0 == HandleAll(m, es)
    decreases |es|
  {
    if Given(m, s) {
      CoreOnly(Reset(m, s), m, es);
    } else if es != [] {
      TakeCore(Handle(m, es[0]), s, es[1..]);
    }
  }

  lemma GivenHandle(m: State, s: Sem, e: Event)
    ensures Given(Handle(m, e), s) <==> Given(m, s) || e == Signal(s)
  {
  }

  lemma InFront(es: seq<Event>, x: Event)
    requires es != []
    ensures x in es <==> x == es[0] || x in es[1..]
  {
    assert es == [es[0]] + es[1..];
  }

  lemma {:induction false} TakeGiven(m: State, s: Sem, es: seq<Event>)
    ensures Take(m, s, es).1 <==> Given(m, s) || Signal(s) in es
    decreases |es|
  {
    if !Given(m, s) && es != [] {
      TakeGiven(Handle(m, es[0]), s, es[1..]);
      GivenHandle(m, s, es[0]);
      InFront(es, Signal(s));
    }
  }

  /** A wait succeeds exactly when the semaphore was given before or during it, and
      otherwise leaves behind what the events do. */
  lemma TakeEffect(m: State, s: Sem, es: seq<Event>)
    ensures var (r, taken) := Take(m, s, es);
      && (taken <==> Given(m, s) || Signal(s) in es)
      && (!taken ==> r == HandleAll(m, es))
      && r.log == m.log && FlagsOf(r) == FlagsAfter(FlagsOf(m), es)
  {
    TakeGiven(m, s, es);
    TakeCore(m, s, es);
    HandleAllEffect(m, es);
  }

  /** A wait uses up what it waited for: if the semaphore was given at most once in all, it is
      not given afterwards. */
  lemma {:induction false} TakeConsumes(m: State, s: Sem, es: seq<Event>)
    requires Given(m, s) ==> Signal(s) !in es
    requires forall i, j :: 0 <= i < j < |es| && es[i] == Signal(s) ==> es[j] != Signal(s)
    ensures !Given(Take(m, s, es).0, s)
    decreases |es|
  {
    if Given(m, s) {
      StaysTaken(Reset(m, s), s, es);
    } else if es == [] {
    } else {
      var rest := es[1..];
      assert es[0] == Signal(s) ==> Signal(s) !in rest;
      assert forall i :: 0 <= i < |rest| ==> rest[i] == es[i + 1];
      GivenHandle(m, s, es[0]);
      TakeConsumes(Handle(m, es[0]), s, rest);
    }
  }

  lemma {:induction false} StaysTaken(m: State, s: Sem, es: seq<Event>)
    requires !Given(m, s) && Signal(s) !in es
    ensures !Given(HandleAll(m, es), s)
    decreases |es|
  {
    if es == [] {
    } else {
      InFront(es, Signal(s));
      GivenHandle(m, s, es[0]);
      StaysTaken(Handle(m, es[0]), s, es[1..]);
    }
  }

  lemma {:induction false} PsmSplit(a: seq<Event>, b: seq<Event>, default: bool)
    ensures PsmFlag(a + b, default) == PsmFlag(b, PsmFlag(a, default))
  {
    if b == [] {
      assert a + b == a;
    } else {
      assert (a + b)[..|a + b| - 1] == a + b[..|b| - 1];
      PsmSplit(a, b[..|b| - 1], default);
    }
  }

  lemma PsmThrough(a: seq<Event>, b: seq<Event>, c: seq<Event>, default: bool)
    ensures PsmFlag(a + b + c, default) == PsmFlag(b + c, PsmFlag(a, default))
  {
    PsmSplit(a, b + c, default);
    assert a + b + c == a + (b + c);
  }

  lemma {:induction false} RegisteredSplit(a: seq<Event>, b: seq<Event>, default: bool)
    ensures Registered(a + b, default) == Registered(b, Registered(a, default))
  {
    if b == [] {
      assert a + b == a;
    } else {
      assert (a + b)[..|a + b| - 1] == a + b[..|b| - 1];
      RegisteredSplit(a, b[..|b| - 1], default);
    }
  }

  lemma {:induction false} GrantedSplit(a: seq<Event>, b: seq<Event>, default: bool)
    ensures Granted(a + b, default) == Granted(b, Granted(a, default))
  {
    if b == [] {
      assert a + b == a;
    } else {
      assert (a + b)[..|a + b| - 1] == a + b[..|b| - 1];
      GrantedSplit(a, b[..|b| - 1], default);
    }
  }

  lemma FlagsSplit(f: Flags, a: seq<Event>, b: seq<Event>)
    ensures FlagsAfter(f, a + b) == FlagsAfter(FlagsAfter(f, a), b)
  {
    RegisteredSplit(a, b, f.registered);
    RegisteredSplit(a, b, f.online);
    GrantedSplit(a, b, f.granted);
    PsmSplit(a, b, f.asleep);
    PsmSplit(a, b, f.appAsleep);
  }

  // ---- The return to GNSS and the upload ----------------------------------------------

  lemma ReturnLogs(m: State, w: ModeWorld)
    ensures ReturnToGnss(m, w).0.log == m.log + [LteDeactivate(w.err == 0)]
    ensures ReturnToGnss(m, w).1 == w.err
  {
    var m0 := HandleAll(m, w.before);
    HandleAllEffect(m, w.before);
    HandleAllEffect(Issue(m0.(lteRegistered := false, psmGranted := false, inPsm := false), LteDeactivate(w.err == 0)), w.during);
  }

  /** The flags of the module are what the events since they were cleared leave, whatever they
      were before and whether or not the deactivation succeeds; the listener's see every event. */
  lemma ReturnClears(m: State, w: ModeWorld)
    ensures FlagsOf(ReturnToGnss(m, w).0) ==
      Flags(Registered(w.during, false), Granted(w.during, false), PsmFlag(w.during, false),
            Registered(w.before + w.during, m.appOnline), PsmFlag(w.before + w.during, m.appInPsm))
  {
    var m0 := HandleAll(m, w.before);
    HandleAllEffect(m, w.before);
    HandleAllEffect(Issue(m0.(lteRegistered := false, psmGranted := false, inPsm := false), LteDeactivate(w.err == 0)), w.during);
    RegisteredSplit(w.before, w.during, m.appOnline);
    PsmSplit(w.before, w.during, m.appInPsm);
  }

  /** The upload finds the registration held. */
  predicate Held(f: Flags, w: UploadWorld) {
    Registered(w.before, f.registered)
  }

  /** The events an upload sees. */
  function UploadSeen(f: Flags, w: UploadWorld): seq<Event> {
    w.before +
    if Held(f, w) then []
    else w.mode.before + w.mode.during + (if w.mode.err != 0 then [] else w.waiting)
  }

  /** An upload is prepared without touching the radio exactly when the registration is still
      held; otherwise LTE is activated, and success means a registration was handled after
      the semaphore reset. */
  lemma UploadPrepared(m: State, w: UploadWorld)
    ensures var (r, err) := PrepareUpload(m, w);
      && r.log == (if Held(FlagsOf(m), w) then m.log else m.log + [LteNormal(w.mode.err == 0)])
      && err == (
           if Held(FlagsOf(m), w) then 0
           else if w.mode.err != 0 then w.mode.err
           else if Registration(true) in w.mode.during + w.waiting then 0 else -ETIMEDOUT)
      && FlagsOf(r) == FlagsAfter(FlagsOf(m), UploadSeen(FlagsOf(m), w))
  {
    var m0 := HandleAll(m, w.before);
    HandleAllEffect(m, w.before);
    if Held(FlagsOf(m), w) {
      assert UploadSeen(FlagsOf(m), w) == w.before;
    } else {
      var m1 := HandleAll(m0, w.mode.before);
      HandleAllEffect(m0, w.mode.before);
      var m2 := Issue(Reset(m1, Connected), LteNormal(w.mode.err == 0));
      HandleAllEffect(m2, w.mode.during);
      TakeEffect(HandleAll(m2, w.mode.during), Connected, w.waiting);
      var f := FlagsOf(m);
      FlagsSplit(f, w.before, w.mode.before);
      FlagsSplit(f, w.before + w.mode.before, w.mode.during);
      FlagsSplit(f, w.before + w.mode.before + w.mode.during, w.waiting);
      SeenInOrder(f, w);
    }
  }

  lemma SeenInOrder(f: Flags, w: UploadWorld)
    requires !Held(f, w)
    ensures UploadSeen(f, w) ==
      if w.mode.err != 0 then w.before + w.mode.before + w.mode.during
      else w.before + w.mode.before + w.mode.during + w.waiting
  {
  }

  /** An upload after a deactivation activates LTE anew, unless a registration was handled
      since and is the last word. */
  lemma UploadAfterDeactivation(m: State, w: ModeWorld, u: UploadWorld)
    ensures var m1 := ReturnToGnss(m, w).0;
      PrepareUpload(m1, u).0.log ==
        m1.log + (if Registered(w.during + u.before, false) then [] else [LteNormal(u.mode.err == 0)])
  {
    var m1 := ReturnToGnss(m, w).0;
    ReturnClears(m, w);
    RegisteredSplit(w.during, u.before, false);
    UploadPrepared(m1, u);
  }

  /** Initialization succeeds exactly when the library, the PSM parameters, the deactivation
      and the activation of GNSS do; a refused PSM request does not matter. */
  lemma InitializeExactly(w: InitWorld)
    ensures var (m, err) := Initialize(w);
      && (err == 0 <==> w.libErr == 0 && w.paramErr == 0 && w.mode.err == 0 && w.activateErr == 0)
      && (err == 0 ==> m.log == [PsmRequest(true, w.psmErr == 0), LteDeactivate(true), GnssActivate(true)])
  {
    ReturnLogs(Issue(POWER_ON, PsmRequest(true, w.psmErr == 0)), w.mode);
  }

  // ---- The low-power entry ------------------------------------------------------------

  /** The registration and the grant are found at the two reads. */
  predicate Available(f: Flags, w: LowPowerWorld) {
    Registered(w.before, f.registered) && Granted(w.before + w.betweenReads, f.granted)
  }

  /** The PSM flag as it was at the semaphore reset. */
  predicate AsleepAtReset(f: Flags, w: LowPowerWorld) {
    PsmFlag(w.before + w.betweenReads + w.beforeReset, f.asleep)
  }

  /** The entry gives up on PSM: it is not available, or no PSM entry was handled between the
      semaphore reset and the timeout and the flag was clear at both of its checks. */
  predicate FallsBack(f: Flags, w: LowPowerWorld) {
    || !Available(f, w)
    || (&& !PsmFlag(w.beforeCheck, AsleepAtReset(f, w))
        && PsmEnter !in w.beforeCheck + w.waiting
        && !PsmFlag(w.beforeCheck + w.waiting + w.afterTimeout, AsleepAtReset(f, w)))
  }

  /** The events an entry that does not fall back sees from the semaphore reset on. */
  function EntrySeen(f: Flags, w: LowPowerWorld): seq<Event> {
    if PsmFlag(w.beforeCheck, AsleepAtReset(f, w)) then w.beforeCheck
    else if PsmEnter in w.beforeCheck + w.waiting then w.beforeCheck + w.waiting
    else w.beforeCheck + w.waiting + w.afterTimeout
  }

  lemma ToReset(m: State, w: LowPowerWorld)
    ensures HandleAll(m, w.before).log == HandleAll(HandleAll(m, w.before), w.betweenReads).log == m.log
    ensures Available(FlagsOf(m), w) <==> AtReset(m, w).Some?
    ensures AtReset(m, w).Some? ==>
      && AtReset(m, w).value.log == m.log
      && FlagsOf(AtReset(m, w).value) == FlagsAfter(FlagsOf(m), w.before + w.betweenReads + w.beforeReset)
  {
    var m0 := HandleAll(m, w.before);
    var m1 := HandleAll(m0, w.betweenReads);
    HandleAllEffect(m, w.before);
    HandleAllEffect(m0, w.betweenReads);
    HandleAllEffect(m1, w.beforeReset);
    FlagsSplit(FlagsOf(m), w.before, w.betweenReads);
    FlagsSplit(FlagsOf(m), w.before + w.betweenReads, w.beforeReset);
  }

  /** The wait gives up on PSM. */
  predicate Unconfirmed(m: State, w: LowPowerWorld) {
    !m.psmSem && PsmEnter !in w.waiting && !PsmFlag(w.waiting + w.afterTimeout, m.inPsm)
  }

  lemma AwaitLogs(m: State, w: LowPowerWorld)
    ensures var (r, err) := AwaitPsm(m, w);
      if Unconfirmed(m, w) then
        && r.log == m.log + [LteDeactivate(w.mode.err == 0)] && err == w.mode.err
        && r.inPsm == PsmFlag(w.mode.during, false)
        && r.lteRegistered == Registered(w.mode.during, false) && r.psmGranted == Granted(w.mode.during, false)
      else
        && r.log == m.log && err == 0
        && FlagsOf(r) == FlagsAfter(FlagsOf(m), w.waiting + (if m.psmSem || PsmEnter in w.waiting then [] else w.afterTimeout))
  {
    TakeEffect(m, PsmEntered, w.waiting);
    var m1 := Take(m, PsmEntered, w.waiting).0;
    HandleAllEffect(m1, w.afterTimeout);
    FlagsSplit(FlagsOf(m), w.waiting, w.afterTimeout);
    assert w.waiting + [] == w.waiting;
    ReturnLogs(HandleAll(m1, w.afterTimeout), w.mode);
    ReturnClears(HandleAll(m1, w.afterTimeout), w.mode);
  }

  /** The entry deactivated LTE: the only command it can issue. */
  predicate Deactivated(m: State, r: State, w: LowPowerWorld) {
    r.log == m.log + [LteDeactivate(w.mode.err == 0)]
  }

  /** What the entry does from the semaphore reset on. */
  lemma FromReset(m: State, w: LowPowerWorld)
    requires AtReset(m, w).Some?
    ensures var m2 := HandleAll(Reset(AtReset(m, w).value, PsmEntered), w.beforeCheck);
      && m2.log == m.log
      && FlagsOf(m2) == FlagsAfter(FlagsOf(m), w.before + w.betweenReads + w.beforeReset + w.beforeCheck)
      && m2.inPsm == PsmFlag(w.beforeCheck, AsleepAtReset(FlagsOf(m), w))
      && (m2.psmSem <==> PsmEnter in w.beforeCheck)
      && EnterLowPower(m, w) == if m2.inPsm then (m2, 0) else AwaitPsm(m2, w)
  {
    ToReset(m, w);
    HandleAllEffect(Reset(AtReset(m, w).value, PsmEntered), w.beforeCheck);
    FlagsSplit(FlagsOf(m), w.before + w.betweenReads + w.beforeReset, w.beforeCheck);
  }

  /** No PSM wakeup is lost: past the registration and grant check the entry deactivates LTE
      exactly when the PSM flag was clear at the check and at the timeout and no PSM entry
      was handled between the semaphore reset and the timeout. Otherwise it leaves the radio
      alone and returns 0. */
  lemma NoLostWakeup(m: State, w: LowPowerWorld)
    ensures var (r, err) := EnterLowPower(m, w);
      if FallsBack(FlagsOf(m), w) then Deactivated(m, r, w) && err == w.mode.err else r.log == m.log && err == 0
  {
    ToReset(m, w);
    if AtReset(m, w).Some? {
      FromReset(m, w);
      var m2 := HandleAll(Reset(AtReset(m, w).value, PsmEntered), w.beforeCheck);
      AwaitLogs(m2, w);
      PsmSplit(w.beforeCheck, w.waiting + w.afterTimeout, AsleepAtReset(FlagsOf(m), w));
      assert w.beforeCheck + w.waiting + w.afterTimeout == w.beforeCheck + (w.waiting + w.afterTimeout);
    } else {
      var m0 := HandleAll(m, w.before);
      ReturnLogs(m0, w.mode);
      ReturnLogs(HandleAll(m0, w.betweenReads), w.mode);
    }
  }

  /** The module's flags are those of the events since they were cleared. */
  predicate ClearedSince(r: Flags, es: seq<Event>) {
    r.registered == Registered(es, false) && r.granted == Granted(es, false) && r.asleep == PsmFlag(es, false)
  }

  /** The wait of an entry, in terms of the flags `f` at its start and the events until then. */
  lemma WaitFlags(m: State, w: LowPowerWorld, f: Flags, until: seq<Event>)
    requires FlagsOf(m) == FlagsAfter(f, until + w.beforeCheck) && !m.inPsm
    requires m.psmSem <==> PsmEnter in w.beforeCheck
    ensures var r := FlagsOf(AwaitPsm(m, w).0);
      var rest := w.waiting + (if PsmEnter in w.beforeCheck + w.waiting then [] else w.afterTimeout);
      if Unconfirmed(m, w) then ClearedSince(r, w.mode.during)
      else r == FlagsAfter(f, until + (w.beforeCheck + rest))
  {
    AwaitLogs(m, w);
    var rest := w.waiting + (if PsmEnter in w.beforeCheck + w.waiting then [] else w.afterTimeout);
    FlagsSplit(f, until + w.beforeCheck, rest);
    assert until + (w.beforeCheck + rest) == until + w.beforeCheck + rest;
  }

  lemma SeenParts(f: Flags, w: LowPowerWorld)
    requires !PsmFlag(w.beforeCheck, AsleepAtReset(f, w))
    ensures EntrySeen(f, w) == w.beforeCheck + (w.waiting + (if PsmEnter in w.beforeCheck + w.waiting then [] else w.afterTimeout))
  {
  }

  lemma UnconfirmedFallsBack(m: State, w: LowPowerWorld, f: Flags)
    requires Available(f, w) && !m.inPsm && m.inPsm == PsmFlag(w.beforeCheck, AsleepAtReset(f, w))
    requires m.psmSem <==> PsmEnter in w.beforeCheck
    ensures Unconfirmed(m, w) <==> FallsBack(f, w)
  {
    PsmSplit(w.beforeCheck, w.waiting + w.afterTimeout, AsleepAtReset(f, w));
    assert w.beforeCheck + w.waiting + w.afterTimeout == w.beforeCheck + (w.waiting + w.afterTimeout);
  }

  /** The flags an entry leaves: those of the events it saw, or, after a deactivation, those of
      the events since the module's flags were cleared. */
  lemma EntryFlags(m: State, w: LowPowerWorld)
    ensures var f, r := FlagsOf(m), FlagsOf(EnterLowPower(m, w).0);
      if FallsBack(f, w) then ClearedSince(r, w.mode.during)
      else r == FlagsAfter(f, w.before + w.betweenReads + w.beforeReset + EntrySeen(f, w))
  {
    var f := FlagsOf(m);
    ToReset(m, w);
    if AtReset(m, w).Some? {
      FromReset(m, w);
      var m2 := HandleAll(Reset(AtReset(m, w).value, PsmEntered), w.beforeCheck);
      if !m2.inPsm {
        WaitFlags(m2, w, f, w.before + w.betweenReads + w.beforeReset);
        UnconfirmedFallsBack(m2, w, f);
        SeenParts(f, w);
      }
    } else {
      var m0 := HandleAll(m, w.before);
      ReturnClears(m0, w.mode);
      ReturnClears(HandleAll(m0, w.betweenReads), w.mode);
    }
  }

  /** The entry reports a low-power state although LTE was left alone and the modem is awake
      exactly when a PSM entry was handled after the reset but an exit followed it: the
      semaphore ends the wait, and the flag is not looked at again. */
  lemma AwakeOnSuccess(m: State, w: LowPowerWorld)
    ensures var (r, err) := EnterLowPower(m, w);
      var f := FlagsOf(m);
      (err == 0 && r.log == m.log && !r.inPsm) <==>
        && Available(f, w)
        && !PsmFlag(w.beforeCheck, AsleepAtReset(f, w))
        && PsmEnter in w.beforeCheck + w.waiting
        && !PsmFlag(w.beforeCheck + w.waiting, AsleepAtReset(f, w))
  {
    var f := FlagsOf(m);
    NoLostWakeup(m, w);
    EntryFlags(m, w);
    PsmSplit(w.before + w.betweenReads + w.beforeReset, EntrySeen(f, w), f.asleep);
  }

  /** Such a case: the modem sleeps and wakes between the reset and the check. */
  lemma AwakeOnSuccessHappens()
    ensures var m := POWER_ON.(lteRegistered := true, psmGranted := true);
      var (r, err) := EnterLowPower(m, LowPowerWorld([], [], [], [PsmEnter, PsmExit], [], [], ModeWorld([], [], 0)));
      err == 0 && r.log == m.log && !r.inPsm
  {
    var m := POWER_ON.(lteRegistered := true, psmGranted := true);
    var w := LowPowerWorld([], [], [], [PsmEnter, PsmExit], [], [], ModeWorld([], [], 0));
    assert w.beforeCheck[..1] == [PsmEnter];
    NoLostWakeup(m, w);
    AwakeOnSuccess(m, w);
  }

  // ---- The module as the firmware has it ----------------------------------------------

  class Radio {
    var lteRegistered: bool
    var psmGranted: bool
    var inPsm: bool
    var connectedSem: bool
    var psmSem: bool
    var appOnline: bool
    var appInPsm: bool
    var appSleepSem: bool
    ghost var log: seq<Command>

    ghost function Current(): State
      reads this
    {
      State(lteRegistered, psmGranted, inPsm, connectedSem, psmSem, appOnline, appInPsm, appSleepSem, log)
    }

    constructor ()
      ensures Current() == POWER_ON
    {
      lteRegistered, psmGranted, inPsm, connectedSem, psmSem := false, false, false, false, false;
      appOnline, appInPsm, appSleepSem := false, false, false;
      log := [];
    }

    method HandleEvent(e: Event)
      modifies this
      ensures Current() == Handle(old(Current()), e)
    {
      // The module's own handler.
      match e {
        case Registration(connected) =>
          if connected {
            lteRegistered := true;
            connectedSem := true;
          } else {
            lteRegistered := false;
          }
        case PsmUpdate(granted) => psmGranted := granted;
        case PsmEnter =>
          inPsm := true;
          psmSem := true;
        case PsmExit => inPsm := false;
        case Other =>
      }
      // The application's listener.
      match e {
        case Registration(connected) => appOnline := connected;
        case PsmEnter =>
          appInPsm := true;
          appSleepSem := true;
        case PsmExit => appInPsm := false;
        case _ =>
      }
    }

    /** LTE events are handled. */
    method Yield(es: seq<Event>)
      modifies this
      ensures Current() == HandleAll(old(Current()), es)
    {
      var rest := es;
      while rest != []
        invariant HandleAll(Current(), rest) == HandleAll(old(Current()), es)
        decreases |rest|
      {
        HandleEvent(rest[0]);
        rest := rest[1..];
      }
    }

    method TakeSem(s: Sem, es: seq<Event>) returns (taken: bool)
      modifies this
      ensures (Current(), taken) == Take(old(Current()), s, es)
    {
      var rest := es;
      while rest != [] && !(match s case Connected => connectedSem case PsmEntered => psmSem case AppSleep => appSleepSem)
        invariant Take(Current(), s, rest) == Take(old(Current()), s, es)
        decreases |rest|
      {
        HandleEvent(rest[0]);
        rest := rest[1..];
      }
      match s {
        case Connected => taken := connectedSem; connectedSem := false;
        case PsmEntered => taken := psmSem; psmSem := false;
        case AppSleep => taken := appSleepSem; appSleepSem := false;
      }
      if taken {
        Yield(rest);
      }
    }

    method Command(c: Command)
      modifies this
      ensures Current() == Issue(old(Current()), c)
    {
      log := log + [c];
    }

    method Start(w: InitWorld) returns (err: int)
      requires Current() == POWER_ON
      modifies this
      ensures (Current(), err) == Initialize(w)
    {
      if w.libErr != 0 {
        return w.libErr;
      }
      if w.paramErr != 0 {
        return w.paramErr;
      }
      Command(PsmRequest(true, w.psmErr == 0));
      err := DeactivateLte(w.mode);
      if err != 0 {
        return;
      }
      Command(GnssActivate(w.activateErr == 0));
      err := w.activateErr;
    }

    method ClearSleep(es: seq<Event>)
      modifies this
      ensures Current() == ForgetSleep(old(Current()), es)
    {
      appSleepSem := false;
      assert Current() == Reset(old(Current()), AppSleep);
      Yield(es);
      appInPsm := false;
    }

    method DeactivateLte(w: ModeWorld) returns (err: int)
      modifies this
      ensures (Current(), err) == ReturnToGnss(old(Current()), w)
    {
      Yield(w.before);
      lteRegistered := false;
      psmGranted := false;
      inPsm := false;
      Command(LteDeactivate(w.err == 0));
      Yield(w.during);
      return w.err;
    }

    method OpenUplink(w: UploadWorld) returns (err: int)
      modifies this
      ensures (Current(), err) == PrepareUpload(old(Current()), w)
    {
      Yield(w.before);
      if lteRegistered {
        return 0;
      }
      Yield(w.mode.before);
      connectedSem := false;
      Command(LteNormal(w.mode.err == 0));
      Yield(w.mode.during);
      if w.mode.err != 0 {
        return w.mode.err;
      }
      var taken := TakeSem(Connected, w.waiting);
      return if taken then 0 else -ETIMEDOUT;
    }

    method Sleep(w: LowPowerWorld) returns (err: int)
      modifies this
      ensures (Current(), err) == EnterLowPower(old(Current()), w)
    {
      Yield(w.before);
      var available := lteRegistered;
      if available {
        Yield(w.betweenReads);
        available := psmGranted;
      }
      if !available {
        err := DeactivateLte(w.mode);
        return;
      }
      Yield(w.beforeReset);
      ResetPsm();
      Yield(w.beforeCheck);
      if inPsm {
        return 0;
      }
      err := AwaitPsmEntry(w);
    }

    method ResetPsm()
      modifies this
      ensures Current() == Reset(old(Current()), PsmEntered)
    {
      psmSem := false;
    }

    method AwaitPsmEntry(w: LowPowerWorld) returns (err: int)
      modifies this
      ensures (Current(), err) == AwaitPsm(old(Current()), w)
    {
      var taken := TakeSem(PsmEntered, w.waiting);
      if !taken {
        Yield(w.afterTimeout);
      }
      if taken || inPsm {
        return 0;
      }
      err := DeactivateLte(w.mode);
    }
  }
}
