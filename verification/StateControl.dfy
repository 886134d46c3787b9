/** The button-stepped application: ten states, two radios on one antenna, PSM requests and
    retry loops. Every external call may succeed or fail, and events come at any point. */
module StateControl {
  import opened Common
  import opened BacklogModel
  import opened Publishing
  import Machine = BacklogMachine
  import Mqtt
  import Modem
  import Gnss

  datatype TrackerState =
    | WaitForGnss | ConnectLte | ConnectMqtt | PublishBacklog | DisconnectMqtt
    | EnablePsm | DisablePsm | WaitForLowPower | LowPower | EnterLowPower

  datatype Report<Pvt> = NoFix | Located(pvt: Pvt)

  datatype Device<Pvt> = Device(
    m: Modem.State, c: Mqtt.Conn, backlog: Tracked<Report<Pvt>>, gnssNeedsStop: bool)

  /** Results of starting GNSS: of the setup calls before the start command, of the command,
      and of enabling priority mode after it. */
  datatype Start = Start(setupErr: int, startErr: int, priorityErr: int)

  /** Everything the environment decides during one step. `publish(k)` is what happens
      during the k-th publish of the step. */
  datatype StepWorld<!Pvt> = StepWorld(
    lteEvents: seq<Modem.Event>, mqttEvents: seq<Mqtt.Event>,
    deactivate: Modem.ModeWorld, fallback: Modem.ModeWorld,
    start: Start, session: seq<Gnss.Round<Pvt>>, gnssStopErr: int,
    upload: Modem.UploadWorld, connect: Mqtt.ConnectWorld, publish: nat -> Mqtt.PublishWorld,
    disconnect: Mqtt.DisconnectWorld, psmErr: int,
    whileForgetting: seq<Modem.Event>, whileWithdrawing: seq<Modem.Event>,
    sleepWait: seq<Modem.Event>, beforeSleepCheck: seq<Modem.Event>, lowPower: Modem.LowPowerWorld)

  function StartErr(s: Start): int {
    if s.setupErr != 0 then s.setupErr else if s.startErr != 0 then s.startErr else s.priorityErr
  }

  function StartGnss(m: Modem.State, s: Start): Modem.State {
    if s.setupErr != 0 then m else Modem.Issue(m, Modem.GnssStart(s.startErr == 0))
  }

  /** The result of the acquisition: of the start if it failed, otherwise of the session.
      `None` is a session still running. */
  function Acquire<Pvt>(w: StepWorld<Pvt>): Option<int> {
    var session := Gnss.Collect([], None, w.session);
    if StartErr(w.start) != 0 then Some(StartErr(w.start))
    else if session.Running? then None
    else Some(session.err)
  }

  predicate Reportable(err: int) {
    err == 0 || Gnss.NoFixCode(err)
  }

  /** The step buffers a report. */
  predicate Buffers<Pvt>(w: StepWorld<Pvt>) {
    w.deactivate.err == 0 && Acquire(w).Some? && Reportable(Acquire(w).value)
  }

  function ReportOf<Pvt>(err: int, have: Option<Pvt>): Report<Pvt> {
    if err == 0 && have.Some? then Located(have.value) else NoFix
  }

  /** `None` as the next state: the step has not come to an end. */
  function GnssStep<Pvt>(cap: nat, d: Device<Pvt>, w: StepWorld<Pvt>): (Device<Pvt>, Option<TrackerState>)
    requires d.backlog.buf.stride > 0
  {
    var (m1, err) := Modem.ReturnToGnss(d.m, w.deactivate);
    if err != 0 then (d.(m := m1), Some(EnterLowPower))
    else
      var d2 := d.(m := StartGnss(m1, w.start), gnssNeedsStop := true);
      var acquired := Acquire(w);
      if acquired.None? then (d2, None)
      else
        var report := ReportOf(acquired.value, Gnss.Collect([], None, w.session).have);
        var t := if Reportable(acquired.value) then Apply(cap, d2.backlog, AddOp(report)) else d2.backlog;
        var m3 := Modem.Issue(d2.m, Modem.GnssStop(w.gnssStopErr == 0));
        (Device(m3, d.c, t, w.gnssStopErr != 0),
         Some(if Reportable(acquired.value) && w.gnssStopErr == 0 then ConnectLte else EnterLowPower))
  }

  function EnablePsmStep(m: Modem.State, w: StepWorld): Modem.State {
    var (m1, err1) := Modem.ReturnToGnss(m, w.deactivate);
    var m2 := Modem.ForgetSleep(m1, w.whileForgetting);
    if err1 != 0 then m2
    else
      var m3 := Modem.Issue(m2, Modem.PsmRequest(true, w.psmErr == 0));
      if w.psmErr != 0 then m3 else Reconnect(m3, w)
  }

  /** Negotiate the request on a fresh registration. */
  function Reconnect(m: Modem.State, w: StepWorld): Modem.State {
    var (m1, err) := Modem.PrepareUpload(m, w.upload);
    if err != 0 then m1 else ConfirmSleep(m1, w)
  }

  /** Wait for the modem to sleep; deactivate LTE if it is not asleep by then. */
  function ConfirmSleep(m: Modem.State, w: StepWorld): Modem.State {
    var m1 := Modem.HandleAll(Modem.Take(m, Modem.AppSleep, w.sleepWait).0, w.beforeSleepCheck);
    if m1.appInPsm then m1 else Modem.ReturnToGnss(m1, w.fallback).0
  }

  function DisablePsmStep(m: Modem.State, w: StepWorld): (Modem.State, TrackerState) {
    var (m1, err1) := Modem.ReturnToGnss(m, w.deactivate);
    if err1 != 0 then (m1, DisablePsm)
    else
      var m2 := Modem.HandleAll(Modem.Issue(m1.(appInPsm := false), Modem.PsmRequest(false, w.psmErr == 0)), w.whileWithdrawing);
      if w.psmErr != 0 then (m2, DisablePsm) else (m2.(appOnline := false), WaitForLowPower)
  }

  function LowPowerStep<Pvt>(d: Device<Pvt>, w: StepWorld<Pvt>): (Device<Pvt>, TrackerState) {
    var d1 :=
      if !d.gnssNeedsStop then d
      else d.(m := Modem.Issue(d.m, Modem.GnssStop(w.gnssStopErr == 0)), gnssNeedsStop := w.gnssStopErr != 0);
    if d1.gnssNeedsStop then (d1, EnterLowPower)
    else
      var (m2, err2) := Modem.EnterLowPower(d1.m, w.lowPower);
      (d1.(m := m2), if err2 != 0 then EnterLowPower else DisablePsm)
  }

  /** One executed state, from the device as it was when the last state ended: first the
      events of the pause, then the state itself. */
  function Step<Pvt>(cap: nat, d: Device<Pvt>, st: TrackerState, w: StepWorld<Pvt>): (Device<Pvt>, Option<TrackerState>)
    requires d.backlog.buf.stride > 0
  {
    Execute(cap, d.(m := Modem.HandleAll(d.m, w.lteEvents), c := Mqtt.HandleAll(d.c, w.mqttEvents)), st, w)
  }

  function Execute<Pvt>(cap: nat, d: Device<Pvt>, st: TrackerState, w: StepWorld<Pvt>): (Device<Pvt>, Option<TrackerState>)
    requires d.backlog.buf.stride > 0
  {
    match st
    case WaitForGnss => GnssStep(cap, d, w)
    case ConnectLte =>
      var (m, err) := Modem.PrepareUpload(d.m, w.upload);
      (d.(m := m), Some(if err == 0 then ConnectMqtt else EnterLowPower))
    case ConnectMqtt =>
      var (c, err) := Mqtt.Connect(d.c, w.connect);
      (d.(c := c), Some(if err == 0 then PublishBacklog else DisconnectMqtt))
    case PublishBacklog =>
      var (t, c) := Drain(cap, d.backlog, d.c, w.publish, 0);
      (d.(backlog := t, c := c), Some(DisconnectMqtt))
    case DisconnectMqtt =>
      var (c, err) := Mqtt.Disconnect(d.c, w.disconnect);
      (d.(c := c), Some(if err != 0 then DisconnectMqtt else EnablePsm))
    case EnablePsm => (d.(m := EnablePsmStep(d.m, w)), Some(DisablePsm))
    case DisablePsm =>
      var (m, next) := DisablePsmStep(d.m, w);
      (d.(m := m), Some(next))
    case WaitForLowPower => (d, Some(LowPower))
    case LowPower => (d, Some(WaitForGnss))
    case EnterLowPower =>
      var (d', next) := LowPowerStep(d, w);
      (d', Some(next))
  }

  /** What the calls of the start-up return. */
  datatype Boot = Boot(modem: Modem.InitWorld, withdrawErr: int, mqttErr: int)

  /** Start-up: PSM is requested by the modem module and withdrawn by the application, then
      MQTT is initialized. `None` if any of it fails and the application stops. */
  function StartUp<Pvt>(b: Boot): Option<Device<Pvt>> {
    var (m, err) := Modem.Initialize(b.modem);
    if err != 0 || b.withdrawErr != 0 || b.mqttErr != 0 then None
    else
      Some(Device(Modem.Issue(m, Modem.PsmRequest(false, true)),
                  Mqtt.Conn(false, false, false, 0, 0, 0, false), Initial(), false))
  }

  // ---- Radio safety -------------------------------------------------------------------

  /** At no instant of the log may both radios be on. */
  ghost predicate Exclusive(log: seq<Modem.Command>) {
    !(Modem.LteMaybeActive(log) && Modem.GnssMaybeRunning(log)) && (log == [] || Exclusive(log[..|log| - 1]))
  }

  lemma {:induction false} ExclusiveAlways(log: seq<Modem.Command>, k: nat)
    requires Exclusive(log) && k <= |log|
    ensures !(Modem.LteMaybeActive(log[..k]) && Modem.GnssMaybeRunning(log[..k]))
  {
    if k == |log| {
      assert log[..k] == log;
    } else {
      ExclusiveAlways(log[..|log| - 1], k);
      assert log[..|log| - 1][..k] == log[..k];
    }
  }

  /** The radios as a command leaves them. */
  lemma AfterCommand(log: seq<Modem.Command>, c: Modem.Command)
    ensures var l := log + [c];
      && Modem.LteMaybeActive(l) == (match c case LteNormal(_) => true case LteDeactivate(ok) => !ok && Modem.LteMaybeActive(log) case _ => Modem.LteMaybeActive(log))
      && Modem.GnssMaybeRunning(l) == (match c case GnssStart(_) => true case GnssStop(ok) => !ok && Modem.GnssMaybeRunning(log) case _ => Modem.GnssMaybeRunning(log))
      && Modem.PsmOutstanding(l) == (match c case PsmRequest(on, ok) => on || (!ok && Modem.PsmOutstanding(log)) case _ => Modem.PsmOutstanding(log))
      && (Exclusive(l) <==> Exclusive(log) && !(Modem.LteMaybeActive(l) && Modem.GnssMaybeRunning(l)))
  {
    assert (log + [c])[..|log|] == log;
  }

  /** What holds at every step boundary: `st` is the state to be executed next. */
  ghost predicate Safe<Pvt>(cap: nat, d: Device<Pvt>, st: TrackerState) {
    var lte, gnss, psm := Modem.LteMaybeActive(d.m.log), Modem.GnssMaybeRunning(d.m.log), Modem.PsmOutstanding(d.m.log);
    && Inv(cap, d.backlog) && Exclusive(d.m.log)
    && (gnss ==> d.gnssNeedsStop)
    && (d.gnssNeedsStop ==> st == EnterLowPower && !lte)
    && (psm ==> st == DisablePsm)
    && (d.c.connectAttempted ==> st in {PublishBacklog, DisconnectMqtt})
    && (st in {ConnectLte, ConnectMqtt, PublishBacklog} ==> d.backlog.buf.entries != [])
    && (st in {WaitForGnss, WaitForLowPower, LowPower} ==> !lte)
  }

  lemma ReturnEffect(m: Modem.State, w: Modem.ModeWorld)
    requires Exclusive(m.log)
    ensures var l := Modem.ReturnToGnss(m, w).0.log;
      && Exclusive(l)
      && Modem.LteMaybeActive(l) == (w.err != 0 && Modem.LteMaybeActive(m.log))
      && Modem.GnssMaybeRunning(l) == Modem.GnssMaybeRunning(m.log)
      && Modem.PsmOutstanding(l) == Modem.PsmOutstanding(m.log)
  {
    Modem.ReturnLogs(m, w);
    AfterCommand(m.log, Modem.LteDeactivate(w.err == 0));
  }

  lemma UploadEffect(m: Modem.State, w: Modem.UploadWorld)
    requires Exclusive(m.log) && !Modem.GnssMaybeRunning(m.log)
    ensures var l := Modem.PrepareUpload(m, w).0.log;
      Exclusive(l) && !Modem.GnssMaybeRunning(l) && Modem.PsmOutstanding(l) == Modem.PsmOutstanding(m.log)
  {
    Modem.UploadPrepared(m, w);
    AfterCommand(m.log, Modem.LteNormal(w.mode.err == 0));
  }

  lemma SleepEffect(m: Modem.State, w: Modem.LowPowerWorld)
    requires Exclusive(m.log) && !Modem.GnssMaybeRunning(m.log)
    ensures var l := Modem.EnterLowPower(m, w).0.log;
      Exclusive(l) && !Modem.GnssMaybeRunning(l) && Modem.PsmOutstanding(l) == Modem.PsmOutstanding(m.log)
  {
    Modem.NoLostWakeup(m, w);
    AfterCommand(m.log, Modem.LteDeactivate(w.mode.err == 0));
  }

  lemma StartEffect(m: Modem.State, s: Start)
    requires Exclusive(m.log) && !Modem.LteMaybeActive(m.log)
    ensures var l := StartGnss(m, s).log;
      Exclusive(l) && !Modem.LteMaybeActive(l) && Modem.PsmOutstanding(l) == Modem.PsmOutstanding(m.log)
  {
    var c := Modem.GnssStart(s.startErr == 0);
    AfterCommand(m.log, c);
    assert StartGnss(m, s).log == m.log || StartGnss(m, s).log == m.log + [c];
  }

  lemma StopEffect(m: Modem.State, ok: bool)
    requires Exclusive(m.log) && !Modem.LteMaybeActive(m.log)
    ensures var l := Modem.Issue(m, Modem.GnssStop(ok)).log;
      && Exclusive(l) && !Modem.LteMaybeActive(l) && Modem.PsmOutstanding(l) == Modem.PsmOutstanding(m.log)
      && (ok ==> !Modem.GnssMaybeRunning(l))
  {
    AfterCommand(m.log, Modem.GnssStop(ok));
  }

  lemma GnssStepSafe<Pvt>(cap: nat, d: Device<Pvt>, w: StepWorld<Pvt>)
    requires Safe(cap, d, WaitForGnss)
    ensures var (d', next) := GnssStep(cap, d, w);
      && Exclusive(d'.m.log)
      && (next.Some? ==> Safe(cap, d', next.value))
  {
    var (m1, err) := Modem.ReturnToGnss(d.m, w.deactivate);
    ReturnEffect(d.m, w.deactivate);
    if err == 0 {
      StartEffect(m1, w.start);
      StopEffect(StartGnss(m1, w.start), w.gnssStopErr == 0);
      if Acquire(w).Some? {
        AddInv(cap, d.backlog, ReportOf(Acquire(w).value, Gnss.Collect([], None, w.session).have));
      }
    }
  }

  lemma ConfirmSleepSafe(m: Modem.State, w: StepWorld)
    requires Exclusive(m.log) && !Modem.GnssMaybeRunning(m.log)
    ensures var l := ConfirmSleep(m, w).log; Exclusive(l) && !Modem.GnssMaybeRunning(l)
  {
    Modem.TakeEffect(m, Modem.AppSleep, w.sleepWait);
    var m1 := Modem.Take(m, Modem.AppSleep, w.sleepWait).0;
    Modem.HandleAllEffect(m1, w.beforeSleepCheck);
    ReturnEffect(Modem.HandleAll(m1, w.beforeSleepCheck), w.fallback);
  }

  lemma EnablePsmSafe(m: Modem.State, w: StepWorld)
    requires Exclusive(m.log) && !Modem.GnssMaybeRunning(m.log)
    ensures var l := EnablePsmStep(m, w).log; Exclusive(l) && !Modem.GnssMaybeRunning(l)
  {
    ReturnEffect(m, w.deactivate);
    var m1 := Modem.ReturnToGnss(m, w.deactivate).0;
    Modem.HandleAllEffect(Modem.Reset(m1, Modem.AppSleep), w.whileForgetting);
    var m2 := Modem.ForgetSleep(m1, w.whileForgetting);
    AfterCommand(m2.log, Modem.PsmRequest(true, w.psmErr == 0));
    var m3 := Modem.Issue(m2, Modem.PsmRequest(true, w.psmErr == 0));
    UploadEffect(m3, w.upload);
    ConfirmSleepSafe(Modem.PrepareUpload(m3, w.upload).0, w);
  }

  lemma DisablePsmSafe(m: Modem.State, w: StepWorld)
    requires Exclusive(m.log) && !Modem.GnssMaybeRunning(m.log)
    ensures var (m', next) := DisablePsmStep(m, w);
      && Exclusive(m'.log) && !Modem.GnssMaybeRunning(m'.log)
      && next in {DisablePsm, WaitForLowPower}
      && (next == WaitForLowPower ==> !Modem.LteMaybeActive(m'.log) && !Modem.PsmOutstanding(m'.log))
  {
    ReturnEffect(m, w.deactivate);
    var (m1, err1) := Modem.ReturnToGnss(m, w.deactivate);
    AfterCommand(m1.log, Modem.PsmRequest(false, w.psmErr == 0));
    Modem.HandleAllEffect(Modem.Issue(m1.(appInPsm := false), Modem.PsmRequest(false, w.psmErr == 0)), w.whileWithdrawing);
  }

  lemma LowPowerSafe<Pvt>(cap: nat, d: Device<Pvt>, w: StepWorld<Pvt>)
    requires Safe(cap, d, EnterLowPower)
    ensures Safe(cap, LowPowerStep(d, w).0, LowPowerStep(d, w).1)
  {
    AfterCommand(d.m.log, Modem.GnssStop(w.gnssStopErr == 0));
    if !d.gnssNeedsStop {
      SleepEffect(d.m, w.lowPower);
    } else if w.gnssStopErr == 0 {
      SleepEffect(Modem.Issue(d.m, Modem.GnssStop(true)), w.lowPower);
    }
  }

  lemma ExecuteSafe<Pvt>(cap: nat, d: Device<Pvt>, st: TrackerState, w: StepWorld<Pvt>)
    requires Safe(cap, d, st)
    ensures var (d', next) := Execute(cap, d, st, w);
      && Exclusive(d'.m.log)
      && (next.Some? ==> Safe(cap, d', next.value))
  {
    match st
    case WaitForGnss => GnssStepSafe(cap, d, w);
    case ConnectLte => UploadEffect(d.m, w.upload);
    case PublishBacklog => DrainInv(cap, d.backlog, d.c, w.publish, 0);
    case DisconnectMqtt => Mqtt.DisconnectSucceedsExactly(d.c, w.disconnect);
    case EnablePsm => EnablePsmSafe(d.m, w);
    case DisablePsm => DisablePsmSafe(d.m, w);
    case EnterLowPower => LowPowerSafe(cap, d, w);
    case _ =>
  }

  lemma StepSafe<Pvt>(cap: nat, d: Device<Pvt>, st: TrackerState, w: StepWorld<Pvt>)
    requires Safe(cap, d, st)
    ensures var (d', next) := Step(cap, d, st, w);
      && Exclusive(d'.m.log)
      && (next.Some? ==> Safe(cap, d', next.value))
  {
    Modem.HandleAllEffect(d.m, w.lteEvents);
    Mqtt.HandleAllEffect(d.c, w.mqttEvents);
    ExecuteSafe(cap, d.(m := Modem.HandleAll(d.m, w.lteEvents), c := Mqtt.HandleAll(d.c, w.mqttEvents)), st, w);
  }

  lemma InitializeSafe(w: Modem.InitWorld)
    ensures var (m, err) := Modem.Initialize(w);
      err == 0 ==> Exclusive(m.log) && !Modem.LteMaybeActive(m.log) && !Modem.GnssMaybeRunning(m.log)
  {
    var c := Modem.PsmRequest(true, w.psmErr == 0);
    AfterCommand([], c);
    assert [] + [c] == [c];
    var m1 := Modem.Issue(Modem.POWER_ON, c);
    ReturnEffect(m1, w.mode);
    AfterCommand(Modem.ReturnToGnss(m1, w.mode).0.log, Modem.GnssActivate(w.activateErr == 0));
  }

  lemma StartUpSafe<Pvt>(cap: nat, b: Boot)
    requires cap >= 1
    ensures var r: Option<Device<Pvt>> := StartUp(b);
      r.Some? ==> Safe(cap, r.value, WaitForGnss)
  {
    InitializeSafe(b.modem);
    AfterCommand(Modem.Initialize(b.modem).0.log, Modem.PsmRequest(false, true));
  }

  /** Start-up succeeds exactly when every call but the PSM request of the modem module does;
      then PSM is withdrawn and everything else is as at power-on. */
  lemma StartUpExactly<Pvt>(b: Boot)
    ensures var r: Option<Device<Pvt>> := StartUp(b);
      && (r.Some? <==>
            && b.modem.libErr == 0 && b.modem.paramErr == 0 && b.modem.mode.err == 0 && b.modem.activateErr == 0
            && b.withdrawErr == 0 && b.mqttErr == 0)
      && (r.Some? ==>
            && r.value.m.log == [Modem.PsmRequest(true, b.modem.psmErr == 0), Modem.LteDeactivate(true),
                                 Modem.GnssActivate(true), Modem.PsmRequest(false, true)]
            && r.value.backlog == Initial() && !r.value.gnssNeedsStop && !r.value.c.connectAttempted)
  {
    Modem.InitializeExactly(b.modem);
  }

  // ---- Whole runs ---------------------------------------------------------------------

  /** A run from start-up: the device after the given steps and the state to execute next,
      `None` once a step does not come to an end. */
  function RunSteps<Pvt>(cap: nat, d: Device<Pvt>, steps: seq<StepWorld<Pvt>>): (r: (Device<Pvt>, Option<TrackerState>))
    requires d.backlog.buf.stride > 0
    ensures r.0.backlog.buf.stride > 0
  {
    if steps == [] then (d, Some(WaitForGnss))
    else
      var (d1, st) := RunSteps(cap, d, steps[..|steps| - 1]);
      if st.None? then (d1, st)
      else
        StrideStays(cap, d1, st.value, steps[|steps| - 1]);
        Step(cap, d1, st.value, steps[|steps| - 1])
  }

  lemma StrideStays<Pvt>(cap: nat, d: Device<Pvt>, st: TrackerState, w: StepWorld<Pvt>)
    requires d.backlog.buf.stride > 0
    ensures Step(cap, d, st, w).0.backlog.buf.stride > 0
  {
    if st == PublishBacklog {
      DrainStride(cap, d.backlog, Mqtt.HandleAll(d.c, w.mqttEvents), w.publish, 0);
    }
  }

  lemma {:induction false} RunSafe<Pvt>(cap: nat, d: Device<Pvt>, steps: seq<StepWorld<Pvt>>)
    requires Safe(cap, d, WaitForGnss)
    ensures var (d', st) := RunSteps(cap, d, steps);
      Exclusive(d'.m.log) && (st.Some? ==> Safe(cap, d', st.value))
  {
    if steps == [] {
    } else {
      RunSafe(cap, d, steps[..|steps| - 1]);
      var (d1, st) := RunSteps(cap, d, steps[..|steps| - 1]);
      if st.Some? {
        StepSafe(cap, d1, st.value, steps[|steps| - 1]);
      }
    }
  }

  /** Radio exclusion: at no instant of any run, whatever fails, may LTE be active while GNSS
      may be running; and GNSS left to be stopped means the state is ENTER_LOW_POWER. */
  lemma RadioExclusion<Pvt>(
      cap: nat, boot: Boot, d: Device<Pvt>, steps: seq<StepWorld<Pvt>>, k: nat)
    requires cap >= 1 && StartUp(boot) == Some(d)
    requires k <= |RunSteps(cap, d, steps).0.m.log|
    ensures var (d', st) := RunSteps(cap, d, steps);
      && !(Modem.LteMaybeActive(d'.m.log[..k]) && Modem.GnssMaybeRunning(d'.m.log[..k]))
      && (st.Some? && d'.gnssNeedsStop ==> st.value == EnterLowPower)
  {
    StartUpSafe<Pvt>(cap, boot);
    RunSafe(cap, d, steps);
    ExclusiveAlways(RunSteps(cap, d, steps).0.m.log, k);
  }

  /** Parked states: LTE is deactivated, GNSS stopped, no PSM request outstanding and no MQTT
      connection attempted; a PSM request outstanding between steps means DISABLE_PSM is next. */
  lemma Parked<Pvt>(cap: nat, boot: Boot, d: Device<Pvt>, steps: seq<StepWorld<Pvt>>)
    requires cap >= 1 && StartUp(boot) == Some(d)
    ensures var (d', st) := RunSteps(cap, d, steps);
      && (st.Some? && st.value in {WaitForLowPower, LowPower, WaitForGnss} ==>
            && !Modem.LteMaybeActive(d'.m.log) && !Modem.GnssMaybeRunning(d'.m.log)
            && !Modem.PsmOutstanding(d'.m.log) && !d'.c.connectAttempted)
      && (st.Some? && Modem.PsmOutstanding(d'.m.log) ==> st.value == DisablePsm)
      && (st.Some? && st.value in {ConnectLte, ConnectMqtt, PublishBacklog} ==> d'.backlog.buf.entries != [])
  {
    StartUpSafe<Pvt>(cap, boot);
    RunSafe(cap, d, steps);
  }

  // ---- Reports and delivery -----------------------------------------------------------

  /** A GNSS step whose session ends by a press or the deadline buffers exactly one report:
      the last valid position the session took, or a no-fix report if it took none. One that
      ends by a queue error buffers nothing, except when the error is a code that means a
      session without a fix: then a no-fix report, even with a position in hand. */
  lemma OneReport<Pvt>(cap: nat, d: Device<Pvt>, w: StepWorld<Pvt>, k: nat, have: Option<Pvt>)
    requires d.backlog.buf.stride > 0 && w.deactivate.err == 0 && StartErr(w.start) == 0
    requires Gnss.EndsAt(w.session, k) && Gnss.IsLastValid(Gnss.Dequeued([], w.session), have)
    ensures var (d', next) := GnssStep(cap, d, w);
      var requested := w.session[k].pressed || w.session[k].timedOut;
      var reports := requested || Gnss.NoFixCode(w.session[k].queueErr);
      var report := if requested && have.Some? then Located(have.value) else NoFix;
      && next == Some(if reports && w.gnssStopErr == 0 then ConnectLte else EnterLowPower)
      && d'.backlog == if reports then Apply(cap, d.backlog, AddOp(report)) else d.backlog
  {
    Gnss.SessionResult(w.session);
    Gnss.LastValidIsUnique(Gnss.Dequeued([], w.session), have, Gnss.Collect([], None, w.session).have);
  }

  /** Without a session the step buffers nothing, except when the failed start returned the
      very code that means a session without a fix. */
  lemma ReportWithoutSession<Pvt>(cap: nat, d: Device<Pvt>, w: StepWorld<Pvt>)
    requires d.backlog.buf.stride > 0 && w.deactivate.err == 0 && StartErr(w.start) != 0
    ensures var (d', next) := GnssStep(cap, d, w);
      if Gnss.NoFixCode(StartErr(w.start)) then
        d'.backlog == Apply(cap, d.backlog, AddOp(NoFix)) && |d'.backlog.history| == |d.backlog.history| + 1
      else d'.backlog == d.backlog && next == Some(EnterLowPower)
  {
  }

  // ---- The state table ----------------------------------------------------------------
  //
  // Where each state leads and what it does, in terms of what the environment did: of the
  // registrations, sleep events, CONNACKs, disconnects and call results of the step.

  /** The LTE flags as the state begins. */
  function Lte<Pvt>(d: Device<Pvt>, w: StepWorld<Pvt>): Modem.Flags {
    Modem.FlagsAfter(Modem.FlagsOf(d.m), w.lteEvents)
  }

  /** The attempt flag as the state begins. */
  predicate Attempted<Pvt>(d: Device<Pvt>, w: StepWorld<Pvt>) {
    d.c.connectAttempted && Mqtt.Disconnected !in w.mqttEvents
  }

  /** The step issued just these commands. */
  predicate Issued<Pvt>(d: Device<Pvt>, d': Device<Pvt>, commands: seq<Modem.Command>) {
    d'.m.log == d.m.log + commands
  }

  /** The step touched neither the backlog nor GNSS. */
  ghost predicate NoReport<Pvt>(d: Device<Pvt>, d': Device<Pvt>) {
    d'.backlog == d.backlog && d'.gnssNeedsStop == d.gnssNeedsStop
  }

  /** The step saw MQTT events but made no MQTT call. */
  predicate NoMqtt<Pvt>(d: Device<Pvt>, d': Device<Pvt>, w: StepWorld<Pvt>) {
    d'.c == Mqtt.HandleAll(d.c, w.mqttEvents)
  }

  /** The commands of a GNSS session that comes to an end if `ended`. */
  function SessionCommands<Pvt>(w: StepWorld<Pvt>, ended: bool): seq<Modem.Command> {
    [Modem.LteDeactivate(w.deactivate.err == 0)]
    + if w.deactivate.err != 0 then []
      else
        (if w.start.setupErr != 0 then [] else [Modem.GnssStart(w.start.startErr == 0)])
        + (if ended then [Modem.GnssStop(w.gnssStopErr == 0)] else [])
  }

  /** Where the GNSS state leads and when it buffers anything, for every way it can go: the
      code that decides is that of a failed start, or else of the turn that ends the session. */
  lemma SessionTable<Pvt>(cap: nat, d: Device<Pvt>, w: StepWorld<Pvt>, k: nat)
    requires d.backlog.buf.stride > 0
    requires w.deactivate.err == 0 && StartErr(w.start) == 0 ==> Gnss.EndsAt(w.session, k)
    ensures var (d', next) := GnssStep(cap, d, w);
      var reports :=
        && w.deactivate.err == 0
        && if StartErr(w.start) != 0 then Reportable(StartErr(w.start))
           else w.session[k].pressed || w.session[k].timedOut || Reportable(w.session[k].queueErr);
      && next == Some(if reports && w.gnssStopErr == 0 then ConnectLte else EnterLowPower)
      && |d'.backlog.history| == |d.backlog.history| + (if reports then 1 else 0)
      && (!reports ==> d'.backlog == d.backlog)
      && (d'.gnssNeedsStop <==> if w.deactivate.err == 0 then w.gnssStopErr != 0 else d.gnssNeedsStop)
      && d'.c == d.c
  {
    Gnss.SessionResult(w.session);
  }

  /** A session never ends exactly when it begins and no turn ends it. */
  lemma SessionEndless<Pvt>(w: StepWorld<Pvt>)
    ensures Acquire(w).None? <==> StartErr(w.start) == 0 && forall k: nat :: !Gnss.EndsAt(w.session, k)
  {
    Gnss.SessionResult(w.session);
  }

  lemma StartLogs(m: Modem.State, s: Start)
    ensures StartGnss(m, s).log == m.log + if s.setupErr != 0 then [] else [Modem.GnssStart(s.startErr == 0)]
  {
    assert m.log + [] == m.log;
  }

  lemma Parts(log: seq<Modem.Command>, a: seq<Modem.Command>, b: seq<Modem.Command>, c: seq<Modem.Command>)
    ensures log + a + [] == log + a == log + (a + [])
    ensures log + a + b + c == log + (a + (b + c))
    ensures log + a + b == log + (a + (b + []))
  {
  }

  lemma SessionLogFrom<Pvt>(cap: nat, d: Device<Pvt>, w: StepWorld<Pvt>)
    requires d.backlog.buf.stride > 0
    ensures var (d', next) := GnssStep(cap, d, w);
      && d'.m.log == d.m.log + SessionCommands(w, next.Some?)
      && (next.None? <==> w.deactivate.err == 0 && Acquire(w).None?)
  {
    Modem.ReturnLogs(d.m, w.deactivate);
    var m1 := Modem.ReturnToGnss(d.m, w.deactivate).0;
    var b := if w.start.setupErr != 0 then [] else [Modem.GnssStart(w.start.startErr == 0)];
    StartLogs(m1, w.start);
    Parts(d.m.log, [Modem.LteDeactivate(w.deactivate.err == 0)], b, [Modem.GnssStop(w.gnssStopErr == 0)]);
  }

  /** LTE is always deactivated first; GNSS is started exactly when that and its setup
      succeed; and once LTE is off it is always asked to stop, unless the session never ends. */
  lemma SessionLog<Pvt>(cap: nat, d: Device<Pvt>, w: StepWorld<Pvt>)
    requires d.backlog.buf.stride > 0
    ensures var (d', next) := Step(cap, d, WaitForGnss, w);
      && Issued(d, d', SessionCommands(w, next.Some?))
      && (next.None? <==>
            w.deactivate.err == 0 && StartErr(w.start) == 0 && forall k: nat :: !Gnss.EndsAt(w.session, k))
  {
    Modem.HandleAllEffect(d.m, w.lteEvents);
    SessionEndless(w);
    SessionLogFrom(cap, d.(m := Modem.HandleAll(d.m, w.lteEvents), c := Mqtt.HandleAll(d.c, w.mqttEvents)), w);
  }

  lemma ConnectLteTable<Pvt>(cap: nat, d: Device<Pvt>, w: StepWorld<Pvt>)
    requires d.backlog.buf.stride > 0
    ensures var (d', next) := Step(cap, d, ConnectLte, w);
      var held := Modem.Held(Lte(d, w), w.upload);
      var registered := w.upload.mode.err == 0 && Modem.Registration(true) in w.upload.mode.during + w.upload.waiting;
      && next == Some(if held || registered then ConnectMqtt else EnterLowPower)
      && Issued(d, d', if held then [] else [Modem.LteNormal(w.upload.mode.err == 0)])
      && NoReport(d, d') && NoMqtt(d, d', w)
  {
    Modem.HandleAllEffect(d.m, w.lteEvents);
    Modem.UploadPrepared(Modem.HandleAll(d.m, w.lteEvents), w.upload);
  }

  lemma ConnectMqttTable<Pvt>(cap: nat, d: Device<Pvt>, w: StepWorld<Pvt>)
    requires d.backlog.buf.stride > 0
    ensures var (d', next) := Step(cap, d, ConnectMqtt, w);
      var accepted := Mqtt.LastConnack(w.connect.duringCall + w.connect.beforeSet + w.connect.waiting, 1) == 0;
      && next == Some(if w.connect.helperErr == 0 && accepted then PublishBacklog else DisconnectMqtt)
      && (d'.c.connectAttempted <==>
            if w.connect.helperErr == 0 then Mqtt.Disconnected !in w.connect.waiting
            else Attempted(d, w) && Mqtt.Disconnected !in w.connect.beforeInit + w.connect.duringCall)
      && Issued(d, d', []) && NoReport(d, d')
  {
    var c := Mqtt.HandleAll(d.c, w.mqttEvents);
    Modem.HandleAllEffect(d.m, w.lteEvents);
    Mqtt.HandleAllEffect(d.c, w.mqttEvents);
    Mqtt.ConnectSucceedsExactly(c, w.connect);
    Mqtt.ConnectFlagExactly(c, w.connect);
  }

  /** The publish state removes exactly what its publishes confirmed, and moves on. */
  lemma PublishTable<Pvt>(cap: nat, d: Device<Pvt>, w: StepWorld<Pvt>)
    requires d.backlog.buf.stride > 0
    ensures var (d', next) := Step(cap, d, PublishBacklog, w);
      && next == Some(DisconnectMqtt)
      && (exists n :: Drained(d.backlog, d'.backlog, Mqtt.HandleAll(d.c, w.mqttEvents), d'.c, w.publish, n))
      && Issued(d, d', []) && d'.gnssNeedsStop == d.gnssNeedsStop
  {
    Modem.HandleAllEffect(d.m, w.lteEvents);
    DrainRemovesConfirmed(cap, d.backlog, Mqtt.HandleAll(d.c, w.mqttEvents), w.publish);
  }

  lemma DisconnectTable<Pvt>(cap: nat, d: Device<Pvt>, w: StepWorld<Pvt>)
    requires d.backlog.buf.stride > 0
    ensures var (d', next) := Step(cap, d, DisconnectMqtt, w);
      var reported := w.disconnect.helperErr == 0 && Mqtt.Disconnected in w.disconnect.duringCall + w.disconnect.waiting;
      && next == Some(if !Attempted(d, w) || reported then EnablePsm else DisconnectMqtt)
      && (d'.c.connectAttempted <==> Attempted(d, w) && Mqtt.Disconnected !in Mqtt.DisconnectSeen(w.disconnect))
      && Issued(d, d', []) && NoReport(d, d')
  {
    Modem.HandleAllEffect(d.m, w.lteEvents);
    Mqtt.HandleAllEffect(d.c, w.mqttEvents);
    Mqtt.DisconnectSucceedsExactly(Mqtt.HandleAll(d.c, w.mqttEvents), w.disconnect);
  }

  /** The flags at the upload of a PSM negotiation: everything was cleared before. */
  function Renewed<Pvt>(w: StepWorld<Pvt>): Modem.Flags {
    var es := w.deactivate.during + w.whileForgetting;
    Modem.Flags(Modem.Registered(es, false), Modem.Granted(es, false), Modem.PsmFlag(es, false), false, false)
  }

  predicate Reconnected<Pvt>(w: StepWorld<Pvt>) {
    || Modem.Held(Renewed(w), w.upload)
    || (w.upload.mode.err == 0 && Modem.Registration(true) in w.upload.mode.during + w.upload.waiting)
  }

  /** The last PSM event since the record of sleep was dropped is an entry. */
  predicate SeenAsleep<Pvt>(w: StepWorld<Pvt>) {
    Modem.PsmFlag(Modem.UploadSeen(Renewed(w), w.upload) + w.sleepWait + w.beforeSleepCheck, false)
  }

  /** The commands from the upload on. */
  function ReconnectCommands<Pvt>(w: StepWorld<Pvt>): seq<Modem.Command> {
    (if Modem.Held(Renewed(w), w.upload) then [] else [Modem.LteNormal(w.upload.mode.err == 0)])
    + (if !Reconnected(w) || SeenAsleep(w) then [] else [Modem.LteDeactivate(w.fallback.err == 0)])
  }

  /** The commands of a PSM negotiation: each step only if the one before succeeded, LTE
      activated only if no registration came by itself, and deactivated again unless the
      modem is seen asleep. */
  function NegotiationCommands<Pvt>(w: StepWorld<Pvt>): seq<Modem.Command> {
    [Modem.LteDeactivate(w.deactivate.err == 0)]
    + if w.deactivate.err != 0 then []
      else
        [Modem.PsmRequest(true, w.psmErr == 0)]
        + if w.psmErr != 0 then [] else ReconnectCommands(w)
  }

  /** After the PSM request LTE is left alone exactly when the modem was last seen asleep;
      otherwise the last command is its deactivation. */
  lemma SleepConfirmedExactly(m: Modem.State, w: StepWorld)
    ensures ConfirmSleep(m, w).log ==
      if Modem.PsmFlag(w.sleepWait + w.beforeSleepCheck, m.appInPsm) then m.log
      else m.log + [Modem.LteDeactivate(w.fallback.err == 0)]
  {
    Modem.TakeEffect(m, Modem.AppSleep, w.sleepWait);
    var m1 := Modem.Take(m, Modem.AppSleep, w.sleepWait).0;
    Modem.HandleAllEffect(m1, w.beforeSleepCheck);
    Modem.PsmSplit(w.sleepWait, w.beforeSleepCheck, m.appInPsm);
    Modem.ReturnLogs(Modem.HandleAll(m1, w.beforeSleepCheck), w.fallback);
  }

  /** The flags once the record of sleep is dropped. */
  lemma ForgetFlags(m: Modem.State, w: StepWorld)
    ensures var m2 := Modem.ForgetSleep(Modem.ReturnToGnss(m, w.deactivate).0, w.whileForgetting);
      && m2.log == m.log + [Modem.LteDeactivate(w.deactivate.err == 0)]
      && Modem.FlagsOf(m2).(online := false) == Renewed(w)
  {
    var m1 := Modem.ReturnToGnss(m, w.deactivate).0;
    Modem.ReturnLogs(m, w.deactivate);
    Modem.ReturnClears(m, w.deactivate);
    Modem.HandleAllEffect(Modem.Reset(m1, Modem.AppSleep), w.whileForgetting);
    RenewedSplit(w);
  }

  lemma RenewedSplit<Pvt>(w: StepWorld<Pvt>)
    ensures var a, b := w.deactivate.during, w.whileForgetting;
      Renewed(w) == Modem.Flags(
        Modem.Registered(b, Modem.Registered(a, false)), Modem.Granted(b, Modem.Granted(a, false)),
        Modem.PsmFlag(b, Modem.PsmFlag(a, false)), false, false)
  {
    Modem.RegisteredSplit(w.deactivate.during, w.whileForgetting, false);
    Modem.GrantedSplit(w.deactivate.during, w.whileForgetting, false);
    Modem.PsmSplit(w.deactivate.during, w.whileForgetting, false);
  }

  /** The upload of a negotiation. */
  lemma UploadRenewed(m: Modem.State, w: StepWorld)
    requires Modem.FlagsOf(m).(online := false) == Renewed(w)
    ensures var (m1, err) := Modem.PrepareUpload(m, w.upload);
      && m1.log == m.log + (if Modem.Held(Renewed(w), w.upload) then [] else [Modem.LteNormal(w.upload.mode.err == 0)])
      && (err == 0 <==> Reconnected(w))
      && m1.appInPsm == Modem.PsmFlag(Modem.UploadSeen(Renewed(w), w.upload), false)
  {
    Modem.UploadPrepared(m, w.upload);
    assert Modem.UploadSeen(Modem.FlagsOf(m), w.upload) == Modem.UploadSeen(Renewed(w), w.upload);
    assert !m.appInPsm && m.log + [] == m.log;
  }

  /** The confirmation of a negotiation. */
  lemma ConfirmRenewed(m: Modem.State, w: StepWorld)
    requires m.appInPsm == Modem.PsmFlag(Modem.UploadSeen(Renewed(w), w.upload), false)
    ensures ConfirmSleep(m, w).log == m.log + (if SeenAsleep(w) then [] else [Modem.LteDeactivate(w.fallback.err == 0)])
  {
    SleepConfirmedExactly(m, w);
    Modem.PsmThrough(Modem.UploadSeen(Renewed(w), w.upload), w.sleepWait, w.beforeSleepCheck, false);
    assert m.log + [] == m.log;
  }

  /** From a fresh PSM request on. */
  lemma ReconnectLog(m: Modem.State, w: StepWorld)
    requires Modem.FlagsOf(m).(online := false) == Renewed(w)
    ensures Reconnect(m, w).log == m.log + ReconnectCommands(w)
  {
    var (m1, err) := Modem.PrepareUpload(m, w.upload);
    UploadRenewed(m, w);
    ConfirmRenewed(m1, w);
    var a := if Modem.Held(Renewed(w), w.upload) then [] else [Modem.LteNormal(w.upload.mode.err == 0)];
    var b := if !Reconnected(w) || SeenAsleep(w) then [] else [Modem.LteDeactivate(w.fallback.err == 0)];
    assert m.log + a + b == m.log + (a + b);
    assert m.log + a + [] == m.log + a;
  }

  lemma NegotiationLog(m: Modem.State, w: StepWorld)
    ensures EnablePsmStep(m, w).log == m.log + NegotiationCommands(w)
  {
    var m2 := Modem.ForgetSleep(Modem.ReturnToGnss(m, w.deactivate).0, w.whileForgetting);
    ForgetFlags(m, w);
    Modem.ReturnLogs(m, w.deactivate);
    if w.deactivate.err == 0 && w.psmErr == 0 {
      var m3 := Modem.Issue(m2, Modem.PsmRequest(true, true));
      ReconnectLog(m3, w);
      assert EnablePsmStep(m, w) == Reconnect(m3, w);
      Regroup(m.log, Modem.LteDeactivate(true), Modem.PsmRequest(true, true), ReconnectCommands(w));
    }
  }

  lemma Regroup(log: seq<Modem.Command>, a: Modem.Command, b: Modem.Command, more: seq<Modem.Command>)
    ensures log + [a] + [b] + more == log + ([a] + ([b] + more))
  {
  }

  lemma EnablePsmTable<Pvt>(cap: nat, d: Device<Pvt>, w: StepWorld<Pvt>)
    requires d.backlog.buf.stride > 0
    ensures var (d', next) := Step(cap, d, EnablePsm, w);
      && next == Some(DisablePsm)
      && Issued(d, d', NegotiationCommands(w))
      && NoReport(d, d') && NoMqtt(d, d', w)
  {
    Modem.HandleAllEffect(d.m, w.lteEvents);
    NegotiationLog(Modem.HandleAll(d.m, w.lteEvents), w);
  }

  lemma DisablePsmTable<Pvt>(cap: nat, d: Device<Pvt>, w: StepWorld<Pvt>)
    requires d.backlog.buf.stride > 0
    ensures var (d', next) := Step(cap, d, DisablePsm, w);
      var withdrawn := w.deactivate.err == 0 && w.psmErr == 0;
      && next == Some(if withdrawn then WaitForLowPower else DisablePsm)
      && Issued(d, d', [Modem.LteDeactivate(w.deactivate.err == 0)]
                       + if w.deactivate.err != 0 then [] else [Modem.PsmRequest(false, w.psmErr == 0)])
      && (withdrawn ==> !d'.m.appOnline && d'.m.appInPsm == Modem.PsmFlag(w.whileWithdrawing, false))
      && NoReport(d, d') && NoMqtt(d, d', w)
  {
    var m0 := Modem.HandleAll(d.m, w.lteEvents);
    Modem.HandleAllEffect(d.m, w.lteEvents);
    Modem.ReturnLogs(m0, w.deactivate);
    var m1 := Modem.ReturnToGnss(m0, w.deactivate).0;
    Modem.HandleAllEffect(Modem.Issue(m1.(appInPsm := false), Modem.PsmRequest(false, w.psmErr == 0)), w.whileWithdrawing);
  }

  /** The cleanup is retried exactly when GNSS cannot be stopped, or PSM is given up and LTE
      cannot be deactivated; GNSS is stopped first, and LTE only touched once that is done. */
  lemma RetriedExactly<Pvt>(d: Device<Pvt>, w: StepWorld<Pvt>)
    ensures var (d', next) := LowPowerStep(d, w);
      var stopped := !d.gnssNeedsStop || w.gnssStopErr == 0;
      var fallsBack := Modem.FallsBack(Modem.FlagsOf(d.m), w.lowPower);
      && next == (if !stopped || (fallsBack && w.lowPower.mode.err != 0) then EnterLowPower else DisablePsm)
      && Issued(d, d', (if d.gnssNeedsStop then [Modem.GnssStop(w.gnssStopErr == 0)] else [])
                       + (if stopped && fallsBack then [Modem.LteDeactivate(w.lowPower.mode.err == 0)] else []))
      && (d'.gnssNeedsStop <==> !stopped) && d'.backlog == d.backlog && d'.c == d.c
  {
    var m := if d.gnssNeedsStop then Modem.Issue(d.m, Modem.GnssStop(true)) else d.m;
    assert Modem.FlagsOf(m) == Modem.FlagsOf(d.m);
    Modem.NoLostWakeup(m, w.lowPower);
  }

  lemma EnterLowPowerTable<Pvt>(cap: nat, d: Device<Pvt>, w: StepWorld<Pvt>)
    requires d.backlog.buf.stride > 0
    ensures var (d', next) := Step(cap, d, EnterLowPower, w);
      var stopped := !d.gnssNeedsStop || w.gnssStopErr == 0;
      var fallsBack := Modem.FallsBack(Lte(d, w), w.lowPower);
      && next == Some(if !stopped || (fallsBack && w.lowPower.mode.err != 0) then EnterLowPower else DisablePsm)
      && Issued(d, d', (if d.gnssNeedsStop then [Modem.GnssStop(w.gnssStopErr == 0)] else [])
                       + (if stopped && fallsBack then [Modem.LteDeactivate(w.lowPower.mode.err == 0)] else []))
      && (d'.gnssNeedsStop <==> !stopped) && d'.backlog == d.backlog && NoMqtt(d, d', w)
  {
    Modem.HandleAllEffect(d.m, w.lteEvents);
    RetriedExactly(d.(m := Modem.HandleAll(d.m, w.lteEvents), c := Mqtt.HandleAll(d.c, w.mqttEvents)), w);
  }

  /** The two waiting states do nothing but move on. */
  lemma WaitingTable<Pvt>(cap: nat, d: Device<Pvt>, w: StepWorld<Pvt>, st: TrackerState)
    requires d.backlog.buf.stride > 0 && st in {WaitForLowPower, LowPower}
    ensures var (d', next) := Step(cap, d, st, w);
      && next == Some(if st == LowPower then WaitForGnss else LowPower)
      && Issued(d, d', []) && NoReport(d, d') && NoMqtt(d, d', w)
  {
    Modem.HandleAllEffect(d.m, w.lteEvents);
  }

  // ---- Progress -----------------------------------------------------------------------

  function Rank(st: TrackerState): nat {
    match st
    case WaitForGnss => 9
    case ConnectLte => 8
    case ConnectMqtt => 7
    case PublishBacklog => 6
    case DisconnectMqtt => 5
    case EnablePsm => 4
    case EnterLowPower => 4
    case DisablePsm => 3
    case WaitForLowPower => 2
    case LowPower => 1
  }

  /** A cleanup that failed and has to be executed again. */
  predicate Retries(st: TrackerState, next: TrackerState) {
    st == next && st in {DisconnectMqtt, DisablePsm, EnterLowPower}
  }

  /** Every completed step lowers the rank, closes the cycle, or is a failed cleanup. */
  lemma StepDescends<Pvt>(cap: nat, d: Device<Pvt>, st: TrackerState, w: StepWorld<Pvt>)
    requires d.backlog.buf.stride > 0
    ensures var next := Step(cap, d, st, w).1;
      next.Some? ==> Rank(next.value) < Rank(st) || Retries(st, next.value) || (st == LowPower && next.value == WaitForGnss)
  {
  }

  /** The states executed from `st` on, one for each completed step. */
  function States<Pvt>(cap: nat, d: Device<Pvt>, st: TrackerState, steps: seq<StepWorld<Pvt>>): seq<TrackerState>
    requires d.backlog.buf.stride > 0
    decreases |steps|
  {
    [st] +
    if steps == [] then []
    else
      StrideStays(cap, d, st, steps[0]);
      var (d', next) := Step(cap, d, st, steps[0]);
      if next.None? then [] else States(cap, d', next.value, steps[1..])
  }

  function RetryCount(states: seq<TrackerState>): nat {
    if |states| < 2 then 0 else (if Retries(states[0], states[1]) then 1 else 0) + RetryCount(states[1..])
  }

  ghost predicate NoReturn(states: seq<TrackerState>) {
    forall i :: 0 < i < |states| ==> states[i] != WaitForGnss
  }

  /** A stretch of execution that does not come back to WAIT_FOR_GNSS is no longer than the
      rank it starts from plus its failed cleanups. */
  lemma {:induction false} Progress<Pvt>(cap: nat, d: Device<Pvt>, st: TrackerState, steps: seq<StepWorld<Pvt>>)
    requires d.backlog.buf.stride > 0
    requires NoReturn(States(cap, d, st, steps))
    ensures var ss := States(cap, d, st, steps); |ss| <= Rank(st) + RetryCount(ss)
    decreases |steps|
  {
    if steps == [] {
    } else {
      StrideStays(cap, d, st, steps[0]);
      StepDescends(cap, d, st, steps[0]);
      var (d', next) := Step(cap, d, st, steps[0]);
      if next.Some? {
        var ss, rest := States(cap, d, st, steps), States(cap, d', next.value, steps[1..]);
        assert ss == [st] + rest && rest[0] == next.value;
        assert ss[1..] == rest && ss[1] == next.value;
        assert NoReturn(rest) by {
          assert forall i :: 0 < i < |rest| ==> rest[i] == ss[i + 1];
        }
        Progress(cap, d', next.value, steps[1..]);
      }
    }
  }

  /** Between two executions of WAIT_FOR_GNSS at most nine states are executed, counting the
      first, plus one for every failed disconnect, PSM withdrawal or low-power entry. */
  lemma CycleLength<Pvt>(cap: nat, d: Device<Pvt>, steps: seq<StepWorld<Pvt>>)
    requires d.backlog.buf.stride > 0
    requires NoReturn(States(cap, d, WaitForGnss, steps))
    ensures var ss := States(cap, d, WaitForGnss, steps); |ss| <= 9 + RetryCount(ss)
  {
    Progress(cap, d, WaitForGnss, steps);
  }

  // ---- The application as the firmware has it -----------------------------------------

  class Controller<Pvt> {
    const backlog: Machine.Backlog<Report<Pvt>>
    const radio: Modem.Radio
    const client: Mqtt.Client
    const receiver: Gnss.Receiver<Pvt>
    var gnssNeedsStop: bool

    ghost predicate Valid()
      reads backlog, backlog.entries
    {
      backlog.Valid()
    }

    ghost function Current(): Device<Pvt>
      reads this, backlog, radio, client
    {
      Device(radio.Current(), client.State(), backlog.tracked, gnssNeedsStop)
    }

    constructor (cap: nat)
      requires cap >= 1
      ensures Valid() && backlog.cap == cap
      ensures fresh(backlog) && fresh(backlog.entries) && fresh(radio) && fresh(client) && fresh(receiver)
      ensures Current() == Device(Modem.POWER_ON, Mqtt.Conn(false, false, false, 0, 0, 0, false), Initial(), false)
    {
      backlog := new Machine.Backlog<Report<Pvt>>(cap);
      radio := new Modem.Radio();
      client := new Mqtt.Client();
      receiver := new Gnss.Receiver<Pvt>();
      gnssNeedsStop := false;
    }

    /** Start-up: `running` is false when initialization failed and the application stops. */
    method Initialize(b: Boot) returns (running: bool)
      requires Current() == Device(Modem.POWER_ON, Mqtt.Conn(false, false, false, 0, 0, 0, false), Initial(), false)
      modifies radio
      ensures running <==> StartUp<Pvt>(b).Some?
      ensures running ==> StartUp(b) == Some(Current())
    {
      var err := radio.Start(b.modem);
      if err != 0 {
        return false;
      }
      radio.Command(Modem.PsmRequest(false, b.withdrawErr == 0));
      if b.withdrawErr != 0 {
        return false;
      }
      return b.mqttErr == 0;
    }

    /** Start GNSS and collect; the position counts only with the result 0. */
    method AcquirePosition(w: StepWorld<Pvt>) returns (ended: Option<int>, have: Option<Pvt>)
      modifies radio, receiver
      ensures radio.Current() == StartGnss(old(radio.Current()), w.start)
      ensures ended == Acquire(w)
      ensures ended == Some(0) ==> have == Gnss.Collect([], None, w.session).have
    {
      if w.start.setupErr == 0 {
        radio.Command(Modem.GnssStart(w.start.startErr == 0));
      }
      have := None;
      ended := Some(StartErr(w.start));
      if ended.value == 0 {
        ended, have := receiver.CollectUntilStop(w.session);
      }
    }

    method BufferReport(err: int, have: Option<Pvt>) returns (ok: bool)
      requires Valid()
      modifies backlog, backlog.entries
      ensures !ok <==> Machine.Traps(backlog.cap, old(backlog.State()))
      ensures ok ==> Valid() && backlog.tracked == Apply(backlog.cap, old(backlog.tracked), AddOp(ReportOf(err, have)))
    {
      var report := NoFix;
      if err == 0 && have.Some? {
        report := Located(have.value);
      }
      ok := backlog.Add(report);
    }

    /** `ok` is false only when buffering the report overflows the stride. */
    method WaitForGnssState(w: StepWorld<Pvt>) returns (ok: bool, next: Option<TrackerState>)
      requires Valid()
      modifies this, backlog, backlog.entries, radio, receiver
      ensures !ok <==> Buffers(w) && Machine.Traps(backlog.cap, old(backlog.State()))
      ensures ok ==> Valid() && (Current(), next) == GnssStep(backlog.cap, old(Current()), w)
    {
      var err := radio.DeactivateLte(w.deactivate);
      if err != 0 {
        return true, Some(EnterLowPower);
      }
      gnssNeedsStop := true;
      var ended, have := AcquirePosition(w);
      if ended.None? {
        return true, None;
      }
      err := ended.value;
      if err == 0 || err == -ENODATA || err == -ETIMEDOUT {
        ok := BufferReport(err, have);
        if !ok {
          return false, None;
        }
        err := 0;
      }
      next := StopGnss(err, w.gnssStopErr);
      ok := true;
    }

    method StopGnss(err: int, stopErr: int) returns (next: Option<TrackerState>)
      modifies `gnssNeedsStop, radio
      ensures radio.Current() == Modem.Issue(old(radio.Current()), Modem.GnssStop(stopErr == 0))
      ensures gnssNeedsStop == (old(gnssNeedsStop) && stopErr != 0)
      ensures next == Some(if err == 0 && stopErr == 0 then ConnectLte else EnterLowPower)
    {
      var result := err;
      radio.Command(Modem.GnssStop(stopErr == 0));
      if stopErr != 0 {
        if result == 0 {
          result := stopErr;
        }
      }
      if stopErr == 0 {
        gnssNeedsStop := false;
      }
      return Some(if result == 0 then ConnectLte else EnterLowPower);
    }

    method EnablePsmState(w: StepWorld<Pvt>)
      modifies radio
      ensures radio.Current() == EnablePsmStep(old(radio.Current()), w)
    {
      var err := radio.DeactivateLte(w.deactivate);
      radio.ClearSleep(w.whileForgetting);
      if err == 0 {
        radio.Command(Modem.PsmRequest(true, w.psmErr == 0));
        err := w.psmErr;
      }
      if err == 0 {
        ReconnectUplink(w);
      }
    }

    method ReconnectUplink(w: StepWorld<Pvt>)
      modifies radio
      ensures radio.Current() == Reconnect(old(radio.Current()), w)
    {
      var err := radio.OpenUplink(w.upload);
      if err == 0 {
        AwaitSleep(w);
      }
    }

    method AwaitSleep(w: StepWorld<Pvt>)
      modifies radio
      ensures radio.Current() == ConfirmSleep(old(radio.Current()), w)
    {
      var taken := radio.TakeSem(Modem.AppSleep, w.sleepWait);
      radio.Yield(w.beforeSleepCheck);
      if !radio.appInPsm {
        var err := radio.DeactivateLte(w.fallback);
      }
    }

    method DisablePsmState(w: StepWorld<Pvt>) returns (next: TrackerState)
      modifies radio
      ensures (radio.Current(), next) == DisablePsmStep(old(radio.Current()), w)
    {
      var err := radio.DeactivateLte(w.deactivate);
      if err == 0 {
        radio.appInPsm := false;
        radio.Command(Modem.PsmRequest(false, w.psmErr == 0));
        radio.Yield(w.whileWithdrawing);
        err := w.psmErr;
      }
      if err != 0 {
        return DisablePsm;
      }
      radio.appOnline := false;
      return WaitForLowPower;
    }

    method EnterLowPowerState(w: StepWorld<Pvt>) returns (next: TrackerState)
      modifies `gnssNeedsStop, radio
      ensures (Current(), next) == LowPowerStep(old(Current()), w)
    {
      if gnssNeedsStop {
        radio.Command(Modem.GnssStop(w.gnssStopErr == 0));
        if w.gnssStopErr != 0 {
          return EnterLowPower;
        }
        gnssNeedsStop := false;
      }
      var err := radio.Sleep(w.lowPower);
      return if err != 0 then EnterLowPower else DisablePsm;
    }

    /** `ok` is false only when buffering a report overflows the stride. */
    method RunState(st: TrackerState, w: StepWorld<Pvt>) returns (ok: bool, next: Option<TrackerState>)
      requires Valid()
      modifies this, backlog, backlog.entries, radio, client, receiver
      ensures !ok <==> st == WaitForGnss && Buffers(w) && Machine.Traps(backlog.cap, old(backlog.State()))
      ensures ok ==> Valid() && (Current(), next) == Execute(backlog.cap, old(Current()), st, w)
    {
      ok := true;
      match st {
        case WaitForGnss =>
          ok, next := WaitForGnssState(w);
        case ConnectLte =>
          var err := radio.OpenUplink(w.upload);
          next := Some(if err == 0 then ConnectMqtt else EnterLowPower);
        case ConnectMqtt =>
          var err := client.ConnectBroker(w.connect);
          next := Some(if err == 0 then PublishBacklog else DisconnectMqtt);
        case PublishBacklog =>
          DrainBacklog(backlog, client, w.publish);
          next := Some(DisconnectMqtt);
        case DisconnectMqtt =>
          var err := client.DisconnectBroker(w.disconnect);
          next := Some(if err != 0 then DisconnectMqtt else EnablePsm);
        case EnablePsm =>
          EnablePsmState(w);
          next := Some(DisablePsm);
        case DisablePsm =>
          var after := DisablePsmState(w);
          next := Some(after);
        case WaitForLowPower =>
          next := Some(LowPower);
        case LowPower =>
          next := Some(WaitForGnss);
        case EnterLowPower =>
          var after := EnterLowPowerState(w);
          next := Some(after);
      }
    }

    /** The main loop, one turn for each press: events of the pause, then one state. `ok` is
        false only when a report overflowed the stride. */
    method Loop(steps: seq<StepWorld<Pvt>>) returns (ok: bool, next: Option<TrackerState>)
      requires Valid()
      modifies this, backlog, backlog.entries, radio, client, receiver
      ensures ok ==> Valid() && (Current(), next) == RunSteps(backlog.cap, old(Current()), steps)
    {
      ok, next := true, Some(WaitForGnss);
      for i := 0 to |steps|
        invariant ok && Valid()
        invariant (Current(), next) == RunSteps(backlog.cap, old(Current()), steps[..i])
      {
        assert steps[..i + 1][..i] == steps[..i];
        if next.Some? {
          radio.Yield(steps[i].lteEvents);
          client.Yield(steps[i].mqttEvents);
          ok, next := RunState(next.value, steps[i]);
          if !ok {
            return;
          }
        }
      }
      assert steps[..|steps|] == steps;
    }
  }
}
