/** The automatic application: its six-state loop over the array backlog, the modem and the
    MQTT module. */
module Tracker {
  import opened Common
  import opened BacklogModel
  import opened Publishing
  import Machine = BacklogMachine
  import Mqtt
  import Modem

  datatype TrackerState =
    | WaitForGnss | ConnectLte | ConnectMqtt | PublishBacklog | DisconnectMqtt | EnterLowPower

  /** What the environment decides during one state; `acquired` is the fix, if one comes in time. */
  datatype StepWorld<!Fix> = StepWorld(
    lteEvents: seq<Modem.Event>, mqttEvents: seq<Mqtt.Event>, acquired: Option<Fix>,
    upload: Modem.UploadWorld, connect: Mqtt.ConnectWorld, publish: nat -> Mqtt.PublishWorld,
    disconnect: Mqtt.DisconnectWorld, lowPower: Modem.LowPowerWorld)

  datatype Device<Fix> = Device(t: Tracked<Fix>, c: Mqtt.Conn, m: Modem.State)

  function Execute<Fix>(cap: nat, d: Device<Fix>, st: TrackerState, w: StepWorld<Fix>): (Device<Fix>, TrackerState)
    requires d.t.buf.stride > 0
  {
    match st
    case WaitForGnss =>
      if w.acquired.Some? then (d.(t := Apply(cap, d.t, AddOp(w.acquired.value))), ConnectLte) else (d, EnterLowPower)
    case ConnectLte =>
      var (m, err) := Modem.PrepareUpload(d.m, w.upload);
      (d.(m := m), if err == 0 then ConnectMqtt else EnterLowPower)
    case ConnectMqtt =>
      var (c, err) := Mqtt.Connect(d.c, w.connect);
      (d.(c := c), if err == 0 then PublishBacklog else DisconnectMqtt)
    case PublishBacklog =>
      var (t, c) := Drain(cap, d.t, d.c, w.publish, 0);
      (d.(t := t, c := c), DisconnectMqtt)
    case DisconnectMqtt => (d.(c := Mqtt.Disconnect(d.c, w.disconnect).0), EnterLowPower)
    case EnterLowPower => (d.(m := Modem.EnterLowPower(d.m, w.lowPower).0), WaitForGnss)
  }

  function Step<Fix>(cap: nat, d: Device<Fix>, st: TrackerState, w: StepWorld<Fix>): (r: (Device<Fix>, TrackerState))
    requires d.t.buf.stride > 0
    ensures r.0.t.buf.stride > 0
  {
    var c := Mqtt.HandleAll(d.c, w.mqttEvents);
    DrainStride(cap, d.t, c, w.publish, 0);
    Execute(cap, d.(m := Modem.HandleAll(d.m, w.lteEvents), c := c), st, w)
  }

  function RunSteps<Fix>(cap: nat, d: Device<Fix>, steps: seq<StepWorld<Fix>>): (r: (Device<Fix>, TrackerState))
    requires d.t.buf.stride > 0
    ensures r.0.t.buf.stride > 0
  {
    if steps == [] then (d, WaitForGnss)
    else
      var (d1, st) := RunSteps(cap, d, steps[..|steps| - 1]);
      Step(cap, d1, st, steps[|steps| - 1])
  }

  function AcquiredIn<Fix>(st: TrackerState, w: StepWorld<Fix>): seq<Fix> {
    if st == WaitForGnss && w.acquired.Some? then [w.acquired.value] else []
  }

  /** The fixes acquired in a run, in order. */
  function Acquired<Fix>(cap: nat, d: Device<Fix>, steps: seq<StepWorld<Fix>>): seq<Fix>
    requires d.t.buf.stride > 0
  {
    if steps == [] then []
    else
      var init, w := steps[..|steps| - 1], steps[|steps| - 1];
      Acquired(cap, d, init) + AcquiredIn(RunSteps(cap, d, init).1, w)
  }

  lemma {:induction false} DrainHistory<Fix>(
      cap: nat, t: Tracked<Fix>, c: Mqtt.Conn, publish: nat -> Mqtt.PublishWorld, k: nat)
    requires t.buf.stride > 0
    ensures Drain(cap, t, c, publish, k).0.history == t.history
    decreases |t.buf.entries|
  {
    if t.buf.entries == [] {
    } else {
      var (c', err) := Mqtt.Publish(c, Mqtt.AtLeastOnce, publish(k));
      if err == 0 {
        DrainHistory(cap, Apply(cap, t, RemoveOp), c', publish, k + 1);
      }
    }
  }

  predicate NeedsWork(st: TrackerState) {
    st == ConnectLte || st == ConnectMqtt || st == PublishBacklog
  }

  lemma StepKeepsBacklog<Fix>(cap: nat, d: Device<Fix>, st: TrackerState, w: StepWorld<Fix>)
    requires Inv(cap, d.t) && (NeedsWork(st) ==> d.t.buf.entries != [])
    ensures var (d', st') := Step(cap, d, st, w);
      && Inv(cap, d'.t)
      && d'.t.history == d.t.history + AcquiredIn(st, w)
      && (NeedsWork(st') ==> d'.t.buf.entries != [])
  {
    assert d.t.history + [] == d.t.history;
    match st
    case WaitForGnss =>
      if w.acquired.Some? {
        AddInv(cap, d.t, w.acquired.value);
      }
    case PublishBacklog =>
      DrainInv(cap, d.t, Mqtt.HandleAll(d.c, w.mqttEvents), w.publish, 0);
      DrainHistory(cap, d.t, Mqtt.HandleAll(d.c, w.mqttEvents), w.publish, 0);
    case _ =>
  }

  /** From the backlog `t` the device has come to `d`, about to execute `st`, having acquired
      `fixes`: the invariant holds, every fix acquired was offered to the backlog, in order,
      and the uplink is only opened with something to send. */
  ghost predicate Kept<Fix>(cap: nat, t: Tracked<Fix>, d: Device<Fix>, st: TrackerState, fixes: seq<Fix>) {
    && Inv(cap, d.t)
    && d.t.history == t.history + fixes
    && (NeedsWork(st) ==> d.t.buf.entries != [])
  }

  lemma KeptStep<Fix>(cap: nat, t: Tracked<Fix>, d: Device<Fix>, st: TrackerState, fixes: seq<Fix>, w: StepWorld<Fix>)
    requires Kept(cap, t, d, st, fixes)
    ensures Kept(cap, t, Step(cap, d, st, w).0, Step(cap, d, st, w).1, fixes + AcquiredIn(st, w))
  {
    StepKeepsBacklog(cap, d, st, w);
    assert t.history + fixes + AcquiredIn(st, w) == t.history + (fixes + AcquiredIn(st, w));
  }

  lemma RunMore<Fix>(cap: nat, d: Device<Fix>, steps: seq<StepWorld<Fix>>)
    requires d.t.buf.stride > 0 && steps != []
    ensures var init, w := steps[..|steps| - 1], steps[|steps| - 1]; var (d1, st) := RunSteps(cap, d, init);
      && RunSteps(cap, d, steps) == Step(cap, d1, st, w)
      && Acquired(cap, d, steps) == Acquired(cap, d, init) + AcquiredIn(st, w)
  {
  }

  /** Over whole runs, whatever fails, the backlog is kept. */
  lemma {:induction false} RunKeepsBacklog<Fix>(cap: nat, d: Device<Fix>, steps: seq<StepWorld<Fix>>)
    requires Inv(cap, d.t)
    ensures var (d', st) := RunSteps(cap, d, steps);
      Kept(cap, d.t, d', st, Acquired(cap, d, steps))
  {
    if steps == [] {
      assert d.t.history + [] == d.t.history;
    } else {
      var init, w := steps[..|steps| - 1], steps[|steps| - 1];
      RunKeepsBacklog(cap, d, init);
      RunMore(cap, d, steps);
      var (d1, st) := RunSteps(cap, d, init);
      KeptStep(cap, d.t, d1, st, Acquired(cap, d, init), w);
    }
  }

  /** What the calls of the start-up return. */
  datatype Boot = Boot(modem: Modem.InitWorld, mqttErr: int, gnssErr: int)

  /** Start-up: the modem, MQTT, then GNSS. `None` if any of it fails and the application stops. */
  function StartUp<Fix>(b: Boot): Option<Device<Fix>> {
    var (m, err) := Modem.Initialize(b.modem);
    if err != 0 || b.mqttErr != 0 || b.gnssErr != 0 then None
    else Some(Device(Initial(), Mqtt.Conn(false, false, false, 0, 0, 0, false), Modem.Issue(m, Modem.GnssStart(true))))
  }

  /** Start-up succeeds exactly when every call but the PSM request of the modem module does. */
  lemma StartUpExactly<Fix>(b: Boot)
    ensures var r: Option<Device<Fix>> := StartUp(b);
      && (r.Some? <==>
            && b.modem.libErr == 0 && b.modem.paramErr == 0 && b.modem.mode.err == 0 && b.modem.activateErr == 0
            && b.mqttErr == 0 && b.gnssErr == 0)
      && (r.Some? ==>
            && r.value.m.log == [Modem.PsmRequest(true, b.modem.psmErr == 0), Modem.LteDeactivate(true),
                                 Modem.GnssActivate(true), Modem.GnssStart(true)]
            && r.value.t == Initial() && !r.value.c.connectAttempted)
  {
    Modem.InitializeExactly(b.modem);
  }

  // ---- The state table ----------------------------------------------------------------
  //
  // Where each state leads and what it does, in terms of what the environment did: of the
  // fix, registrations, sleep events, CONNACKs, disconnects and call results of the step.

  /** The LTE flags as the state begins. */
  function Lte<Fix>(d: Device<Fix>, w: StepWorld<Fix>): Modem.Flags {
    Modem.FlagsAfter(Modem.FlagsOf(d.m), w.lteEvents)
  }

  /** The attempt flag as the state begins. */
  predicate Attempted<Fix>(d: Device<Fix>, w: StepWorld<Fix>) {
    d.c.connectAttempted && Mqtt.Disconnected !in w.mqttEvents
  }

  /** The step issued just these commands. */
  predicate Issued<Fix>(d: Device<Fix>, d': Device<Fix>, commands: seq<Modem.Command>) {
    d'.m.log == d.m.log + commands
  }

  /** The step saw MQTT events but made no MQTT call. */
  predicate NoMqtt<Fix>(d: Device<Fix>, d': Device<Fix>, w: StepWorld<Fix>) {
    d'.c == Mqtt.HandleAll(d.c, w.mqttEvents)
  }

  /** An acquired fix is buffered at once and opens the uplink; without one nothing changes. */
  lemma WaitForGnssTable<Fix>(cap: nat, d: Device<Fix>, w: StepWorld<Fix>)
    requires Inv(cap, d.t)
    ensures var (d', next) := Step(cap, d, WaitForGnss, w);
      && next == (if w.acquired.Some? then ConnectLte else EnterLowPower)
      && (w.acquired.Some? ==> d'.t.history == d.t.history + [w.acquired.value] && d'.t.buf.entries != [])
      && (w.acquired.None? ==> d'.t == d.t)
      && Issued(d, d', []) && NoMqtt(d, d', w)
  {
    Modem.HandleAllEffect(d.m, w.lteEvents);
    StepKeepsBacklog(cap, d, WaitForGnss, w);
  }

  lemma ConnectLteTable<Fix>(cap: nat, d: Device<Fix>, w: StepWorld<Fix>)
    requires d.t.buf.stride > 0
    ensures var (d', next) := Step(cap, d, ConnectLte, w);
      var held := Modem.Held(Lte(d, w), w.upload);
      var registered := w.upload.mode.err == 0 && Modem.Registration(true) in w.upload.mode.during + w.upload.waiting;
      && next == (if held || registered then ConnectMqtt else EnterLowPower)
      && Issued(d, d', if held then [] else [Modem.LteNormal(w.upload.mode.err == 0)])
      && d'.t == d.t && NoMqtt(d, d', w)
  {
    Modem.HandleAllEffect(d.m, w.lteEvents);
    Modem.UploadPrepared(Modem.HandleAll(d.m, w.lteEvents), w.upload);
  }

  lemma ConnectMqttTable<Fix>(cap: nat, d: Device<Fix>, w: StepWorld<Fix>)
    requires d.t.buf.stride > 0
    ensures var (d', next) := Step(cap, d, ConnectMqtt, w);
      var accepted := Mqtt.LastConnack(w.connect.duringCall + w.connect.beforeSet + w.connect.waiting, 1) == 0;
      && next == (if w.connect.helperErr == 0 && accepted then PublishBacklog else DisconnectMqtt)
      && (d'.c.connectAttempted <==>
            if w.connect.helperErr == 0 then Mqtt.Disconnected !in w.connect.waiting
            else Attempted(d, w) && Mqtt.Disconnected !in w.connect.beforeInit + w.connect.duringCall)
      && Issued(d, d', []) && d'.t == d.t
  {
    var c := Mqtt.HandleAll(d.c, w.mqttEvents);
    Modem.HandleAllEffect(d.m, w.lteEvents);
    Mqtt.HandleAllEffect(d.c, w.mqttEvents);
    Mqtt.ConnectSucceedsExactly(c, w.connect);
    Mqtt.ConnectFlagExactly(c, w.connect);
  }

  /** The publish state removes exactly what its publishes confirmed, and moves on. */
  lemma PublishTable<Fix>(cap: nat, d: Device<Fix>, w: StepWorld<Fix>)
    requires d.t.buf.stride > 0
    ensures var (d', next) := Step(cap, d, PublishBacklog, w);
      && next == DisconnectMqtt
      && (exists n :: Drained(d.t, d'.t, Mqtt.HandleAll(d.c, w.mqttEvents), d'.c, w.publish, n))
      && Issued(d, d', [])
  {
    Modem.HandleAllEffect(d.m, w.lteEvents);
    DrainRemovesConfirmed(cap, d.t, Mqtt.HandleAll(d.c, w.mqttEvents), w.publish);
  }

  /** Unlike the button-stepped application, this one moves on however the disconnect ends. */
  lemma DisconnectTable<Fix>(cap: nat, d: Device<Fix>, w: StepWorld<Fix>)
    requires d.t.buf.stride > 0
    ensures var (d', next) := Step(cap, d, DisconnectMqtt, w);
      && next == EnterLowPower
      && (d'.c.connectAttempted <==> Attempted(d, w) && Mqtt.Disconnected !in Mqtt.DisconnectSeen(w.disconnect))
      && Issued(d, d', []) && d'.t == d.t
  {
    Modem.HandleAllEffect(d.m, w.lteEvents);
    Mqtt.HandleAllEffect(d.c, w.mqttEvents);
    Mqtt.DisconnectSucceedsExactly(Mqtt.HandleAll(d.c, w.mqttEvents), w.disconnect);
  }

  /** LTE is deactivated exactly when PSM is given up; the next cycle begins either way. */
  lemma EnterLowPowerTable<Fix>(cap: nat, d: Device<Fix>, w: StepWorld<Fix>)
    requires d.t.buf.stride > 0
    ensures var (d', next) := Step(cap, d, EnterLowPower, w);
      && next == WaitForGnss
      && Issued(d, d', if Modem.FallsBack(Lte(d, w), w.lowPower) then [Modem.LteDeactivate(w.lowPower.mode.err == 0)] else [])
      && d'.t == d.t && NoMqtt(d, d', w)
  {
    Modem.HandleAllEffect(d.m, w.lteEvents);
    Modem.NoLostWakeup(Modem.HandleAll(d.m, w.lteEvents), w.lowPower);
  }

  class Loop<Fix(0)> {
    const backlog: Machine.Backlog<Fix>
    const client: Mqtt.Client
    const radio: Modem.Radio

    ghost predicate Valid()
      reads backlog, backlog.entries
    {
      backlog.Valid()
    }

    ghost function Current(): Device<Fix>
      reads backlog, client, radio
    {
      Device(backlog.tracked, client.State(), radio.Current())
    }

    constructor (cap: nat)
      requires cap >= 1
      ensures Valid() && backlog.cap == cap
      ensures fresh(backlog) && fresh(backlog.entries) && fresh(client) && fresh(radio)
      ensures Current() == Device(Initial(), Mqtt.Conn(false, false, false, 0, 0, 0, false), Modem.POWER_ON)
    {
      backlog := new Machine.Backlog<Fix>(cap);
      client := new Mqtt.Client();
      radio := new Modem.Radio();
    }

    /** Start-up: `running` is false when initialization failed and the application stops. */
    method Initialize(b: Boot) returns (running: bool)
      requires Current() == Device(Initial(), Mqtt.Conn(false, false, false, 0, 0, 0, false), Modem.POWER_ON)
      modifies radio
      ensures running <==> StartUp<Fix>(b).Some?
      ensures running ==> StartUp(b) == Some(Current())
    {
      var err := radio.Start(b.modem);
      if err != 0 || b.mqttErr != 0 {
        return false;
      }
      radio.Command(Modem.GnssStart(b.gnssErr == 0));
      return b.gnssErr == 0;
    }

    /** `ok` is false only when an addition overflows the stride. */
    method RunState(st: TrackerState, w: StepWorld<Fix>) returns (ok: bool, next: TrackerState)
      requires Valid()
      modifies backlog, backlog.entries, client, radio
      ensures !ok <==> st == WaitForGnss && w.acquired.Some? && Machine.Traps(backlog.cap, old(backlog.State()))
      ensures ok ==> Valid() && (Current(), next) == Execute(backlog.cap, old(Current()), st, w)
    {
      ok := true;
      match st {
        case WaitForGnss =>
          next := EnterLowPower;
          if w.acquired.Some? {
            ok := backlog.Add(w.acquired.value);
            next := ConnectLte;
          }
        case ConnectLte =>
          var err := radio.OpenUplink(w.upload);
          next := if err == 0 then ConnectMqtt else EnterLowPower;
        case ConnectMqtt =>
          var err := client.ConnectBroker(w.connect);
          next := if err == 0 then PublishBacklog else DisconnectMqtt;
        case PublishBacklog =>
          DrainBacklog(backlog, client, w.publish);
          next := DisconnectMqtt;
        case DisconnectMqtt =>
          var err := client.DisconnectBroker(w.disconnect);
          next := EnterLowPower;
        case EnterLowPower =>
          var err := radio.Sleep(w.lowPower);
          next := WaitForGnss;
      }
    }

    /** The main loop: the events since the last state, then one state. `ok` is false only when
        an addition overflowed the stride. */
    method RunLoop(steps: seq<StepWorld<Fix>>) returns (ok: bool, st: TrackerState)
      requires Valid()
      modifies backlog, backlog.entries, client, radio
      ensures ok ==> Valid() && (Current(), st) == RunSteps(backlog.cap, old(Current()), steps)
    {
      ok, st := true, WaitForGnss;
      for i := 0 to |steps|
        invariant ok && Valid()
        invariant (Current(), st) == RunSteps(backlog.cap, old(Current()), steps[..i])
      {
        assert steps[..i + 1][..i] == steps[..i];
        radio.Yield(steps[i].lteEvents);
        client.Yield(steps[i].mqttEvents);
        ok, st := RunState(st, steps[i]);
        if !ok {
          return;
        }
      }
      assert steps[..|steps|] == steps;
    }
  }
}
