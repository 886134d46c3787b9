/** Every run of the delivery protocol is, state by state, a run of the automatic application
    with the same backlog: the application's whole loop, not only its publishes. */
module Simulation {
  import opened Common
  import opened BacklogModel
  import opened LoopTrace
  import Publishing
  import Mqtt
  import Modem
  import Tracker
  import Protocol = Delivery
  import Progress = DeliveryProgress

  /** The state of the application the thread is in, outside the publish loop. */
  function StateOf(pc: Protocol.Pc): Tracker.TrackerState
    requires !InLoop(pc)
  {
    match pc
    case WaitForGnss => Tracker.WaitForGnss
    case ConnectLte => Tracker.ConnectLte
    case ConnectMqtt => Tracker.ConnectMqtt
    case DisconnectMqtt => Tracker.DisconnectMqtt
    case EnterLowPower => Tracker.EnterLowPower
  }

  const NO_UPLOAD := Modem.UploadWorld([Modem.Registration(false)], Modem.ModeWorld([], [], -1), [])
  const UPLOAD := Modem.UploadWorld([], Modem.ModeWorld([], [], 0), [Modem.Registration(true)])
  const NO_CONNECT := Mqtt.ConnectWorld([], [], -1, [], [])
  const CONNECT := Mqtt.ConnectWorld([], [], 0, [], [Mqtt.Connack(0)])

  /** A step of the application in which nothing succeeds. */
  function Idle<Fix>(): Tracker.StepWorld<Fix> {
    Tracker.StepWorld([], [], None, NO_UPLOAD, NO_CONNECT, Called([]),
      Mqtt.DisconnectWorld([], [], 0, []),
      Modem.LowPowerWorld([], [], [], [], [], [], Modem.ModeWorld([], [], 0)))
  }

  /** The step of the application that an action of the thread stands for, outside the loop. */
  function StepOf<Fix>(a: Protocol.Action<Fix>): Tracker.StepWorld<Fix> {
    match a
    case FixAcquired(fix) => Idle().(acquired := Some(fix))
    case LteUp => Idle().(upload := UPLOAD)
    case MqttUp => Idle().(connect := CONNECT)
    case _ => Idle()
  }

  /** The thread goes from one state to the next, outside the loop or into it. */
  predicate MovesOn<Fix>(a: Protocol.Action<Fix>) {
    || a.FixAcquired? || a.NoFix? || a.LteUp? || a.LteFailed? || a.MqttUp? || a.MqttFailed?
    || a.FinishDisconnect? || a.FinishLowPower?
  }

  function StateAfter(pc: Protocol.Pc): Tracker.TrackerState {
    if InLoop(pc) then Tracker.PublishBacklog else StateOf(pc)
  }

  lemma UploadWorlds(f: Modem.Flags)
    ensures !Modem.Held(f, NO_UPLOAD) && NO_UPLOAD.mode.err != 0
    ensures UPLOAD.mode.err == 0 && Modem.Registration(true) in UPLOAD.mode.during + UPLOAD.waiting
  {
    assert NO_UPLOAD.before[|NO_UPLOAD.before| - 1] == Modem.Registration(false);
  }

  lemma ConnectWorlds()
    ensures NO_CONNECT.helperErr != 0 && CONNECT.helperErr == 0
    ensures Mqtt.LastConnack(CONNECT.duringCall + CONNECT.beforeSet + CONNECT.waiting, 1) == 0
  {
    assert CONNECT.duringCall + CONNECT.beforeSet + CONNECT.waiting == [Mqtt.Connack(0)];
  }

  /** The application's step for the same outcome leads to the same state and backlog. */
  ghost predicate IsStep<Fix>(cap: nat, w: Protocol.World<Fix>, a: Protocol.Action<Fix>, d: Tracker.Device<Fix>)
    requires w.t.buf.stride > 0 && Protocol.Enabled(w, a) && d.t == w.t
  {
    && !InLoop(w.pc)
    && var w', (d', st) := Protocol.Effect(cap, w, a), Tracker.Step(cap, d, StateOf(w.pc), StepOf(a));
       d'.t == w'.t && st == StateAfter(w'.pc)
  }

  lemma AcquisitionIsStep<Fix>(cap: nat, w: Protocol.World<Fix>, a: Protocol.Action<Fix>, d: Tracker.Device<Fix>)
    requires Inv(cap, w.t) && Protocol.Enabled(w, a) && d.t == w.t
    requires a.FixAcquired? || a.NoFix?
    ensures IsStep(cap, w, a, d)
  {
  }

  lemma UploadStep<Fix>(cap: nat, d: Tracker.Device<Fix>)
    requires d.t.buf.stride > 0
    ensures var (d', st) := Tracker.Step(cap, d, Tracker.ConnectLte, Idle<Fix>().(upload := UPLOAD)); d'.t == d.t && st == Tracker.ConnectMqtt
  {
    UploadWorlds(Tracker.Lte(d, Idle<Fix>().(upload := UPLOAD)));
    Tracker.ConnectLteTable(cap, d, Idle<Fix>().(upload := UPLOAD));
  }

  lemma NoUploadStep<Fix>(cap: nat, d: Tracker.Device<Fix>)
    requires d.t.buf.stride > 0
    ensures var (d', st) := Tracker.Step(cap, d, Tracker.ConnectLte, Idle<Fix>()); d'.t == d.t && st == Tracker.EnterLowPower
  {
    UploadWorlds(Tracker.Lte(d, Idle<Fix>()));
    Tracker.ConnectLteTable(cap, d, Idle<Fix>());
  }

  lemma ConnectStep<Fix>(cap: nat, d: Tracker.Device<Fix>)
    requires d.t.buf.stride > 0
    ensures var (d', st) := Tracker.Step(cap, d, Tracker.ConnectMqtt, Idle<Fix>().(connect := CONNECT)); d'.t == d.t && st == Tracker.PublishBacklog
  {
    ConnectWorlds();
    Tracker.ConnectMqttTable(cap, d, Idle<Fix>().(connect := CONNECT));
  }

  lemma NoConnectStep<Fix>(cap: nat, d: Tracker.Device<Fix>)
    requires d.t.buf.stride > 0
    ensures var (d', st) := Tracker.Step(cap, d, Tracker.ConnectMqtt, Idle<Fix>()); d'.t == d.t && st == Tracker.DisconnectMqtt
  {
    ConnectWorlds();
    Tracker.ConnectMqttTable(cap, d, Idle<Fix>());
  }

  lemma DisconnectStep<Fix>(cap: nat, d: Tracker.Device<Fix>)
    requires d.t.buf.stride > 0
    ensures var (d', st) := Tracker.Step(cap, d, Tracker.DisconnectMqtt, Idle<Fix>()); d'.t == d.t && st == Tracker.EnterLowPower
  {
    Tracker.DisconnectTable(cap, d, Idle<Fix>());
  }

  lemma LowPowerStep<Fix>(cap: nat, d: Tracker.Device<Fix>)
    requires d.t.buf.stride > 0
    ensures var (d', st) := Tracker.Step(cap, d, Tracker.EnterLowPower, Idle<Fix>()); d'.t == d.t && st == Tracker.WaitForGnss
  {
    Tracker.EnterLowPowerTable(cap, d, Idle<Fix>());
  }

  lemma UplinkIsStep<Fix>(cap: nat, w: Protocol.World<Fix>, a: Protocol.Action<Fix>, d: Tracker.Device<Fix>)
    requires Inv(cap, w.t) && Protocol.Enabled(w, a) && d.t == w.t
    requires a.LteUp? || a.LteFailed?
    ensures IsStep(cap, w, a, d)
  {
    UploadStep(cap, d);
    NoUploadStep(cap, d);
  }

  lemma ConnectionIsStep<Fix>(cap: nat, w: Protocol.World<Fix>, a: Protocol.Action<Fix>, d: Tracker.Device<Fix>)
    requires Inv(cap, w.t) && Protocol.Enabled(w, a) && d.t == w.t
    requires a.MqttUp? || a.MqttFailed?
    ensures IsStep(cap, w, a, d)
  {
    ConnectStep(cap, d);
    NoConnectStep(cap, d);
  }

  lemma FinishIsStep<Fix>(cap: nat, w: Protocol.World<Fix>, a: Protocol.Action<Fix>, d: Tracker.Device<Fix>)
    requires Inv(cap, w.t) && Protocol.Enabled(w, a) && d.t == w.t
    requires a.FinishDisconnect? || a.FinishLowPower?
    ensures IsStep(cap, w, a, d)
  {
    DisconnectStep(cap, d);
    LowPowerStep(cap, d);
  }

  /** Each move of the thread is the application's step for the same outcome. */
  lemma MoveIsStep<Fix>(cap: nat, w: Protocol.World<Fix>, a: Protocol.Action<Fix>, d: Tracker.Device<Fix>)
    requires Inv(cap, w.t) && Protocol.Enabled(w, a) && d.t == w.t
    requires MovesOn(a)
    ensures IsStep(cap, w, a, d)
  {
    if a.LteUp? || a.LteFailed? {
      UplinkIsStep(cap, w, a, d);
    } else if a.MqttUp? || a.MqttFailed? {
      ConnectionIsStep(cap, w, a, d);
    } else if a.FinishDisconnect? || a.FinishLowPower? {
      FinishIsStep(cap, w, a, d);
    } else {
      AcquisitionIsStep(cap, w, a, d);
    }
  }

  /** The loop, once left, is the application's publish step with the calls it made. */
  lemma LoopIsStep<Fix>(cap: nat, acts: seq<Protocol.Action<Fix>>, more: seq<Protocol.Action<Fix>>, d: Tracker.Device<Fix>)
    requires cap >= 1 && Protocol.Run(cap, acts).pc.PublishLoop? && d.t == Protocol.Run(cap, acts).t
    requires StaysInLoop(cap, acts, more) && !InLoop(Protocol.Run(cap, acts + more).pc)
    ensures Protocol.Run(cap, acts + more).pc.DisconnectMqtt?
    ensures d.t.buf.stride > 0
    ensures var (d', st) := Tracker.Step(cap, d, Tracker.PublishBacklog, Idle().(publish := Called(Calls(cap, acts, more))));
      d'.t == Protocol.Run(cap, acts + more).t && st == Tracker.DisconnectMqtt
  {
    var n := LoopIsDrain(cap, acts, more, d.c);
    LeavesToDisconnect(cap, acts, more);
    assert Mqtt.HandleAll(d.c, []) == d.c;
  }

  lemma LeavesToDisconnect<Fix>(cap: nat, acts: seq<Protocol.Action<Fix>>, more: seq<Protocol.Action<Fix>>)
    requires Protocol.Run(cap, acts).pc.PublishLoop?
    requires StaysInLoop(cap, acts, more) && !InLoop(Protocol.Run(cap, acts + more).pc)
    ensures Protocol.Run(cap, acts + more).pc.DisconnectMqtt?
  {
    assert more != [] by {
      assert acts + [] == acts;
    }
    ShorterLoop(cap, acts, more);
    Progress.RunMore(cap, acts, more);
    ExitsTo(cap, Protocol.Run(cap, acts + more[..|more| - 1]), more[|more| - 1]);
  }

  lemma ExitsTo<Fix>(cap: nat, w: Protocol.World<Fix>, a: Protocol.Action<Fix>)
    requires w.t.buf.stride > 0 && InLoop(w.pc)
    ensures var w' := Protocol.Next(cap, w, a); InLoop(w'.pc) || w'.pc.DisconnectMqtt?
  {
  }

  /** Outside the loop whatever is not a move leaves thread and backlog where they are. */
  lemma StaysPut<Fix>(cap: nat, w: Protocol.World<Fix>, a: Protocol.Action<Fix>)
    requires w.t.buf.stride > 0 && !InLoop(w.pc) && !(Protocol.Enabled(w, a) && MovesOn(a))
    ensures var w' := Protocol.Next(cap, w, a); w'.pc == w.pc && w'.t == w.t
  {
  }

  // ---- Whole runs ---------------------------------------------------------------------

  /** After `steps` the application has the backlog of the world and is about to execute `st`. */
  ghost predicate Matches<Fix>(
      cap: nat, d0: Tracker.Device<Fix>, steps: seq<Tracker.StepWorld<Fix>>, w: Protocol.World<Fix>, st: Tracker.TrackerState)
    requires d0.t.buf.stride > 0
  {
    var (d, st') := Tracker.RunSteps(cap, d0, steps);
    d.t == w.t && st' == st
  }

  /** Outside the loop the application has come as far as the run `acts`; inside, as far as
      its part `acts[..j]`, which has just entered the loop. */
  ghost predicate Simulated<Fix>(
      cap: nat, d0: Tracker.Device<Fix>, acts: seq<Protocol.Action<Fix>>, steps: seq<Tracker.StepWorld<Fix>>, j: nat)
    requires d0.t.buf.stride > 0
  {
    var w := Protocol.Run(cap, acts);
    if !InLoop(w.pc) then Matches(cap, d0, steps, w, StateOf(w.pc))
    else
      && j <= |acts| && Protocol.Run(cap, acts[..j]).pc.PublishLoop?
      && StaysInLoop(cap, acts[..j], acts[j..])
      && Matches(cap, d0, steps, Protocol.Run(cap, acts[..j]), Tracker.PublishBacklog)
  }

  lemma AddStep<Fix>(cap: nat, d0: Tracker.Device<Fix>, steps: seq<Tracker.StepWorld<Fix>>, s: Tracker.StepWorld<Fix>)
    requires d0.t.buf.stride > 0
    ensures var (d, st) := Tracker.RunSteps(cap, d0, steps);
      Tracker.RunSteps(cap, d0, steps + [s]) == Tracker.Step(cap, d, st, s)
  {
    assert (steps + [s])[..|steps|] == steps;
  }

  lemma FromOutside<Fix>(
      cap: nat, d0: Tracker.Device<Fix>, acts: seq<Protocol.Action<Fix>>, steps: seq<Tracker.StepWorld<Fix>>, j: nat)
      returns (steps': seq<Tracker.StepWorld<Fix>>, j': nat)
    requires cap >= 1 && d0.t.buf.stride > 0 && acts != []
    requires Simulated(cap, d0, acts[..|acts| - 1], steps, j) && !InLoop(Protocol.Run(cap, acts[..|acts| - 1]).pc)
    ensures Simulated(cap, d0, acts, steps', j')
  {
    var w, a := Protocol.Run(cap, acts[..|acts| - 1]), acts[|acts| - 1];
    steps', j' := steps, |acts|;
    Protocol.RunKeeps(cap, acts[..|acts| - 1]);
    if Protocol.Enabled(w, a) && MovesOn(a) {
      steps' := steps + [StepOf(a)];
      AddStep(cap, d0, steps, StepOf(a));
      MoveIsStep(cap, w, a, Tracker.RunSteps(cap, d0, steps).0);
      assert acts[..|acts|] == acts;
      EntersAtTop(cap, w, a);
    } else {
      StaysPut(cap, w, a);
    }
  }

  lemma EntersAtTop<Fix>(cap: nat, w: Protocol.World<Fix>, a: Protocol.Action<Fix>)
    requires w.t.buf.stride > 0 && Protocol.Enabled(w, a) && MovesOn(a)
    ensures var pc := Protocol.Effect(cap, w, a).pc; InLoop(pc) ==> pc.PublishLoop?
  {
  }

  lemma StillInLoop<Fix>(cap: nat, acts: seq<Protocol.Action<Fix>>, j: nat)
    requires acts != [] && j < |acts| && InLoop(Protocol.Run(cap, acts[..|acts| - 1]).pc)
    requires StaysInLoop(cap, acts[..j], acts[..|acts| - 1][j..])
    ensures acts[..|acts| - 1][..j] == acts[..j] && StaysInLoop(cap, acts[..j], acts[j..])
  {
    var init := acts[..|acts| - 1];
    forall i | 0 <= i < |acts[j..]| ensures InLoop(Protocol.Run(cap, acts[..j] + acts[j..][..i]).pc) {
      if i < |init[j..]| {
        assert acts[j..][..i] == init[j..][..i];
      } else {
        assert acts[..j] + acts[j..][..i] == init;
      }
    }
  }

  /** The part of the run since it entered the loop, and the application's step for it. */
  lemma LeavesLoop<Fix>(
      cap: nat, d0: Tracker.Device<Fix>, acts: seq<Protocol.Action<Fix>>, more: seq<Protocol.Action<Fix>>,
      steps: seq<Tracker.StepWorld<Fix>>) returns (steps': seq<Tracker.StepWorld<Fix>>)
    requires cap >= 1 && d0.t.buf.stride > 0 && Protocol.Run(cap, acts).pc.PublishLoop?
    requires StaysInLoop(cap, acts, more) && !InLoop(Protocol.Run(cap, acts + more).pc)
    requires Matches(cap, d0, steps, Protocol.Run(cap, acts), Tracker.PublishBacklog)
    ensures var w := Protocol.Run(cap, acts + more); Matches(cap, d0, steps', w, StateOf(w.pc))
  {
    var s := Idle().(publish := Called(Calls(cap, acts, more)));
    LoopIsStep(cap, acts, more, Tracker.RunSteps(cap, d0, steps).0);
    AddStep(cap, d0, steps, s);
    steps' := steps + [s];
  }

  lemma Rejoin<Fix>(acts: seq<Protocol.Action<Fix>>, j: nat)
    requires j < |acts|
    ensures acts[..j] + acts[j..] == acts && acts[..|acts| - 1][..j] == acts[..j]
  {
  }

  lemma FromLoop<Fix>(
      cap: nat, d0: Tracker.Device<Fix>, acts: seq<Protocol.Action<Fix>>, steps: seq<Tracker.StepWorld<Fix>>, j: nat)
      returns (steps': seq<Tracker.StepWorld<Fix>>)
    requires cap >= 1 && d0.t.buf.stride > 0 && acts != []
    requires Simulated(cap, d0, acts[..|acts| - 1], steps, j) && InLoop(Protocol.Run(cap, acts[..|acts| - 1]).pc)
    ensures Simulated(cap, d0, acts, steps', j)
  {
    Rejoin(acts, j);
    StillInLoop(cap, acts, j);
    if InLoop(Protocol.Run(cap, acts).pc) {
      steps' := steps;
    } else {
      steps' := LeavesLoop(cap, d0, acts[..j], acts[j..], steps);
    }
  }

  /** Every run of the protocol, however its callbacks, network and broker interleave, is
      matched by a run of the automatic application: outside the publish loop both have the
      same backlog and are in the same state. */
  lemma {:induction false} EveryRun<Fix>(cap: nat, d0: Tracker.Device<Fix>, acts: seq<Protocol.Action<Fix>>)
      returns (steps: seq<Tracker.StepWorld<Fix>>, j: nat)
    requires cap >= 1 && d0.t == Initial()
    ensures Simulated(cap, d0, acts, steps, j)
  {
    if acts == [] {
      steps, j := [], 0;
    } else {
      steps, j := EveryRun(cap, d0, acts[..|acts| - 1]);
      if InLoop(Protocol.Run(cap, acts[..|acts| - 1]).pc) {
        steps := FromLoop(cap, d0, acts, steps, j);
      } else {
        steps, j := FromOutside(cap, d0, acts, steps, j);
      }
    }
  }
}
