/** The publish operation of the MQTT module and the statements of the delivery protocol are
    the same thing: every publish of a run of the protocol is one call of the operation, with
    the callbacks that the run placed between its statements. */
module PublishTrace {
  import Mqtt
  import Protocol = Delivery
  import Progress = DeliveryProgress

  /** Between the assignment of the identifier and the end of the operation. */
  predicate InFlight(pc: Protocol.Pc) {
    pc.BeforeReset? || pc.BeforeClear? || pc.BeforeSend? || pc.Sending? || pc.AwaitPuback? || pc.GotPuback?
  }

  const NOTHING_YET := Mqtt.PublishWorld(true, 0, [], [], [], [], 0, [])

  function EventsOf<Fix>(a: Protocol.Action<Fix>): seq<Mqtt.Event> {
    match a
    case PubackArrives(id, result) => [Mqtt.Puback(id, result)]
    case ConnackArrives(code) => [Mqtt.Connack(code)]
    case ConnectionCloses => [Mqtt.Disconnected]
    case _ => []
  }

  /** What is known of the call after one more action. */
  function Extend<Fix>(p: Mqtt.PublishWorld, pc: Protocol.Pc, a: Protocol.Action<Fix>): Mqtt.PublishWorld {
    match a
    case AssignId(id) => p.(id := id)
    case HelperRefuses(err) => p.(helperErr := err)
    case HelperReturns(err) => p.(helperErr := err)
    case _ =>
      match pc
      case BeforeReset => p.(beforeReset := p.beforeReset + EventsOf(a))
      case BeforeClear => p.(beforeClear := p.beforeClear + EventsOf(a))
      case BeforeSend => p.(beforeSend := p.beforeSend + EventsOf(a))
      case Sending => p.(duringSend := p.duringSend + EventsOf(a))
      case _ => p.(waiting := p.waiting + EventsOf(a))
  }

  /** The call that `more`, run after `acts`, makes. */
  function Observed<Fix>(cap: nat, acts: seq<Protocol.Action<Fix>>, more: seq<Protocol.Action<Fix>>): Mqtt.PublishWorld {
    if more == [] then NOTHING_YET
    else
      var k := |more| - 1;
      var w, p := Protocol.Run(cap, acts + more[..k]), Observed(cap, acts, more[..k]);
      if Protocol.Enabled(w, more[k]) then Extend(p, w.pc, more[k]) else p
  }

  // ---- The operation, cut at its statements -------------------------------------------

  function Assigned(c: Mqtt.Conn, p: Mqtt.PublishWorld): Mqtt.Conn {
    Mqtt.HandleAll(c.(pendingId := p.id), p.beforeReset)
  }

  function WasReset(c: Mqtt.Conn, p: Mqtt.PublishWorld): Mqtt.Conn {
    Mqtt.HandleAll(Mqtt.Reset(Assigned(c, p), Mqtt.PubackSem), p.beforeClear)
  }

  function Cleared(c: Mqtt.Conn, p: Mqtt.PublishWorld): Mqtt.Conn {
    Mqtt.HandleAll(WasReset(c, p).(pubackResult := 0), p.beforeSend)
  }

  function Sent(c: Mqtt.Conn, p: Mqtt.PublishWorld): Mqtt.Conn {
    Mqtt.HandleAll(Cleared(c, p), p.duringSend)
  }

  /** Where the wait for the PUBACK stands: the state a woken thread would find, and whether
      it has been woken. */
  function Waited(c: Mqtt.Conn, p: Mqtt.PublishWorld): (Mqtt.Conn, bool) {
    Mqtt.Take(Sent(c, p), Mqtt.PubackSem, p.waiting)
  }

  /** The call `p` from `c0` has come as far as `pc`, leaving `c`. */
  ghost predicate Reached(c0: Mqtt.Conn, p: Mqtt.PublishWorld, pc: Protocol.Pc, c: Mqtt.Conn) {
    && p.formatted && p.helperErr == 0
    && (!pc.AwaitPuback? && !pc.GotPuback? ==> p.waiting == [])
    && (pc.BeforeReset? || pc.BeforeClear? || pc.BeforeSend? ==> p.duringSend == [])
    && (pc.BeforeReset? || pc.BeforeClear? ==> p.beforeSend == [])
    && (pc.BeforeReset? ==> p.beforeClear == [])
    && match pc
       case BeforeReset => c == Assigned(c0, p)
       case BeforeClear => c == WasReset(c0, p)
       case BeforeSend => c == Cleared(c0, p)
       case Sending => c == Sent(c0, p)
       case AwaitPuback => Waiting(Waited(c0, p), c)
       case _ => Waited(c0, p) == (c, true)
  }

  /** Given and not yet taken, the semaphore is the only difference. */
  predicate Waiting(waited: (Mqtt.Conn, bool), c: Mqtt.Conn) {
    !waited.0.pubackSem && c == waited.0.(pubackSem := waited.1)
  }

  ghost predicate Ended<Fix>(c0: Mqtt.Conn, p: Mqtt.PublishWorld, w: Protocol.World<Fix>) {
    var (c, err) := Mqtt.Publish(c0, Mqtt.AtLeastOnce, p);
    w.c == c && w.pc == if err == 0 then Protocol.Confirmed else Protocol.DisconnectMqtt
  }

  ghost predicate Tracks<Fix>(c0: Mqtt.Conn, p: Mqtt.PublishWorld, w: Protocol.World<Fix>) {
    if InFlight(w.pc) then Reached(c0, p, w.pc, w.c) else Ended(c0, p, w)
  }

  lemma OneMore(c: Mqtt.Conn, es: seq<Mqtt.Event>, e: Mqtt.Event)
    ensures Mqtt.HandleAll(c, es + [e]) == Mqtt.Handle(Mqtt.HandleAll(c, es), e)
  {
    Mqtt.HandleAllSplit(c, es, [e]);
    assert [e][1..] == [];
  }

  /** One more event during a wait. */
  lemma {:induction false} TakeMore(c: Mqtt.Conn, s: Mqtt.Sem, es: seq<Mqtt.Event>, e: Mqtt.Event)
    ensures var (r, taken) := Mqtt.Take(c, s, es);
      var r' := Mqtt.Handle(r, e);
      Mqtt.Take(c, s, es + [e]) == if !taken && Mqtt.Given(r', s) then (Mqtt.Reset(r', s), true) else (r', taken)
    decreases |es|
  {
    if Mqtt.Given(c, s) {
      OneMore(Mqtt.Reset(c, s), es, e);
    } else if es == [] {
      assert [e][1..] == [];
    } else {
      assert (es + [e])[1..] == es[1..] + [e];
      TakeMore(Mqtt.Handle(c, es[0]), s, es[1..], e);
    }
  }

  /** A callback extends the call at the point it has reached; while the thread waits with
      the semaphore given, no second acknowledgement comes. */
  lemma CallbackStep<Fix>(c0: Mqtt.Conn, p: Mqtt.PublishWorld, pc: Protocol.Pc, c: Mqtt.Conn, a: Protocol.Action<Fix>, e: Mqtt.Event)
    requires InFlight(pc) && Reached(c0, p, pc, c) && EventsOf(a) == [e]
    requires pc.AwaitPuback? && c.pubackSem ==> !Mqtt.Gives(e, Mqtt.PubackSem, c.pendingId)
    ensures Reached(c0, Extend(p, pc, a), pc, Mqtt.Handle(c, e))
  {
    match pc
    case BeforeReset => OneMore(c0.(pendingId := p.id), p.beforeReset, e);
    case BeforeClear => OneMore(Mqtt.Reset(Assigned(c0, p), Mqtt.PubackSem), p.beforeClear, e);
    case BeforeSend => OneMore(WasReset(c0, p).(pubackResult := 0), p.beforeSend, e);
    case Sending => OneMore(Cleared(c0, p), p.duringSend, e);
    case AwaitPuback =>
      TakeMore(Sent(c0, p), Mqtt.PubackSem, p.waiting, e);
      WaitingMore(Waited(c0, p), c, e);
    case GotPuback => TakeMore(Sent(c0, p), Mqtt.PubackSem, p.waiting, e);
  }

  lemma WaitingMore(waited: (Mqtt.Conn, bool), c: Mqtt.Conn, e: Mqtt.Event)
    requires Waiting(waited, c)
    requires c.pubackSem ==> !Mqtt.Gives(e, Mqtt.PubackSem, c.pendingId)
    ensures var (r, taken) := waited;
      var r' := Mqtt.Handle(r, e);
      Waiting(if !taken && Mqtt.Given(r', Mqtt.PubackSem) then (Mqtt.Reset(r', Mqtt.PubackSem), true) else (r', taken), Mqtt.Handle(c, e))
  {
    match e
    case Connack(_) =>
    case Disconnected =>
    case Puback(_, _) =>
  }

  // One lemma for each statement of the publish operation: the call comes to its next point,
  // or to its end.

  lemma ResetTracks<Fix>(cap: nat, c0: Mqtt.Conn, p: Mqtt.PublishWorld, w: Protocol.World<Fix>)
    requires w.t.buf.stride > 0 && Protocol.Enabled(w, Protocol.ResetSem) && Reached(c0, p, w.pc, w.c)
    ensures Tracks(c0, Extend<Fix>(p, w.pc, Protocol.ResetSem), Protocol.Effect(cap, w, Protocol.ResetSem))
  {
    assert Extend<Fix>(p, w.pc, Protocol.ResetSem) == p;
  }

  lemma ClearTracks<Fix>(cap: nat, c0: Mqtt.Conn, p: Mqtt.PublishWorld, w: Protocol.World<Fix>)
    requires w.t.buf.stride > 0 && Protocol.Enabled(w, Protocol.ClearResult) && Reached(c0, p, w.pc, w.c)
    ensures Tracks(c0, Extend<Fix>(p, w.pc, Protocol.ClearResult), Protocol.Effect(cap, w, Protocol.ClearResult))
  {
    assert Extend<Fix>(p, w.pc, Protocol.ClearResult) == p;
  }

  lemma TransmitTracks<Fix>(cap: nat, c0: Mqtt.Conn, p: Mqtt.PublishWorld, w: Protocol.World<Fix>)
    requires w.t.buf.stride > 0 && Protocol.Enabled(w, Protocol.Transmit) && Reached(c0, p, w.pc, w.c)
    ensures Tracks(c0, Extend<Fix>(p, w.pc, Protocol.Transmit), Protocol.Effect(cap, w, Protocol.Transmit))
  {
    assert Extend<Fix>(p, w.pc, Protocol.Transmit) == p;
  }

  lemma RefusalTracks<Fix>(cap: nat, c0: Mqtt.Conn, p: Mqtt.PublishWorld, w: Protocol.World<Fix>, err: int)
    requires w.t.buf.stride > 0 && Protocol.Enabled(w, Protocol.HelperRefuses(err)) && Reached(c0, p, w.pc, w.c)
    ensures Tracks(c0, Extend<Fix>(p, w.pc, Protocol.HelperRefuses(err)), Protocol.Effect(cap, w, Protocol.HelperRefuses(err)))
  {
  }

  lemma ReturnTracks<Fix>(cap: nat, c0: Mqtt.Conn, p: Mqtt.PublishWorld, w: Protocol.World<Fix>, err: int)
    requires w.t.buf.stride > 0 && Protocol.Enabled(w, Protocol.HelperReturns(err)) && Reached(c0, p, w.pc, w.c)
    ensures Tracks(c0, Extend<Fix>(p, w.pc, Protocol.HelperReturns(err)), Protocol.Effect(cap, w, Protocol.HelperReturns(err)))
  {
  }

  lemma WakeUpTracks<Fix>(cap: nat, c0: Mqtt.Conn, p: Mqtt.PublishWorld, w: Protocol.World<Fix>)
    requires w.t.buf.stride > 0 && Protocol.Enabled(w, Protocol.WakeUp) && Reached(c0, p, w.pc, w.c)
    ensures Tracks(c0, Extend<Fix>(p, w.pc, Protocol.WakeUp), Protocol.Effect(cap, w, Protocol.WakeUp))
  {
    assert Extend<Fix>(p, w.pc, Protocol.WakeUp) == p;
  }

  lemma TimeOutTracks<Fix>(cap: nat, c0: Mqtt.Conn, p: Mqtt.PublishWorld, w: Protocol.World<Fix>)
    requires w.t.buf.stride > 0 && Protocol.Enabled(w, Protocol.TimeOut) && Reached(c0, p, w.pc, w.c)
    ensures Tracks(c0, Extend<Fix>(p, w.pc, Protocol.TimeOut), Protocol.Effect(cap, w, Protocol.TimeOut))
  {
    assert Extend<Fix>(p, w.pc, Protocol.TimeOut) == p;
  }

  lemma ReadTracks<Fix>(cap: nat, c0: Mqtt.Conn, p: Mqtt.PublishWorld, w: Protocol.World<Fix>)
    requires w.t.buf.stride > 0 && Protocol.Enabled(w, Protocol.ReadResult) && Reached(c0, p, w.pc, w.c)
    ensures Tracks(c0, Extend<Fix>(p, w.pc, Protocol.ReadResult), Protocol.Effect(cap, w, Protocol.ReadResult))
  {
    assert Extend<Fix>(p, w.pc, Protocol.ReadResult) == p;
  }

  lemma SilentTracks<Fix>(cap: nat, c0: Mqtt.Conn, p: Mqtt.PublishWorld, w: Protocol.World<Fix>, a: Protocol.Action<Fix>)
    requires w.t.buf.stride > 0 && Protocol.Enabled(w, a) && InFlight(w.pc) && Reached(c0, p, w.pc, w.c)
    requires a.BrokerReceives? || a.MessageLost?
    ensures Tracks(c0, Extend(p, w.pc, a), Protocol.Effect(cap, w, a))
  {
    assert Extend(p, w.pc, a) == p;
  }

  /** A statement of the thread takes the call to its next point, or to its end; what the
      network does in silence is not part of the call. */
  lemma StatementStep<Fix>(cap: nat, c0: Mqtt.Conn, p: Mqtt.PublishWorld, w: Protocol.World<Fix>, a: Protocol.Action<Fix>)
    requires w.t.buf.stride > 0 && Protocol.Enabled(w, a)
    requires InFlight(w.pc) && Reached(c0, p, w.pc, w.c) && EventsOf(a) == []
    ensures Tracks(c0, Extend(p, w.pc, a), Protocol.Effect(cap, w, a))
  {
    match a
    case ResetSem => ResetTracks(cap, c0, p, w);
    case ClearResult => ClearTracks(cap, c0, p, w);
    case Transmit => TransmitTracks(cap, c0, p, w);
    case HelperRefuses(err) => RefusalTracks(cap, c0, p, w, err);
    case HelperReturns(err) => ReturnTracks(cap, c0, p, w, err);
    case WakeUp => WakeUpTracks(cap, c0, p, w);
    case TimeOut => TimeOutTracks(cap, c0, p, w);
    case ReadResult => ReadTracks(cap, c0, p, w);
    case BrokerReceives(_) => SilentTracks(cap, c0, p, w, a);
    case MessageLost(_) => SilentTracks(cap, c0, p, w, a);
    case _ =>
  }

  /** The broker acknowledges an attempt once: with the semaphore given, it already has. */
  lemma NoSecondAck<Fix>(w: Protocol.World<Fix>, id: nat)
    requires Protocol.WireInv(w) && Protocol.HandshakeInv(w) && Protocol.CurrentInv(w)
    requires w.pc.AwaitPuback? && w.c.pubackSem && id in w.wire
    ensures id != w.c.pendingId
  {
    var cur := |w.attempts| - 1;
    var i :| w.resetMark <= i < |w.acks| && w.acks[i] == Protocol.Ack(cur, w.c.pubackResult);
    assert w.acks[i].attempt == cur;
  }

  lemma TrackStep<Fix>(cap: nat, c0: Mqtt.Conn, p: Mqtt.PublishWorld, w: Protocol.World<Fix>, a: Protocol.Action<Fix>)
    requires Protocol.WorldInv(cap, w) && Protocol.Enabled(w, a)
    requires InFlight(w.pc) && Reached(c0, p, w.pc, w.c)
    ensures Tracks(c0, Extend(p, w.pc, a), Protocol.Effect(cap, w, a))
  {
    if EventsOf(a) == [] {
      StatementStep(cap, c0, p, w, a);
    } else {
      if w.pc.AwaitPuback? && w.c.pubackSem && a.PubackArrives? {
        NoSecondAck(w, a.acked);
      }
      CallbackStep(c0, p, w.pc, w.c, a, EventsOf(a)[0]);
    }
  }

  // ---- Runs ---------------------------------------------------------------------------

  /** `more`, run after `acts`, is one publish: it begins with the assignment of the
      identifier and stays in flight up to its last action. */
  ghost predicate OnePublish<Fix>(cap: nat, acts: seq<Protocol.Action<Fix>>, more: seq<Protocol.Action<Fix>>) {
    && more != [] && more[0].AssignId? && Protocol.Enabled(Protocol.Run(cap, acts), more[0])
    && StaysInFlight(cap, acts, more)
  }

  ghost predicate StaysInFlight<Fix>(cap: nat, acts: seq<Protocol.Action<Fix>>, more: seq<Protocol.Action<Fix>>) {
    forall j :: 1 <= j < |more| ==> InFlight(Protocol.Run(cap, acts + more[..j]).pc)
  }

  lemma ShorterPublish<Fix>(cap: nat, acts: seq<Protocol.Action<Fix>>, more: seq<Protocol.Action<Fix>>)
    requires OnePublish(cap, acts, more) && |more| > 1
    ensures var k := |more| - 1;
      OnePublish(cap, acts, more[..k]) && InFlight(Protocol.Run(cap, acts + more[..k]).pc)
  {
    var k := |more| - 1;
    assert forall j :: 1 <= j < k ==> more[..k][..j] == more[..j];
  }

  /** The assignment of the identifier begins the call. */
  lemma Begin<Fix>(cap: nat, acts: seq<Protocol.Action<Fix>>, more: seq<Protocol.Action<Fix>>)
    requires OnePublish(cap, acts, more) && |more| == 1
    ensures Tracks(Protocol.Run(cap, acts).c, Observed(cap, acts, more), Protocol.Run(cap, acts + more))
  {
    Progress.RunMore(cap, acts, more);
    assert acts + more[..0] == acts;
    assert Observed(cap, acts, more[..0]) == NOTHING_YET;
  }

  lemma ObservedMore<Fix>(cap: nat, acts: seq<Protocol.Action<Fix>>, more: seq<Protocol.Action<Fix>>)
    requires more != []
    ensures var k := |more| - 1;
      var w, p := Protocol.Run(cap, acts + more[..k]), Observed(cap, acts, more[..k]);
      Observed(cap, acts, more) == if Protocol.Enabled(w, more[k]) then Extend(p, w.pc, more[k]) else p
  {
  }

  lemma Continue<Fix>(cap: nat, c0: Mqtt.Conn, acts: seq<Protocol.Action<Fix>>, more: seq<Protocol.Action<Fix>>)
    requires cap >= 1 && more != []
    requires var w := Protocol.Run(cap, acts + more[..|more| - 1]);
      InFlight(w.pc) && Tracks(c0, Observed(cap, acts, more[..|more| - 1]), w)
    ensures Tracks(c0, Observed(cap, acts, more), Protocol.Run(cap, acts + more))
  {
    var init, a := more[..|more| - 1], more[|more| - 1];
    var w, p := Protocol.Run(cap, acts + init), Observed(cap, acts, init);
    Progress.RunMore(cap, acts, more);
    ObservedMore(cap, acts, more);
    if Protocol.Enabled(w, a) {
      Protocol.RunKeeps(cap, acts + init);
      TrackStep(cap, c0, p, w, a);
    }
  }

  lemma {:induction false} Follow<Fix>(cap: nat, acts: seq<Protocol.Action<Fix>>, more: seq<Protocol.Action<Fix>>)
    requires cap >= 1 && OnePublish(cap, acts, more)
    ensures Tracks(Protocol.Run(cap, acts).c, Observed(cap, acts, more), Protocol.Run(cap, acts + more))
  {
    if |more| == 1 {
      Begin(cap, acts, more);
    } else {
      ShorterPublish(cap, acts, more);
      Follow(cap, acts, more[..|more| - 1]);
      Continue(cap, Protocol.Run(cap, acts).c, acts, more);
    }
  }

  /** Every publish of the protocol is one call of the publish operation, from the shared
      state at its start, with exactly the callbacks of the run: it ends confirmed if and only
      if that call returns 0, and leaves the shared state the call leaves. */
  lemma PublishIsOneCall<Fix>(cap: nat, acts: seq<Protocol.Action<Fix>>, more: seq<Protocol.Action<Fix>>)
    requires cap >= 1 && OnePublish(cap, acts, more)
    requires !InFlight(Protocol.Run(cap, acts + more).pc)
    ensures var w := Protocol.Run(cap, acts + more);
      var (c, err) := Mqtt.Publish(Protocol.Run(cap, acts).c, Mqtt.AtLeastOnce, Observed(cap, acts, more));
      w.c == c && w.pc == if err == 0 then Protocol.Confirmed else Protocol.DisconnectMqtt
  {
    Follow(cap, acts, more);
  }
}
