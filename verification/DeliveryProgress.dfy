/** The protocol gets its work done: from every reachable state it can come to deliver, and
    confirm, everything buffered. */
module DeliveryProgress {
  import opened BacklogModel
  import opened Delivery
  import Mqtt

  /** What a sequence of actions makes of a world. */
  function Play<Fix>(cap: nat, w: World<Fix>, acts: seq<Action<Fix>>): (r: World<Fix>)
    requires w.t.buf.stride > 0
    ensures r.t.buf.stride > 0
  {
    if acts == [] then w else Next(cap, Play(cap, w, acts[..|acts| - 1]), acts[|acts| - 1])
  }

  lemma RunMore<Fix>(cap: nat, acts: seq<Action<Fix>>, more: seq<Action<Fix>>)
    requires more != []
    ensures var k := |more| - 1;
      Delivery.Run(cap, acts + more) == Next(cap, Delivery.Run(cap, acts + more[..k]), more[k])
  {
    var k, all := |more| - 1, acts + more;
    assert all[..|all| - 1] == acts + more[..k];
    assert all[|all| - 1] == more[k];
  }

  lemma {:induction false} PlayIsRun<Fix>(cap: nat, acts: seq<Action<Fix>>, more: seq<Action<Fix>>)
    ensures Delivery.Run(cap, acts + more) == Play(cap, Delivery.Run(cap, acts), more)
  {
    if more == [] {
      assert acts + more == acts;
    } else {
      PlayIsRun(cap, acts, more[..|more| - 1]);
      RunMore(cap, acts, more);
    }
  }

  lemma {:induction false} PlaySplit<Fix>(cap: nat, w: World<Fix>, a: seq<Action<Fix>>, b: seq<Action<Fix>>)
    requires w.t.buf.stride > 0
    ensures Play(cap, w, a + b) == Play(cap, Play(cap, w, a), b)
  {
    if b == [] {
      assert a + b == a;
    } else {
      var k, all := |b| - 1, a + b;
      PlaySplit(cap, w, a, b[..k]);
      assert all[..|all| - 1] == a + b[..k];
      assert all[|all| - 1] == b[k];
    }
  }

  lemma PlayOne<Fix>(cap: nat, w: World<Fix>, a: Action<Fix>)
    requires w.t.buf.stride > 0
    ensures Play(cap, w, [a]) == Next(cap, w, a)
  {
    assert [a][..0] == [];
    assert Play(cap, w, [a][..0]) == w;
  }

  /** One more action at the end. */
  lemma Then<Fix>(cap: nat, w: World<Fix>, acts: seq<Action<Fix>>, w1: World<Fix>, a: Action<Fix>) returns (acts': seq<Action<Fix>>, w2: World<Fix>)
    requires w.t.buf.stride > 0 && w1 == Play(cap, w, acts) && Enabled(w1, a)
    ensures acts' == acts + [a] && w2 == Effect(cap, w1, a) == Play(cap, w, acts')
  {
    acts', w2 := acts + [a], Effect(cap, w1, a);
    PlaySplit(cap, w, acts, [a]);
    PlayOne(cap, w1, a);
  }

  lemma Join<Fix>(cap: nat, w0: World<Fix>, a: seq<Action<Fix>>, w1: World<Fix>, b: seq<Action<Fix>>, w2: World<Fix>)
      returns (acts: seq<Action<Fix>>)
    requires w0.t.buf.stride > 0 && w1 == Play(cap, w0, a) && w2 == Play(cap, w1, b)
    ensures acts == a + b && w2 == Play(cap, w0, acts)
  {
    acts := a + b;
    PlaySplit(cap, w0, a, b);
  }

  /** Some identifier is free. */
  lemma FreeId(wire: map<nat, nat>) returns (id: nat)
    ensures id !in wire
  {
    id := Above(wire.Keys);
  }

  lemma {:induction false} Above(ids: set<nat>) returns (bound: nat)
    ensures forall id :: id in ids ==> id < bound
    decreases |ids|
  {
    if ids == {} {
      bound := 0;
    } else {
      var id :| id in ids;
      var rest := Above(ids - {id});
      bound := if id < rest then rest else id + 1;
      assert forall other :: other in ids ==> other == id || other in ids - {id};
    }
  }

  /** The oldest fix is on its way under identifier `id`. */
  ghost predicate OnTheWay<Fix>(w0: World<Fix>, w: World<Fix>, id: nat) {
    && w.pc == Sending && w.t == w0.t && w.t.buf.entries != [] && w.delivered == w0.delivered
    && w.handed == w0.handed + [w.t.buf.entries[0].seqNo]
    && w.c.pendingId == id && id in w.wire && !w.c.pubackSem
  }

  /** The oldest fix has been picked and given identifier `id`, and the thread is at `pc`. */
  ghost predicate Picked<Fix>(w0: World<Fix>, w: World<Fix>, id: nat, pc: Pc) {
    && w.pc == pc && w.t == w0.t && w.t.buf.entries != [] && w.delivered == w0.delivered
    && w.handed == w0.handed && w.c.pendingId == id && w.attempts != []
    && w.attempts[|w.attempts| - 1].number == w.t.buf.entries[0].seqNo
  }

  lemma PrepareOldest<Fix>(cap: nat, w0: World<Fix>) returns (acts: seq<Action<Fix>>, w: World<Fix>, id: nat)
    requires w0.t.buf.stride > 0 && w0.pc == PublishLoop && w0.t.buf.entries != []
    ensures w == Play(cap, w0, acts) && Picked(w0, w, id, BeforeReset)
  {
    id := FreeId(w0.wire);
    acts, w := Then(cap, w0, [], w0, Peek);
    acts, w := Then(cap, w0, acts, w, AssignId(id));
  }

  lemma ResetSemaphore<Fix>(cap: nat, w0: World<Fix>, w1: World<Fix>, id: nat) returns (acts: seq<Action<Fix>>, w: World<Fix>)
    requires w1.t.buf.stride > 0 && Picked(w0, w1, id, BeforeReset)
    ensures w == Play(cap, w1, acts) && Picked(w0, w, id, BeforeClear) && !w.c.pubackSem
  {
    acts, w := Then(cap, w1, [], w1, ResetSem);
  }

  lemma ClearOldResult<Fix>(cap: nat, w0: World<Fix>, w1: World<Fix>, id: nat) returns (acts: seq<Action<Fix>>, w: World<Fix>)
    requires w1.t.buf.stride > 0 && Picked(w0, w1, id, BeforeClear) && !w1.c.pubackSem
    ensures w == Play(cap, w1, acts) && Picked(w0, w, id, BeforeSend) && !w.c.pubackSem
  {
    acts, w := Then(cap, w1, [], w1, ClearResult);
  }

  lemma Send<Fix>(cap: nat, w0: World<Fix>, w1: World<Fix>, id: nat) returns (acts: seq<Action<Fix>>, w: World<Fix>)
    requires w1.t.buf.stride > 0 && Picked(w0, w1, id, BeforeSend) && !w1.c.pubackSem
    ensures w == Play(cap, w1, acts) && OnTheWay(w0, w, id)
  {
    acts, w := Then(cap, w1, [], w1, Transmit);
    assert w.handed == w1.handed + [w1.attempts[|w1.attempts| - 1].number];
    assert w.wire == w1.wire[id := |w1.attempts| - 1];
  }

  lemma GetAcknowledged<Fix>(cap: nat, w0: World<Fix>, w1: World<Fix>, id: nat) returns (acts: seq<Action<Fix>>, w: World<Fix>)
    requires w1.t.buf.stride > 0 && OnTheWay(w0, w1, id)
    ensures w == Play(cap, w1, acts)
    ensures w.pc == AwaitPuback && w.t == w0.t && w.c.pubackSem && w.c.pubackResult == 0
    ensures w.delivered == w1.delivered && w.handed == w1.handed
  {
    acts, w := [], w1;
    acts, w := Then(cap, w1, acts, w, BrokerReceives(id));
    acts, w := Then(cap, w1, acts, w, PubackArrives(id, 0));
    acts, w := Then(cap, w1, acts, w, HelperReturns(0));
  }

  lemma Conclude<Fix>(cap: nat, w1: World<Fix>) returns (acts: seq<Action<Fix>>, w: World<Fix>)
    requires w1.t.buf.stride > 0 && w1.t.buf.entries != []
    requires w1.pc == AwaitPuback && w1.c.pubackSem && w1.c.pubackResult == 0
    ensures w == Play(cap, w1, acts)
    ensures w.pc == PublishLoop && w.t == Apply(cap, w1.t, RemoveOp) && w.handed == w1.handed
    ensures w.delivered == w1.delivered + [w1.t.buf.entries[0].seqNo]
  {
    acts, w := [], w1;
    acts, w := Then(cap, w1, acts, w, WakeUp);
    acts, w := Then(cap, w1, acts, w, ReadResult);
    acts, w := Then(cap, w1, acts, w, Remove);
  }

  lemma DeliverOldest<Fix>(cap: nat, w0: World<Fix>) returns (acts: seq<Action<Fix>>, w: World<Fix>)
    requires w0.t.buf.stride > 0 && w0.pc == PublishLoop && w0.t.buf.entries != []
    ensures w == Play(cap, w0, acts)
    ensures w.pc == PublishLoop && w.t == Apply(cap, w0.t, RemoveOp)
    ensures var head := w0.t.buf.entries[0].seqNo;
      w.delivered == w0.delivered + [head] && w.handed == w0.handed + [head]
  {
    var w1, id;
    acts, w1, id := PrepareOldest(cap, w0);
    var b, w2 := ResetSemaphore(cap, w0, w1, id);
    acts := Join(cap, w0, acts, w1, b, w2);
    var w3, w4;
    b, w3 := ClearOldResult(cap, w0, w2, id);
    acts := Join(cap, w0, acts, w2, b, w3);
    b, w4 := Send(cap, w0, w3, id);
    acts := Join(cap, w0, acts, w3, b, w4);
    var w5;
    b, w5 := GetAcknowledged(cap, w0, w4, id);
    acts := Join(cap, w0, acts, w4, b, w5);
    b, w := Conclude(cap, w5);
    acts := Join(cap, w0, acts, w5, b, w);
  }

  /** Everything buffered was delivered, oldest first, and the loop has ended. */
  ghost predicate AllDelivered<Fix>(w0: World<Fix>, w: World<Fix>) {
    && w.pc == DisconnectMqtt && w.t.buf.entries == []
    && w.delivered == w0.delivered + Numbers(w0.t.buf.entries)
    && w.handed == w0.handed + Numbers(w0.t.buf.entries)
  }

  lemma {:induction false} DeliverAll<Fix>(cap: nat, w0: World<Fix>) returns (acts: seq<Action<Fix>>, w: World<Fix>)
    requires w0.t.buf.stride > 0 && w0.pc == PublishLoop
    ensures w == Play(cap, w0, acts) && AllDelivered(w0, w)
    decreases |w0.t.buf.entries|
  {
    if w0.t.buf.entries == [] {
      acts, w := Then(cap, w0, [], w0, Peek);
    } else {
      var a, w1 := DeliverOldest(cap, w0);
      var b;
      b, w := DeliverAll(cap, w1);
      acts := Join(cap, w0, a, w1, b, w);
      HeadFirst(w0.t.buf.entries, w0.delivered);
      HeadFirst(w0.t.buf.entries, w0.handed);
    }
  }

  lemma HeadFirst<Fix>(es: seq<Slot<Fix>>, before: seq<nat>)
    requires es != []
    ensures before + Numbers(es) == before + [es[0].seqNo] + Numbers(es[1..])
  {
    assert Numbers(es) == [es[0].seqNo] + Numbers(es[1..]);
  }

  /** From every reachable world at the publish loop some continuation delivers everything
      buffered, in order, with exactly one hand-over for each, and leaves the loop. */
  lemma CanDeliver<Fix>(cap: nat, acts: seq<Action<Fix>>) returns (more: seq<Action<Fix>>)
    requires Delivery.Run(cap, acts).pc == PublishLoop
    ensures AllDelivered(Delivery.Run(cap, acts), Delivery.Run(cap, acts + more))
  {
    var w;
    more, w := DeliverAll(cap, Delivery.Run(cap, acts));
    PlayIsRun(cap, acts, more);
  }

  // ---- From anywhere ------------------------------------------------------------------

  /** How far the thread is from the publish loop. */
  function Distance(pc: Pc): nat {
    match pc
    case PublishLoop => 0
    case Confirmed => 1
    case ConnectMqtt => 1
    case ConnectLte => 2
    case WaitForGnss => 3
    case EnterLowPower => 4
    case DisconnectMqtt => 5
    case GotPuback => 6
    case AwaitPuback => 7
    case Sending => 6
    case BeforeSend => 6
    case BeforeClear => 7
    case BeforeReset => 8
    case FormatPayload => 6
  }

  /** A step of the thread towards the publish loop, giving up on what is under way. */
  function Onward<Fix>(w: World<Fix>, fix: Fix): Action<Fix>
    requires w.pc != PublishLoop
  {
    match w.pc
    case Confirmed => Remove
    case ConnectMqtt => MqttUp
    case ConnectLte => LteUp
    case WaitForGnss => FixAcquired(fix)
    case EnterLowPower => FinishLowPower
    case DisconnectMqtt => FinishDisconnect
    case GotPuback => ReadResult
    case AwaitPuback => if w.c.pubackSem then WakeUp else TimeOut
    case Sending => HelperReturns(-1)
    case BeforeSend => HelperRefuses(-1)
    case BeforeClear => ClearResult
    case BeforeReset => ResetSem
    case FormatPayload => FormatFails
  }

  lemma OnwardStep<Fix>(cap: nat, w: World<Fix>, fix: Fix)
    requires w.t.buf.stride > 0 && CurrentInv(w) && w.pc != PublishLoop
    ensures Enabled(w, Onward(w, fix))
    ensures Distance(Effect(cap, w, Onward(w, fix)).pc) < Distance(w.pc)
  {
  }

  function PcAfter<Fix>(cap: nat, acts: seq<Action<Fix>>): Pc {
    Delivery.Run(cap, acts).pc
  }

  lemma OnwardRun<Fix>(cap: nat, acts: seq<Action<Fix>>, fix: Fix) returns (next: seq<Action<Fix>>)
    requires cap >= 1 && PcAfter(cap, acts) != PublishLoop
    ensures Distance(PcAfter(cap, acts + next)) < Distance(PcAfter(cap, acts))
  {
    var w := Delivery.Run(cap, acts);
    Delivery.RunKeeps(cap, acts);
    OnwardStep(cap, w, fix);
    next := [Onward(w, fix)];
    PlayIsRun(cap, acts, next);
    PlayOne(cap, w, Onward(w, fix));
  }

  lemma Regroup<Fix>(cap: nat, acts: seq<Action<Fix>>, a: seq<Action<Fix>>, b: seq<Action<Fix>>)
    ensures PcAfter(cap, acts + a + b) == PcAfter(cap, acts + (a + b))
  {
    assert acts + a + b == acts + (a + b);
  }

  lemma {:induction false} ReachLoop<Fix>(cap: nat, acts: seq<Action<Fix>>, fix: Fix, d: nat) returns (more: seq<Action<Fix>>)
    requires cap >= 1 && Distance(PcAfter(cap, acts)) <= d
    ensures PcAfter(cap, acts + more) == PublishLoop
    decreases d
  {
    if PcAfter(cap, acts) == PublishLoop {
      more := [];
      assert acts + more == acts;
    } else {
      var next := OnwardRun(cap, acts, fix);
      var rest := ReachLoop(cap, acts + next, fix, d - 1);
      more := next + rest;
      Regroup(cap, acts, next, rest);
    }
  }

  /** From every reachable world, whatever was under way, the protocol can come to have
      everything delivered that it then has buffered. */
  lemma CanAlwaysDeliver<Fix>(cap: nat, acts: seq<Action<Fix>>, fix: Fix) returns (before: seq<Action<Fix>>, more: seq<Action<Fix>>)
    requires cap >= 1
    ensures Delivery.Run(cap, acts + before).pc == PublishLoop
    ensures AllDelivered(Delivery.Run(cap, acts + before), Delivery.Run(cap, acts + before + more))
  {
    before := ReachLoop(cap, acts, fix, Distance(Delivery.Run(cap, acts).pc));
    more := CanDeliver(cap, acts + before);
  }
}
