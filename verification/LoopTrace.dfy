/** The publish loop of the delivery protocol, interleaved with callbacks, is the drain of the
    applications; and every run of the protocol is, state by state, a run of the automatic
    application. */
module LoopTrace {
  import opened Common
  import opened BacklogModel
  import opened Publishing
  import Mqtt
  import Modem
  import Tracker
  import Protocol = Delivery
  import Trace = PublishTrace
  import Progress = DeliveryProgress

  predicate InLoop(pc: Protocol.Pc) {
    pc.PublishLoop? || pc.FormatPayload? || pc.Confirmed? || Trace.InFlight(pc)
  }

  // ---- The calls a stretch of the loop makes ------------------------------------------

  const UNFORMATTED := Mqtt.PublishWorld(false, 0, [], [], [], [], 0, [])

  function ExtendCalls<Fix>(ps: seq<Mqtt.PublishWorld>, pc: Protocol.Pc, a: Protocol.Action<Fix>): seq<Mqtt.PublishWorld> {
    if a.FormatFails? then ps + [UNFORMATTED]
    else if a.AssignId? then ps + [Trace.Extend(Trace.NOTHING_YET, pc, a)]
    else if Trace.InFlight(pc) && ps != [] then ps[..|ps| - 1] + [Trace.Extend(ps[|ps| - 1], pc, a)]
    else ps
  }

  /** The publish calls that `more`, run after `acts`, makes, the last one as far as it got. */
  function Calls<Fix>(cap: nat, acts: seq<Protocol.Action<Fix>>, more: seq<Protocol.Action<Fix>>): seq<Mqtt.PublishWorld> {
    if more == [] then []
    else
      var k := |more| - 1;
      var w, ps := Protocol.Run(cap, acts + more[..k]), Calls(cap, acts, more[..k]);
      if Protocol.Enabled(w, more[k]) then ExtendCalls(ps, w.pc, more[k]) else ps
  }

  /** The calls as the applications see them: call `i` is the `i`-th of the loop. */
  function Called(ps: seq<Mqtt.PublishWorld>): nat -> Mqtt.PublishWorld {
    (i: nat) => if i < |ps| then ps[i] else UNFORMATTED
  }

  // ---- The result of a call does not depend on what came before -----------------------

  const IDLE := Mqtt.Conn(false, false, false, 0, 0, 0, false)

  function CallErr(p: Mqtt.PublishWorld): int {
    Mqtt.Publish(IDLE, Mqtt.AtLeastOnce, p).1
  }

  /** Equal in what a publish looks at. */
  predicate SameAcks(c: Mqtt.Conn, d: Mqtt.Conn) {
    c.pendingId == d.pendingId && c.pubackSem == d.pubackSem && c.pubackResult == d.pubackResult
  }

  lemma {:induction false} SameAcksStay(c: Mqtt.Conn, d: Mqtt.Conn, es: seq<Mqtt.Event>)
    requires SameAcks(c, d)
    ensures SameAcks(Mqtt.HandleAll(c, es), Mqtt.HandleAll(d, es))
    decreases |es|
  {
    if es == [] {
    } else {
      SameAcksStay(Mqtt.Handle(c, es[0]), Mqtt.Handle(d, es[0]), es[1..]);
    }
  }

  lemma {:induction false} SameAcksWait(c: Mqtt.Conn, d: Mqtt.Conn, es: seq<Mqtt.Event>)
    requires SameAcks(c, d)
    ensures var (c', taken), (d', taken') := Mqtt.Take(c, Mqtt.PubackSem, es), Mqtt.Take(d, Mqtt.PubackSem, es);
      taken == taken' && SameAcks(c', d')
    decreases |es|
  {
    if c.pubackSem {
      SameAcksStay(Mqtt.Reset(c, Mqtt.PubackSem), Mqtt.Reset(d, Mqtt.PubackSem), es);
    } else if es != [] {
      SameAcksWait(Mqtt.Handle(c, es[0]), Mqtt.Handle(d, es[0]), es[1..]);
    }
  }

  lemma {:induction false} HandleKeepsId(c: Mqtt.Conn, es: seq<Mqtt.Event>)
    ensures Mqtt.HandleAll(c, es).pendingId == c.pendingId
  {
    Mqtt.HandleAllEffect(c, es);
  }

  /** After the semaphore reset and the clearing of the result nothing older is left to see. */
  lemma ClearedAlike(c: Mqtt.Conn, d: Mqtt.Conn, p: Mqtt.PublishWorld)
    ensures SameAcks(Trace.Cleared(c, p), Trace.Cleared(d, p))
  {
    var c1, d1 := Trace.Assigned(c, p), Trace.Assigned(d, p);
    HandleKeepsId(c.(pendingId := p.id), p.beforeReset);
    HandleKeepsId(d.(pendingId := p.id), p.beforeReset);
    var c2, d2 := Mqtt.Reset(c1, Mqtt.PubackSem), Mqtt.Reset(d1, Mqtt.PubackSem);
    SameAcksStay(c2.(pubackResult := 0), d2.(pubackResult := 0), p.beforeClear);
    ResultAside(c2, p.beforeClear);
    ResultAside(d2, p.beforeClear);
    SameAcksStay(Trace.WasReset(c, p).(pubackResult := 0), Trace.WasReset(d, p).(pubackResult := 0), p.beforeSend);
  }

  /** What the result was does not decide whether the semaphore is given. */
  lemma ResultAside(c: Mqtt.Conn, es: seq<Mqtt.Event>)
    ensures var r, q := Mqtt.HandleAll(c, es), Mqtt.HandleAll(c.(pubackResult := 0), es);
      r.pendingId == q.pendingId && r.pubackSem == q.pubackSem
  {
    var d := c.(pubackResult := 0);
    Mqtt.HandleAllEffect(c, es);
    Mqtt.HandleAllEffect(d, es);
    assert Mqtt.Given(Mqtt.HandleAll(c, es), Mqtt.PubackSem) == Mqtt.Given(Mqtt.HandleAll(d, es), Mqtt.PubackSem);
  }

  lemma ErrIndependent(c: Mqtt.Conn, d: Mqtt.Conn, p: Mqtt.PublishWorld)
    ensures Mqtt.Publish(c, Mqtt.AtLeastOnce, p).1 == Mqtt.Publish(d, Mqtt.AtLeastOnce, p).1
  {
    ClearedAlike(c, d, p);
    SameAcksStay(Trace.Cleared(c, p), Trace.Cleared(d, p), p.duringSend);
    SameAcksWait(Trace.Sent(c, p), Trace.Sent(d, p), p.waiting);
  }

  // ---- One stretch of the loop --------------------------------------------------------

  /** From `w0`, at the top of the loop, the thread has come to `w` with the calls `ps`, `n` of
      them successful and their entries removed. */
  ghost predicate Traced<Fix>(w0: Protocol.World<Fix>, w: Protocol.World<Fix>, ps: seq<Mqtt.PublishWorld>, n: nat) {
    && n <= |w0.t.buf.entries| && w.t == Removed(w0.t, n)
    && n <= |ps| && (forall i :: 0 <= i < n ==> CallErr(ps[i]) == 0)
    && |ps| == (if w.pc.PublishLoop? || w.pc.FormatPayload? || n == |w0.t.buf.entries| then n else n + 1)
    && (InLoop(w.pc) && !w.pc.PublishLoop? ==> n < |w0.t.buf.entries|)
    && (Trace.InFlight(w.pc) ==> UnderWay(ps, w))
    && (w.pc.Confirmed? ==> |ps| > n && CallErr(ps[n]) == 0)
    && (!InLoop(w.pc) && |ps| > n ==> CallErr(ps[n]) != 0)
  }

  ghost predicate UnderWay<Fix>(ps: seq<Mqtt.PublishWorld>, w: Protocol.World<Fix>) {
    ps != [] && HasReached(ps[|ps| - 1], w.pc, w.c)
  }

  ghost predicate HasReached(p: Mqtt.PublishWorld, pc: Protocol.Pc, c: Mqtt.Conn) {
    exists c0 :: Trace.Reached(c0, p, pc, c)
  }

  /** A publish under way leaves the backlog alone and ends at one of two places. */
  lemma FlightKeeps<Fix>(cap: nat, w: Protocol.World<Fix>, a: Protocol.Action<Fix>)
    requires w.t.buf.stride > 0 && Protocol.Enabled(w, a) && Trace.InFlight(w.pc)
    ensures var w' := Protocol.Effect(cap, w, a);
      && w'.t == w.t && !a.FormatFails? && !a.AssignId?
      && (Trace.InFlight(w'.pc) || w'.pc.Confirmed? || w'.pc.DisconnectMqtt?)
  {
  }

  /** The call under way, extended to `p`, has come to `w'` or ended there. */
  lemma FlightGoesOn<Fix>(
      w0: Protocol.World<Fix>, w: Protocol.World<Fix>, w': Protocol.World<Fix>,
      ps: seq<Mqtt.PublishWorld>, n: nat, c0: Mqtt.Conn, p: Mqtt.PublishWorld)
    requires Trace.InFlight(w.pc) && Traced(w0, w, ps, n) && w'.t == w.t && Trace.Tracks(c0, p, w')
    requires Trace.InFlight(w'.pc) || w'.pc.Confirmed? || w'.pc.DisconnectMqtt?
    ensures Traced(w0, w', ps[..|ps| - 1] + [p], n)
  {
    var ps' := ps[..|ps| - 1] + [p];
    assert |ps| == n + 1 && ps'[n] == p && ps'[|ps'| - 1] == p;
    if Trace.InFlight(w'.pc) {
      assert HasReached(p, w'.pc, w'.c);
    } else {
      ErrIndependent(c0, IDLE, p);
    }
  }

  lemma FlightStep<Fix>(cap: nat, w0: Protocol.World<Fix>, w: Protocol.World<Fix>, ps: seq<Mqtt.PublishWorld>, n: nat, a: Protocol.Action<Fix>)
    requires Protocol.WorldInv(cap, w) && Protocol.Enabled(w, a)
    requires Trace.InFlight(w.pc) && Traced(w0, w, ps, n)
    ensures Traced(w0, Protocol.Effect(cap, w, a), ExtendCalls(ps, w.pc, a), n)
  {
    var last := ps[|ps| - 1];
    var c0 :| Trace.Reached(c0, last, w.pc, w.c);
    Trace.TrackStep(cap, c0, last, w, a);
    FlightKeeps(cap, w, a);
    FlightGoesOn(w0, w, Protocol.Effect(cap, w, a), ps, n, c0, Trace.Extend(last, w.pc, a));
  }

  // One lemma for each statement between two publishes.

  lemma PeekTraced<Fix>(cap: nat, w0: Protocol.World<Fix>, w: Protocol.World<Fix>, ps: seq<Mqtt.PublishWorld>, n: nat)
    requires w.t.buf.stride > 0 && Protocol.Enabled(w, Protocol.Peek) && Traced(w0, w, ps, n)
    ensures Traced(w0, Protocol.Effect(cap, w, Protocol.Peek), ps, n)
  {
    assert |w.t.buf.entries| == |w0.t.buf.entries| - n;
  }

  lemma FormatTraced<Fix>(cap: nat, w0: Protocol.World<Fix>, w: Protocol.World<Fix>, ps: seq<Mqtt.PublishWorld>, n: nat)
    requires w.t.buf.stride > 0 && Protocol.Enabled(w, Protocol.FormatFails) && Traced(w0, w, ps, n)
    ensures Traced(w0, Protocol.Effect(cap, w, Protocol.FormatFails), ps + [UNFORMATTED], n)
  {
    assert CallErr(UNFORMATTED) == -EMSGSIZE;
  }

  lemma AssignTraced<Fix>(cap: nat, w0: Protocol.World<Fix>, w: Protocol.World<Fix>, ps: seq<Mqtt.PublishWorld>, n: nat, id: nat)
    requires w.t.buf.stride > 0 && Protocol.Enabled(w, Protocol.AssignId(id)) && Traced(w0, w, ps, n)
    ensures Traced(w0, Protocol.Effect(cap, w, Protocol.AssignId(id)), ps + [Trace.NOTHING_YET.(id := id)], n)
  {
    var p := Trace.NOTHING_YET.(id := id);
    var w' := Protocol.Effect(cap, w, Protocol.AssignId(id));
    assert Trace.Reached(w.c, p, w'.pc, w'.c);
    assert (ps + [p])[|ps + [p]| - 1] == p;
  }

  lemma RemoveTraced<Fix>(cap: nat, w0: Protocol.World<Fix>, w: Protocol.World<Fix>, ps: seq<Mqtt.PublishWorld>, n: nat)
    requires w.t.buf.stride > 0 && Protocol.Enabled(w, Protocol.Remove) && Traced(w0, w, ps, n)
    ensures Traced(w0, Protocol.Effect(cap, w, Protocol.Remove), ps, n + 1)
  {
    var es := w0.t.buf.entries;
    assert es[n..][1..] == es[n + 1..];
  }

  /** What the network and the helper thread do between two publishes. */
  predicate Quiet<Fix>(a: Protocol.Action<Fix>) {
    a.BrokerReceives? || a.PubackArrives? || a.MessageLost? || a.ConnackArrives? || a.ConnectionCloses?
  }

  lemma QuietTraced<Fix>(cap: nat, w0: Protocol.World<Fix>, w: Protocol.World<Fix>, ps: seq<Mqtt.PublishWorld>, n: nat, a: Protocol.Action<Fix>)
    requires w.t.buf.stride > 0 && Protocol.Enabled(w, a) && Quiet(a)
    requires InLoop(w.pc) && !Trace.InFlight(w.pc) && Traced(w0, w, ps, n)
    ensures Traced(w0, Protocol.Effect(cap, w, a), ps, n) && ExtendCalls(ps, w.pc, a) == ps
  {
    var w' := Protocol.Effect(cap, w, a);
    assert w'.t == w.t && w'.pc == w.pc;
  }

  lemma BetweenStep<Fix>(cap: nat, w0: Protocol.World<Fix>, w: Protocol.World<Fix>, ps: seq<Mqtt.PublishWorld>, n: nat, a: Protocol.Action<Fix>)
      returns (n': nat)
    requires w.t.buf.stride > 0 && Protocol.Enabled(w, a)
    requires InLoop(w.pc) && !Trace.InFlight(w.pc) && Traced(w0, w, ps, n)
    ensures Traced(w0, Protocol.Effect(cap, w, a), ExtendCalls(ps, w.pc, a), n')
  {
    n' := n;
    if Quiet(a) {
      QuietTraced(cap, w0, w, ps, n, a);
    } else {
      match a
      case Peek => PeekTraced(cap, w0, w, ps, n);
      case FormatFails => FormatTraced(cap, w0, w, ps, n);
      case AssignId(id) => AssignTraced(cap, w0, w, ps, n, id);
      case Remove =>
        n' := n + 1;
        RemoveTraced(cap, w0, w, ps, n);
      case _ =>
    }
  }

  ghost predicate StaysInLoop<Fix>(cap: nat, acts: seq<Protocol.Action<Fix>>, more: seq<Protocol.Action<Fix>>) {
    forall j :: 0 <= j < |more| ==> InLoop(Protocol.Run(cap, acts + more[..j]).pc)
  }

  lemma ShorterLoop<Fix>(cap: nat, acts: seq<Protocol.Action<Fix>>, more: seq<Protocol.Action<Fix>>)
    requires StaysInLoop(cap, acts, more) && more != []
    ensures var init := more[..|more| - 1];
      StaysInLoop(cap, acts, init) && InLoop(Protocol.Run(cap, acts + init).pc)
  {
    var init := more[..|more| - 1];
    assert forall j :: 0 <= j < |init| ==> init[..j] == more[..j];
  }

  lemma TraceMore<Fix>(cap: nat, w0: Protocol.World<Fix>, acts: seq<Protocol.Action<Fix>>, more: seq<Protocol.Action<Fix>>, n: nat)
      returns (n': nat)
    requires cap >= 1 && more != []
    requires var init := more[..|more| - 1]; var w := Protocol.Run(cap, acts + init);
      InLoop(w.pc) && Traced(w0, w, Calls(cap, acts, init), n)
    ensures Traced(w0, Protocol.Run(cap, acts + more), Calls(cap, acts, more), n')
  {
    var init, a := more[..|more| - 1], more[|more| - 1];
    var w, ps := Protocol.Run(cap, acts + init), Calls(cap, acts, init);
    n' := n;
    Progress.RunMore(cap, acts, more);
    Protocol.RunKeeps(cap, acts + init);
    if Protocol.Enabled(w, a) {
      if Trace.InFlight(w.pc) {
        FlightStep(cap, w0, w, ps, n, a);
      } else {
        n' := BetweenStep(cap, w0, w, ps, n, a);
      }
    }
  }

  lemma {:induction false} LoopTraced<Fix>(cap: nat, acts: seq<Protocol.Action<Fix>>, more: seq<Protocol.Action<Fix>>) returns (n: nat)
    requires cap >= 1 && Protocol.Run(cap, acts).pc.PublishLoop? && StaysInLoop(cap, acts, more)
    ensures Traced(Protocol.Run(cap, acts), Protocol.Run(cap, acts + more), Calls(cap, acts, more), n)
  {
    if more == [] {
      n := 0;
      assert acts + more == acts;
      var t := Protocol.Run(cap, acts).t;
      assert t.buf.entries[0..] == t.buf.entries;
    } else {
      ShorterLoop(cap, acts, more);
      n := LoopTraced(cap, acts, more[..|more| - 1]);
      n := TraceMore(cap, Protocol.Run(cap, acts), acts, more, n);
    }
  }

  lemma SameTurns<Fix>(t: Tracked<Fix>, c: Mqtt.Conn, publish: nat -> Mqtt.PublishWorld, m: nat, n: nat)
    requires Turns(t, c, publish, 0, m) && Turns(t, c, publish, 0, n)
    ensures m == n
  {
    assert !(m < n) && !(n < m);
  }

  lemma TracedTurns<Fix>(w0: Protocol.World<Fix>, w: Protocol.World<Fix>, ps: seq<Mqtt.PublishWorld>, n: nat, c: Mqtt.Conn)
    requires Traced(w0, w, ps, n) && !InLoop(w.pc)
    ensures Turns(w0.t, c, Called(ps), 0, n)
  {
    forall i | 0 <= i < |ps| ensures PublishErr(c, Called(ps), i) == CallErr(ps[i]) {
      ErrIndependent(ConnAfter(c, Called(ps), i), IDLE, ps[i]);
    }
  }

  /** The publish loop of the protocol, from its top to its end, whatever comes in between, is
      the drain of the applications with the calls it made: it removes the same entries, and
      it makes a call for each of them and one more exactly if that call failed. */
  lemma LoopIsDrain<Fix>(cap: nat, acts: seq<Protocol.Action<Fix>>, more: seq<Protocol.Action<Fix>>, c: Mqtt.Conn) returns (n: nat)
    requires cap >= 1 && Protocol.Run(cap, acts).pc.PublishLoop?
    requires StaysInLoop(cap, acts, more) && !InLoop(Protocol.Run(cap, acts + more).pc)
    ensures var w0, w, ps := Protocol.Run(cap, acts), Protocol.Run(cap, acts + more), Calls(cap, acts, more);
      && Turns(w0.t, c, Called(ps), 0, n)
      && w.t == Drain(cap, w0.t, c, Called(ps), 0).0 == Removed(w0.t, n)
      && |ps| == (if n == |w0.t.buf.entries| then n else n + 1)
  {
    n := LoopTraced(cap, acts, more);
    var w0, ps := Protocol.Run(cap, acts), Calls(cap, acts, more);
    TracedTurns(w0, Protocol.Run(cap, acts + more), ps, n, c);
    var m := DrainFrom(cap, w0.t, c, Called(ps), 0);
    SameTurns(w0.t, c, Called(ps), m, n);
    assert ConnAfter(c, Called(ps), 0) == c;
  }
}
