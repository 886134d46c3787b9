/** Delivery at QoS 1: the tracker thread's loop, statement by statement, interleaved with the
    MQTT helper's callbacks, over a lossy network to a broker. The backlog may thin itself
    between two attempts to deliver the same fix. */
module Delivery {
  import opened Multiples
  import opened BacklogModel
  import Mqtt

  /** One call of the publish operation that reached the assignment of an identifier. */
  datatype Attempt<Fix> = Attempt(id: nat, number: nat, fix: Fix)

  datatype Ack = Ack(attempt: nat, result: int)

  /** Where the tracker thread stands: the states of the loop, and the statements of the
      publish operation. */
  datatype Pc =
    | WaitForGnss | ConnectLte | ConnectMqtt | PublishLoop
    | FormatPayload | BeforeReset | BeforeClear | BeforeSend | Sending | AwaitPuback | GotPuback | Confirmed
    | DisconnectMqtt | EnterLowPower

  /** `wire` maps the identifiers of messages that may still be acknowledged to their
      attempts, `received` holds the attempts the broker has, `acks` what was handled so far,
      `resetMark` how many of those were handled before the last semaphore reset. `handed`,
      `delivered` and `thinned` are the numbers given to the MQTT helper, removed after
      confirmation, and dropped by the stride. */
  datatype World<Fix> = World(
    pc: Pc, t: Tracked<Fix>, c: Mqtt.Conn,
    attempts: seq<Attempt<Fix>>, wire: map<nat, nat>, received: set<nat>, acks: seq<Ack>, resetMark: nat,
    handed: seq<nat>, delivered: seq<nat>, thinned: set<nat>)

  datatype Action<Fix> =
    | FixAcquired(fix: Fix) | NoFix | LteUp | LteFailed | MqttUp | MqttFailed
    | Peek | FormatFails | AssignId(id: nat) | ResetSem | ClearResult
    | Transmit | HelperRefuses(refusal: int) | HelperReturns(err: int) | WakeUp | TimeOut | ReadResult | Remove
    | FinishDisconnect | FinishLowPower
    | BrokerReceives(msg: nat) | PubackArrives(acked: nat, result: int) | MessageLost(lost: nat)
    | ConnackArrives(code: int) | ConnectionCloses

  function Init<Fix>(): World<Fix> {
    World(WaitForGnss, Initial(), Mqtt.Conn(false, false, false, 0, 0, 0, false),
          [], map[], {}, [], 0, [], [], {})
  }

  function Buffered<Fix>(b: Buffer<Fix>): set<nat> {
    set i | 0 <= i < |b.entries| :: b.entries[i].seqNo
  }

  /** A new identifier differs from those of messages that may still be acknowledged; the
      broker acknowledges only what it received, once (sections 2.3.1 and 4.3.2 of MQTT
      Version 3.1.1). Everything else may happen whenever the thread is there. */
  predicate Enabled<Fix>(w: World<Fix>, a: Action<Fix>) {
    match a
    case FixAcquired(_) => w.pc == WaitForGnss
    case NoFix => w.pc == WaitForGnss
    case LteUp => w.pc == ConnectLte
    case LteFailed => w.pc == ConnectLte
    case MqttUp => w.pc == ConnectMqtt
    case MqttFailed => w.pc == ConnectMqtt
    case Peek => w.pc == PublishLoop
    case FormatFails => w.pc == FormatPayload
    case AssignId(id) => w.pc == FormatPayload && w.t.buf.entries != [] && id !in w.wire
    case ResetSem => w.pc == BeforeReset
    case ClearResult => w.pc == BeforeClear
    case Transmit => w.pc == BeforeSend && w.attempts != []
    case HelperRefuses(err) => w.pc == BeforeSend && w.attempts != [] && err != 0
    case HelperReturns(_) => w.pc == Sending
    case WakeUp => w.pc == AwaitPuback && w.c.pubackSem
    case TimeOut => w.pc == AwaitPuback && !w.c.pubackSem
    case ReadResult => w.pc == GotPuback
    case Remove => w.pc == Confirmed && w.t.buf.entries != []
    case FinishDisconnect => w.pc == DisconnectMqtt
    case FinishLowPower => w.pc == EnterLowPower
    case BrokerReceives(id) => id in w.wire
    case PubackArrives(id, _) => id in w.wire && w.wire[id] in w.received
    case MessageLost(id) => id in w.wire
    case ConnackArrives(_) => true
    case ConnectionCloses => true
  }

  function Effect<Fix>(cap: nat, w: World<Fix>, a: Action<Fix>): (r: World<Fix>)
    requires Enabled(w, a) && w.t.buf.stride > 0
    ensures r.t.buf.stride > 0
  {
    match a
    case FixAcquired(fix) =>
      var t := Apply(cap, w.t, AddOp(fix));
      w.(pc := ConnectLte, t := t, thinned := w.thinned + (Buffered(w.t.buf) + {w.t.buf.nextSeq} - Buffered(t.buf)))
    case NoFix => w.(pc := EnterLowPower)
    case LteUp => w.(pc := ConnectMqtt)
    case LteFailed => w.(pc := EnterLowPower)
    case MqttUp => w.(pc := PublishLoop)
    case MqttFailed => w.(pc := DisconnectMqtt)
    case Peek => w.(pc := if w.t.buf.entries == [] then DisconnectMqtt else FormatPayload)
    case FormatFails => w.(pc := DisconnectMqtt)
    case AssignId(id) =>
      var oldest := w.t.buf.entries[0];
      w.(pc := BeforeReset, c := w.c.(pendingId := id), attempts := w.attempts + [Attempt(id, oldest.seqNo, oldest.fix)])
    case ResetSem => w.(pc := BeforeClear, c := w.c.(pubackSem := false), resetMark := |w.acks|)
    case ClearResult => w.(pc := BeforeSend, c := w.c.(pubackResult := 0))
    case Transmit =>
      var cur := |w.attempts| - 1;
      w.(pc := Sending, wire := w.wire[w.c.pendingId := cur], handed := w.handed + [w.attempts[cur].number])
    case HelperRefuses(_) => w.(pc := DisconnectMqtt, handed := w.handed + [w.attempts[|w.attempts| - 1].number])
    case HelperReturns(err) => w.(pc := if err == 0 then AwaitPuback else DisconnectMqtt)
    case WakeUp => w.(pc := GotPuback, c := w.c.(pubackSem := false))
    case TimeOut => w.(pc := DisconnectMqtt)
    case ReadResult => w.(pc := if w.c.pubackResult == 0 then Confirmed else DisconnectMqtt)
    case Remove =>
      w.(pc := PublishLoop, t := Apply(cap, w.t, RemoveOp), delivered := w.delivered + [w.t.buf.entries[0].seqNo])
    case FinishDisconnect => w.(pc := EnterLowPower)
    case FinishLowPower => w.(pc := WaitForGnss)
    case BrokerReceives(id) => w.(received := w.received + {w.wire[id]})
    case PubackArrives(id, result) =>
      w.(c := Mqtt.OnPuback(w.c, id, result), acks := w.acks + [Ack(w.wire[id], result)], wire := w.wire - {id})
    case MessageLost(id) => w.(wire := w.wire - {id})
    case ConnackArrives(code) => w.(c := Mqtt.OnConnack(w.c, code))
    case ConnectionCloses => w.(c := Mqtt.OnDisconnect(w.c))
  }

  /** An action that is not enabled does not happen. */
  function Next<Fix>(cap: nat, w: World<Fix>, a: Action<Fix>): (r: World<Fix>)
    requires w.t.buf.stride > 0
    ensures r.t.buf.stride > 0
  {
    if Enabled(w, a) then Effect(cap, w, a) else w
  }

  function Run<Fix>(cap: nat, acts: seq<Action<Fix>>): (w: World<Fix>)
    ensures w.t.buf.stride > 0
  {
    if acts == [] then Init() else Next(cap, Run(cap, acts[..|acts| - 1]), acts[|acts| - 1])
  }

  // ---- The protocol invariant --------------------------------------------------------

  predicate Publishing(pc: Pc) {
    pc in {BeforeReset, BeforeClear, BeforeSend, Sending, AwaitPuback, GotPuback, Confirmed}
  }

  ghost predicate AckedAfter(acks: seq<Ack>, mark: nat, a: Ack) {
    exists i :: mark <= i < |acks| && acks[i] == a
  }

  /** Messages that may still be acknowledged have not been, and carry their identifier. */
  ghost predicate WireInv<Fix>(w: World<Fix>) {
    && (forall id :: id in w.wire ==> w.wire[id] < |w.attempts| && w.attempts[w.wire[id]].id == id)
    && (forall id, i :: id in w.wire && 0 <= i < |w.acks| ==> w.acks[i].attempt != w.wire[id])
    && (forall i :: 0 <= i < |w.acks| ==> w.acks[i].attempt < |w.attempts| && w.acks[i].attempt in w.received)
    && (forall k :: k in w.received ==> k < |w.attempts|)
    && w.resetMark <= |w.acks|
  }

  /** The current attempt has the pending identifier and is for the oldest buffered fix. */
  ghost predicate CurrentInv<Fix>(w: World<Fix>) {
    && (Publishing(w.pc) ==>
          && w.attempts != [] && w.t.buf.entries != []
          && var cur := w.attempts[|w.attempts| - 1];
             cur.id == w.c.pendingId && cur.number == w.t.buf.entries[0].seqNo && cur.fix == w.t.buf.entries[0].fix)
    && (w.pc in {ConnectLte, ConnectMqtt, FormatPayload} ==> w.t.buf.entries != [])
  }

  ghost predicate HandshakeInv<Fix>(w: World<Fix>) {
    var cur := |w.attempts| - 1;
    && (w.pc in {BeforeReset, BeforeClear, BeforeSend} ==> w.c.pendingId !in w.wire)
    && (w.pc in {BeforeReset, BeforeClear, BeforeSend} ==> forall i :: 0 <= i < |w.acks| ==> w.acks[i].attempt != cur)
    && (w.pc in {BeforeClear, BeforeSend} ==> !w.c.pubackSem)
    && (w.pc in {Sending, AwaitPuback, GotPuback, Confirmed} && w.c.pendingId in w.wire ==> w.wire[w.c.pendingId] == cur)
    && (cur >= 0 ==>
          && (w.pc in {Sending, AwaitPuback} && w.c.pubackSem ==> AckedAfter(w.acks, w.resetMark, Ack(cur, w.c.pubackResult)))
          && (w.pc == GotPuback ==> AckedAfter(w.acks, w.resetMark, Ack(cur, w.c.pubackResult)))
          && (w.pc == Confirmed ==> AckedAfter(w.acks, w.resetMark, Ack(cur, 0))))
  }

  lemma TransmitWire<Fix>(cap: nat, w: World<Fix>)
    requires w.t.buf.stride > 0 && Enabled(w, Transmit)
    requires WireInv(w) && HandshakeInv(w) && CurrentInv(w)
    ensures WireInv(Effect(cap, w, Transmit))
  {
  }

  lemma PubackWire<Fix>(cap: nat, w: World<Fix>, id: nat, result: int)
    requires w.t.buf.stride > 0 && Enabled(w, PubackArrives(id, result)) && WireInv(w)
    ensures WireInv(Effect(cap, w, PubackArrives(id, result)))
  {
    var w' := Effect(cap, w, PubackArrives(id, result));
    forall other, i | other in w'.wire && 0 <= i < |w'.acks| ensures w'.acks[i].attempt != w'.wire[other] {
      if i == |w.acks| {
        assert w.attempts[w.wire[id]].id == id && w.attempts[w.wire[other]].id == other;
      }
    }
  }

  lemma WireStep<Fix>(cap: nat, w: World<Fix>, a: Action<Fix>)
    requires w.t.buf.stride > 0 && Enabled(w, a)
    requires WireInv(w) && HandshakeInv(w) && CurrentInv(w)
    ensures WireInv(Effect(cap, w, a))
  {
    match a
    case Transmit => TransmitWire(cap, w);
    case PubackArrives(id, result) => PubackWire(cap, w, id, result);
    case _ =>
  }

  lemma CurrentStep<Fix>(cap: nat, w: World<Fix>, a: Action<Fix>)
    requires Inv(cap, w.t) && Enabled(w, a) && CurrentInv(w)
    ensures CurrentInv(Effect(cap, w, a))
  {
    match a
    case FixAcquired(fix) => AddInv(cap, w.t, fix);
    case _ =>
  }

  lemma AckedLater(acks: seq<Ack>, more: Ack, mark: nat, a: Ack)
    requires AckedAfter(acks, mark, a) || (more == a && mark <= |acks|)
    ensures AckedAfter(acks + [more], mark, a)
  {
    if AckedAfter(acks, mark, a) {
      var i :| mark <= i < |acks| && acks[i] == a;
      assert (acks + [more])[i] == a;
    } else {
      assert (acks + [more])[|acks|] == a;
    }
  }

  /** A PUBACK handled before the current attempt is sent is not for it. */
  lemma EarlyPuback<Fix>(cap: nat, w: World<Fix>, id: nat, result: int)
    requires w.t.buf.stride > 0 && Enabled(w, PubackArrives(id, result))
    requires WireInv(w) && HandshakeInv(w) && w.pc in {BeforeReset, BeforeClear, BeforeSend}
    requires w.attempts != [] && w.attempts[|w.attempts| - 1].id == w.c.pendingId
    ensures var w' := Effect(cap, w, PubackArrives(id, result));
      w'.c == w.c && HandshakeInv(w')
  {
    assert w.attempts[w.wire[id]].id == id;
  }

  /** A PUBACK handled after it is sent either is for it and completes it, or changes nothing. */
  lemma LatePuback<Fix>(cap: nat, w: World<Fix>, id: nat, result: int)
    requires w.t.buf.stride > 0 && Enabled(w, PubackArrives(id, result))
    requires WireInv(w) && HandshakeInv(w) && w.pc in {Sending, AwaitPuback, GotPuback, Confirmed} && w.attempts != []
    ensures HandshakeInv(Effect(cap, w, PubackArrives(id, result)))
  {
    var cur, more := |w.attempts| - 1, Ack(w.wire[id], result);
    if w.pc == Confirmed {
      AckedLater(w.acks, more, w.resetMark, Ack(cur, 0));
    } else if w.pc == GotPuback {
      AckedLater(w.acks, more, w.resetMark, Ack(cur, w.c.pubackResult));
    } else if id == w.c.pendingId {
      AckedLater(w.acks, more, w.resetMark, Ack(cur, result));
    } else if w.c.pubackSem {
      AckedLater(w.acks, more, w.resetMark, Ack(cur, w.c.pubackResult));
    }
  }

  lemma HandshakeStep<Fix>(cap: nat, w: World<Fix>, a: Action<Fix>)
    requires w.t.buf.stride > 0 && Enabled(w, a)
    requires WireInv(w) && HandshakeInv(w) && CurrentInv(w)
    ensures HandshakeInv(Effect(cap, w, a))
  {
    match a
    case PubackArrives(id, result) =>
      if w.pc in {BeforeReset, BeforeClear, BeforeSend} {
        EarlyPuback(cap, w, id, result);
      } else if w.pc in {Sending, AwaitPuback, GotPuback, Confirmed} {
        LatePuback(cap, w, id, result);
      }
    case _ =>
  }

  // ---- Where every fix is -------------------------------------------------------------

  ghost predicate Ascending(s: seq<nat>) {
    forall i, j :: 0 <= i < j < |s| ==> s[i] < s[j]
  }

  lemma {:induction false} MultiplesAscend(stride: nat, lo: nat, hi: nat)
    requires stride > 0
    ensures Ascending(MultiplesIn(stride, lo, hi))
  {
    if hi <= lo {
    } else {
      MultiplesAscend(stride, lo, hi - 1);
      MultiplesAre(stride, lo, hi - 1);
      AppendAscends(MultiplesIn(stride, lo, hi - 1), hi - 1);
    }
  }

  lemma AppendAscends(s: seq<nat>, n: nat)
    requires Ascending(s) && forall m :: m in s ==> m < n
    ensures Ascending(s + [n])
  {
    assert forall i :: 0 <= i < |s| ==> s[i] in s;
  }

  ghost predicate Sorted<Fix>(es: seq<Slot<Fix>>) {
    forall i, j :: 0 <= i < j < |es| ==> es[i].seqNo < es[j].seqNo
  }

  lemma EntriesSorted<Fix>(cap: nat, t: Tracked<Fix>)
    requires Inv(cap, t)
    ensures Sorted(t.buf.entries)
  {
    var es := t.buf.entries;
    if es != [] {
      MultiplesAscend(t.buf.stride, t.floor, t.buf.nextSeq);
      var ns := Numbers(es);
      forall i, j | 0 <= i < j < |es| ensures es[i].seqNo < es[j].seqNo {
        assert ns[i] < ns[j];
      }
    }
  }

  lemma AddKeepsOrDrops<Fix>(cap: nat, b: Buffer<Fix>, fix: Fix, s: Slot<Fix>)
    requires b.stride > 0 && s in Add(cap, b, fix).entries
    ensures s in b.entries || s == Slot(fix, b.nextSeq)
  {
    var stride := if b.entries == [] then 1 else b.stride;
    RefilterKeeps(b.entries, 2 * stride);
  }

  lemma BufferedAre<Fix>(b: Buffer<Fix>)
    ensures forall s :: s in b.entries ==> s.seqNo in Buffered(b)
    ensures forall n :: n in Buffered(b) ==> exists s :: s in b.entries && s.seqNo == n
  {
    forall n | n in Buffered(b) ensures exists s :: s in b.entries && s.seqNo == n {
      var i :| 0 <= i < |b.entries| && b.entries[i].seqNo == n;
      assert b.entries[i] in b.entries;
    }
  }

  function Elements(s: seq<nat>): set<nat> {
    set i | 0 <= i < |s| :: s[i]
  }

  /** Every number given out is in exactly one of three places. */
  ghost predicate Conserved<Fix>(w: World<Fix>) {
    var b, d := Buffered(w.t.buf), Elements(w.delivered);
    && b !! w.thinned && b !! d && w.thinned !! d
    && (forall n :: n in b + w.thinned + d <==> 1 <= n < w.t.buf.nextSeq)
  }

  /** An addition gives out one number; what leaves the buffer is thinned, for good. */
  lemma ConservedAdd<Fix>(cap: nat, w: World<Fix>, fix: Fix)
    requires Inv(cap, w.t) && Conserved(w) && w.pc == WaitForGnss
    ensures var w' := Effect(cap, w, FixAcquired(fix));
      && Conserved(w')
      && w'.delivered == w.delivered && w.thinned <= w'.thinned
      && Buffered(w'.t.buf) + w'.thinned == Buffered(w.t.buf) + w.thinned + {w.t.buf.nextSeq}
  {
    var w' := Effect(cap, w, FixAcquired(fix));
    var n, b, b', d := w.t.buf.nextSeq, Buffered(w.t.buf), Buffered(w'.t.buf), Elements(w.delivered);
    OnlyOld(cap, w.t.buf, fix);
    assert n !in b + w.thinned + d;
    forall m ensures m in b' + w'.thinned + d <==> 1 <= m < n + 1 {
      assert m in b' + w'.thinned <==> m in b + w.thinned || m == n;
      assert m in b + w.thinned + d <==> 1 <= m < n;
    }
  }

  lemma OnlyOld<Fix>(cap: nat, b: Buffer<Fix>, fix: Fix)
    requires b.stride > 0
    ensures Buffered(Add(cap, b, fix)) <= Buffered(b) + {b.nextSeq}
  {
    var b' := Add(cap, b, fix);
    BufferedAre(b);
    BufferedAre(b');
    forall m | m in Buffered(b') ensures m in Buffered(b) + {b.nextSeq} {
      var s :| s in b'.entries && s.seqNo == m;
      AddKeepsOrDrops(cap, b, fix, s);
    }
  }

  /** A removal moves exactly the head from the buffer to the delivered ones. */
  lemma ConservedRemove<Fix>(cap: nat, w: World<Fix>)
    requires Inv(cap, w.t) && Conserved(w) && Enabled(w, Remove)
    ensures var w', head := Effect(cap, w, Remove), w.t.buf.entries[0].seqNo;
      && Conserved(w')
      && w'.thinned == w.thinned && w'.delivered == w.delivered + [head]
      && head in Buffered(w.t.buf) && Buffered(w'.t.buf) == Buffered(w.t.buf) - {head}
  {
    var w', head := Effect(cap, w, Remove), w.t.buf.entries[0].seqNo;
    HeadLeaves(cap, w.t);
    ElementsAppend(w.delivered, head);
    forall n ensures n in Buffered(w'.t.buf) + w.thinned + Elements(w'.delivered) <==> 1 <= n < w.t.buf.nextSeq {
      assert n in Buffered(w.t.buf) + w.thinned + Elements(w.delivered) <==> 1 <= n < w.t.buf.nextSeq;
    }
  }

  lemma HeadLeaves<Fix>(cap: nat, t: Tracked<Fix>)
    requires Inv(cap, t) && t.buf.entries != []
    ensures var head := t.buf.entries[0].seqNo;
      head in Buffered(t.buf) && Buffered(RemoveOldest(t.buf)) == Buffered(t.buf) - {head}
  {
    var es, head := t.buf.entries, t.buf.entries[0].seqNo;
    EntriesSorted(cap, t);
    assert forall i :: 0 <= i < |es| - 1 ==> es[1..][i] == es[i + 1];
    forall n ensures n in Buffered(RemoveOldest(t.buf)) <==> n in Buffered(t.buf) && n != head {
      if n in Buffered(t.buf) && n != head {
        var i :| 0 <= i < |es| && es[i].seqNo == n;
        assert es[1..][i - 1].seqNo == n;
      }
    }
  }

  lemma ElementsAppend(s: seq<nat>, x: nat)
    ensures Elements(s + [x]) == Elements(s) + {x}
  {
    forall n ensures n in Elements(s + [x]) <==> n in Elements(s) || n == x {
      if n in Elements(s) {
        var i :| 0 <= i < |s| && s[i] == n;
        assert (s + [x])[i] == n;
      }
      assert (s + [x])[|s|] == x;
    }
  }

  lemma ConservedStep<Fix>(cap: nat, w: World<Fix>, a: Action<Fix>)
    requires Inv(cap, w.t) && Enabled(w, a) && Conserved(w)
    ensures Inv(cap, Effect(cap, w, a).t) && Conserved(Effect(cap, w, a))
  {
    match a
    case FixAcquired(fix) =>
      AddInv(cap, w.t, fix);
      ConservedAdd(cap, w, fix);
    case Remove =>
      RemoveInv(cap, w.t);
      ConservedRemove(cap, w);
    case _ =>
  }

  // ---- What was sent and confirmed ----------------------------------------------------

  /** Attempt `k` carried fix `n`, the broker has it, and its acknowledgement without error
      was handled. */
  ghost predicate ConfirmedBy<Fix>(w: World<Fix>, k: nat, n: nat) {
    && k < |w.attempts| && k in w.received && Ack(k, 0) in w.acks
    && 1 <= n <= |w.t.history| && w.attempts[k] == Attempt(w.attempts[k].id, n, w.t.history[n - 1])
  }

  ghost predicate AttemptsInv<Fix>(w: World<Fix>) {
    forall k :: 0 <= k < |w.attempts| ==>
      1 <= w.attempts[k].number <= |w.t.history| && w.attempts[k].fix == w.t.history[w.attempts[k].number - 1]
  }

  ghost predicate DeliveredInv<Fix>(w: World<Fix>) {
    forall n :: n in w.delivered ==> exists k :: ConfirmedBy(w, k, n)
  }

  lemma ConfirmedStays<Fix>(w: World<Fix>, w': World<Fix>, k: nat, n: nat)
    requires ConfirmedBy(w, k, n)
    requires w.attempts <= w'.attempts && w.received <= w'.received && w.acks <= w'.acks && w.t.history <= w'.t.history
    ensures ConfirmedBy(w', k, n)
  {
    var i :| 0 <= i < |w.acks| && w.acks[i] == Ack(k, 0);
    assert w'.acks[i] == Ack(k, 0);
  }

  lemma RemoveIsConfirmed<Fix>(cap: nat, w: World<Fix>)
    requires Inv(cap, w.t) && Enabled(w, Remove)
    requires WireInv(w) && HandshakeInv(w) && CurrentInv(w)
    ensures ConfirmedBy(w, |w.attempts| - 1, w.t.buf.entries[0].seqNo)
  {
    var i :| w.resetMark <= i < |w.acks| && w.acks[i] == Ack(|w.attempts| - 1, 0);
    assert w.t.buf.entries[0] in w.t.buf.entries;
  }

  lemma AssignAttempt<Fix>(cap: nat, w: World<Fix>, id: nat)
    requires Inv(cap, w.t) && Enabled(w, AssignId(id)) && AttemptsInv(w)
    ensures AttemptsInv(Effect(cap, w, AssignId(id)))
  {
    assert w.t.buf.entries[0] in w.t.buf.entries;
  }

  lemma AttemptsStep<Fix>(cap: nat, w: World<Fix>, a: Action<Fix>)
    requires Inv(cap, w.t) && Enabled(w, a) && AttemptsInv(w)
    ensures AttemptsInv(Effect(cap, w, a))
  {
    match a
    case AssignId(id) => AssignAttempt(cap, w, id);
    case _ =>
      assert Effect(cap, w, a).attempts == w.attempts;
      assert w.t.history <= Effect(cap, w, a).t.history;
  }

  lemma DeliveredStep<Fix>(cap: nat, w: World<Fix>, a: Action<Fix>)
    requires Inv(cap, w.t) && Enabled(w, a)
    requires WireInv(w) && HandshakeInv(w) && CurrentInv(w) && DeliveredInv(w)
    ensures DeliveredInv(Effect(cap, w, a))
  {
    var w' := Effect(cap, w, a);
    forall n | n in w'.delivered ensures exists k :: ConfirmedBy(w', k, n) {
      if n in w.delivered {
        var k :| ConfirmedBy(w, k, n);
        ConfirmedStays(w, w', k, n);
      } else {
        RemoveIsConfirmed(cap, w);
        ConfirmedStays(w, w', |w.attempts| - 1, n);
      }
    }
  }

  /** Numbers reach the helper in non-decreasing order and are confirmed in increasing order. */
  ghost predicate OrderInv<Fix>(w: World<Fix>) {
    var es := w.t.buf.entries;
    && (forall i, j :: 0 <= i < j < |w.handed| ==> w.handed[i] <= w.handed[j])
    && (forall i, j :: 0 <= i < j < |w.delivered| ==> w.delivered[i] < w.delivered[j])
    && (forall i :: 0 <= i < |w.handed| ==> w.handed[i] < w.t.buf.nextSeq && (es != [] ==> w.handed[i] <= es[0].seqNo))
    && (forall i :: 0 <= i < |w.delivered| ==> w.delivered[i] < w.t.buf.nextSeq && (es != [] ==> w.delivered[i] < w.t.floor))
  }

  lemma HeadNeverOlder<Fix>(cap: nat, t: Tracked<Fix>, fix: Fix)
    requires Inv(cap, t)
    ensures var es := Add(cap, t.buf, fix).entries;
      es != [] && (es[0].seqNo == t.buf.nextSeq || (t.buf.entries != [] && t.buf.entries[0].seqNo <= es[0].seqNo))
  {
    AddInv(cap, t, fix);
    EntriesSorted(cap, t);
    var head := Add(cap, t.buf, fix).entries[0];
    AddKeepsOrDrops(cap, t.buf, fix, head);
    if head in t.buf.entries {
      var i :| 0 <= i < |t.buf.entries| && t.buf.entries[i] == head;
    }
  }

  lemma OrderRemove<Fix>(cap: nat, w: World<Fix>)
    requires Inv(cap, w.t) && Enabled(w, Remove) && OrderInv(w)
    ensures OrderInv(Effect(cap, w, Remove))
  {
    var es := w.t.buf.entries;
    EntriesSorted(cap, w.t);
    assert es[0] in es;
    assert |es| > 1 ==> es[1..][0] == es[1];
    assert w.t.floor <= es[0].seqNo by {
      DropFirst(w.t.buf.stride, w.t.floor, w.t.buf.nextSeq);
      assert Numbers(es)[0] == es[0].seqNo;
    }
  }

  lemma OrderHand<Fix>(cap: nat, w: World<Fix>, a: Action<Fix>)
    requires Inv(cap, w.t) && Enabled(w, a) && CurrentInv(w) && OrderInv(w)
    requires a.Transmit? || a.HelperRefuses?
    ensures OrderInv(Effect(cap, w, a))
  {
    assert w.t.buf.entries[0] in w.t.buf.entries;
  }

  lemma OrderStep<Fix>(cap: nat, w: World<Fix>, a: Action<Fix>)
    requires Inv(cap, w.t) && Enabled(w, a) && CurrentInv(w) && OrderInv(w)
    ensures OrderInv(Effect(cap, w, a))
  {
    match a
    case FixAcquired(fix) => HeadNeverOlder(cap, w.t, fix);
    case Remove => OrderRemove(cap, w);
    case Transmit => OrderHand(cap, w, a);
    case HelperRefuses(_) => OrderHand(cap, w, a);
    case _ =>
  }

  // ---- Every reachable state ----------------------------------------------------------

  ghost predicate WorldInv<Fix>(cap: nat, w: World<Fix>) {
    && Inv(cap, w.t)
    && WireInv(w) && CurrentInv(w) && HandshakeInv(w)
    && Conserved(w) && AttemptsInv(w) && DeliveredInv(w) && OrderInv(w)
  }

  lemma {:induction false} RunKeeps<Fix>(cap: nat, acts: seq<Action<Fix>>)
    requires cap >= 1
    ensures WorldInv(cap, Run(cap, acts))
  {
    if acts == [] {
    } else {
      var w, a := Run(cap, acts[..|acts| - 1]), acts[|acts| - 1];
      RunKeeps(cap, acts[..|acts| - 1]);
      if Enabled(w, a) {
        WireStep(cap, w, a);
        CurrentStep(cap, w, a);
        HandshakeStep(cap, w, a);
        ConservedStep(cap, w, a);
        AttemptsStep(cap, w, a);
        DeliveredStep(cap, w, a);
        OrderStep(cap, w, a);
      }
    }
  }

  /** In every reachable state each fix ever added is in exactly one place: still buffered
      with its own data, thinned out, or removed; and it was removed only if the broker has
      it and acknowledged, without error, an attempt that carried this very fix. */
  lemma ExactlyOnePlace<Fix>(cap: nat, acts: seq<Action<Fix>>, n: nat)
    requires cap >= 1 && 1 <= n <= |Run(cap, acts).t.history|
    ensures var w := Run(cap, acts); var b := n in Buffered(w.t.buf);
      && (b ==> n !in w.thinned && n !in w.delivered && Slot(w.t.history[n - 1], n) in w.t.buf.entries)
      && (!b ==> (n in w.thinned <==> n !in w.delivered))
      && (n in w.delivered ==> exists k :: ConfirmedBy(w, k, n))
  {
    RunKeeps(cap, acts);
    var w := Run(cap, acts);
    OnePlace(w, n);
    OwnData(cap, w.t, n);
  }

  lemma OwnData<Fix>(cap: nat, t: Tracked<Fix>, n: nat)
    requires Inv(cap, t) && 1 <= n <= |t.history|
    ensures n in Buffered(t.buf) ==> Slot(t.history[n - 1], n) in t.buf.entries
  {
    if n in Buffered(t.buf) {
      BufferedAre(t.buf);
      var s :| s in t.buf.entries && s.seqNo == n;
      assert s == Slot(t.history[n - 1], n);
    }
  }

  lemma OnePlace<Fix>(w: World<Fix>, n: nat)
    requires Conserved(w) && 1 <= n < w.t.buf.nextSeq
    ensures n in Buffered(w.t.buf) ==> n !in w.thinned && n !in w.delivered
    ensures n !in Buffered(w.t.buf) ==> (n in w.thinned <==> n !in w.delivered)
  {
    assert n in Buffered(w.t.buf) + w.thinned + Elements(w.delivered);
    assert n in Elements(w.delivered) <==> n in w.delivered;
  }

  /** An acknowledgement without error of the current attempt, for the fix about to be removed,
      was handled after this attempt's semaphore reset, and the broker has the fix. */
  ghost predicate GenuinelyConfirmed<Fix>(w: World<Fix>) {
    var cur := |w.attempts| - 1;
    && cur >= 0 && AckedAfter(w.acks, w.resetMark, Ack(cur, 0)) && cur in w.received
    && w.t.buf.entries != []
    && w.attempts[cur] == Attempt(w.c.pendingId, w.t.buf.entries[0].seqNo, w.t.buf.entries[0].fix)
  }

  lemma Genuine<Fix>(cap: nat, w: World<Fix>)
    requires WorldInv(cap, w) && w.pc == Confirmed
    ensures GenuinelyConfirmed(w)
  {
    var cur := |w.attempts| - 1;
    var i :| w.resetMark <= i < |w.acks| && w.acks[i] == Ack(cur, 0);
    assert w.acks[i].attempt == cur;
  }

  /** The publish operation has succeeded only if this very attempt was confirmed. */
  lemma ConfirmationIsGenuine<Fix>(cap: nat, acts: seq<Action<Fix>>)
    requires cap >= 1 && Run(cap, acts).pc == Confirmed
    ensures GenuinelyConfirmed(Run(cap, acts))
  {
    RunKeeps(cap, acts);
    Genuine(cap, Run(cap, acts));
  }

  /** The acknowledgement of any other attempt, however late, leaves the handshake of the
      current attempt untouched. */
  lemma OtherAcksIgnored<Fix>(cap: nat, acts: seq<Action<Fix>>, id: nat, result: int)
    requires cap >= 1
    requires var w := Run(cap, acts);
      Enabled(w, PubackArrives(id, result)) && Publishing(w.pc) && w.wire[id] != |w.attempts| - 1
    ensures var w := Run(cap, acts); Effect(cap, w, PubackArrives(id, result)).c == w.c
  {
    RunKeeps(cap, acts);
    NotPending(Run(cap, acts), id);
  }

  lemma NotPending<Fix>(w: World<Fix>, id: nat)
    requires WireInv(w) && HandshakeInv(w) && Publishing(w.pc)
    requires id in w.wire && w.wire[id] != |w.attempts| - 1
    ensures id != w.c.pendingId
  {
  }

  /** Fixes reach the MQTT helper in non-decreasing order over the whole run, so retries of a
      fix are contiguous, and they are confirmed in strictly increasing order. */
  lemma InOrder<Fix>(cap: nat, acts: seq<Action<Fix>>)
    requires cap >= 1
    ensures var w := Run(cap, acts);
      && (forall i, j :: 0 <= i < j < |w.handed| ==> w.handed[i] <= w.handed[j])
      && (forall i, j, k :: 0 <= i < j < k < |w.handed| && w.handed[i] == w.handed[k] ==> w.handed[j] == w.handed[i])
      && Ascending(w.delivered)
  {
    RunKeeps(cap, acts);
  }

  /** The uplink is never opened for nothing. */
  lemma UplinkHasWork<Fix>(cap: nat, acts: seq<Action<Fix>>)
    requires cap >= 1
    ensures var w := Run(cap, acts);
      && (w.pc in {ConnectLte, ConnectMqtt} ==> w.t.buf.entries != [])
      && (Enabled(w, MqttUp) ==> Effect(cap, w, MqttUp).t.buf.entries != [])
  {
    RunKeeps(cap, acts);
  }
}
