/** The MQTT module: the flags and semaphores shared by the tracker thread and the helper
    thread. A callback runs atomically. What the helper thread does between two statements
    of the tracker thread is an event list, an argument of the operation. */
module Mqtt {
  import opened Common

  const ACCEPTED: int := 0
  const UNACCEPTABLE_PROTOCOL_VERSION: int := 1

  datatype Conn = Conn(
    connSem: bool, pubackSem: bool, disconnectedSem: bool,
    connackResult: int, pubackResult: int, pendingId: nat, connectAttempted: bool)

  datatype Event = Connack(code: int) | Disconnected | Puback(id: nat, result: int)

  datatype Qos = AtMostOnce | AtLeastOnce

  function OnPuback(c: Conn, id: nat, result: int): Conn {
    if id != c.pendingId then c else c.(pubackResult := result, pubackSem := true)
  }

  function OnDisconnect(c: Conn): Conn {
    c.(connectAttempted := false, disconnectedSem := true)
  }

  function OnConnack(c: Conn, code: int): Conn {
    c.(connackResult := code, connSem := true)
  }

  function Handle(c: Conn, e: Event): Conn {
    match e
    case Connack(code) => OnConnack(c, code)
    case Disconnected => OnDisconnect(c)
    case Puback(id, result) => OnPuback(c, id, result)
  }

  function HandleAll(c: Conn, es: seq<Event>): Conn
    decreases |es|
  {
    if es == [] then c else HandleAll(Handle(c, es[0]), es[1..])
  }

  datatype Sem = ConnSem | PubackSem | DisconnectedSem

  predicate Given(c: Conn, s: Sem) {
    match s case ConnSem => c.connSem case PubackSem => c.pubackSem case DisconnectedSem => c.disconnectedSem
  }

  function Reset(c: Conn, s: Sem): Conn {
    match s
    case ConnSem => c.(connSem := false)
    case PubackSem => c.(pubackSem := false)
    case DisconnectedSem => c.(disconnectedSem := false)
  }

  /** Wait on `s` while `es` is handled. The wait ends at the first give; what is left of
      `es` is handled before the woken thread reads anything. */
  function Take(c: Conn, s: Sem, es: seq<Event>): (Conn, bool)
    decreases |es|
  {
    if Given(c, s) then (HandleAll(Reset(c, s), es), true)
    else if es == [] then (c, false)
    else Take(Handle(c, es[0]), s, es[1..])
  }

  /** What the world does during one publish: `beforeReset`, `beforeClear` and `beforeSend`
      are handled between the statements that prepare it, `duringSend` before the helper
      call returns, `waiting` while the tracker thread waits for the PUBACK. */
  datatype PublishWorld = PublishWorld(
    formatted: bool, id: nat,
    beforeReset: seq<Event>, beforeClear: seq<Event>, beforeSend: seq<Event>,
    duringSend: seq<Event>, helperErr: int, waiting: seq<Event>)

  function Publish(c: Conn, qos: Qos, w: PublishWorld): (Conn, int) {
    if !w.formatted then (c, -EMSGSIZE)
    else
      var c1 := HandleAll(c.(pendingId := w.id), w.beforeReset);
      var c2 :=
        if qos == AtLeastOnce then HandleAll(HandleAll(Reset(c1, PubackSem), w.beforeClear).(pubackResult := 0), w.beforeSend)
        else HandleAll(HandleAll(c1, w.beforeClear), w.beforeSend);
      var c3 := HandleAll(c2, w.duringSend);
      if w.helperErr != 0 then (c3, w.helperErr)
      else if qos == AtMostOnce then (c3, 0)
      else
        var (c4, taken) := Take(c3, PubackSem, w.waiting);
        (c4, if taken then c4.pubackResult else -ETIMEDOUT)
  }

  /** `beforeInit` is handled between the semaphore reset and the writing of the initial
      result, `duringCall` before the helper call returns, `beforeSet` before the attempt flag
      is written, `waiting` from there on. */
  datatype ConnectWorld = ConnectWorld(
    beforeInit: seq<Event>, duringCall: seq<Event>, helperErr: int, beforeSet: seq<Event>, waiting: seq<Event>)

  function Connect(c: Conn, w: ConnectWorld): (Conn, int) {
    var c1 := HandleAll(Reset(c, ConnSem), w.beforeInit).(connackResult := UNACCEPTABLE_PROTOCOL_VERSION);
    var c2 := HandleAll(c1, w.duringCall);
    if w.helperErr != 0 then (c2, w.helperErr)
    else
      var (c3, taken) := Take(HandleAll(c2, w.beforeSet).(connectAttempted := true), ConnSem, w.waiting);
      (c3, if !taken then -ETIMEDOUT else if c3.connackResult != ACCEPTED then -ECONNREFUSED else 0)
  }

  datatype DisconnectWorld = DisconnectWorld(
    beforeReset: seq<Event>, duringCall: seq<Event>, helperErr: int, waiting: seq<Event>)

  function Disconnect(c: Conn, w: DisconnectWorld): (Conn, int) {
    if !c.connectAttempted then (c, 0)
    else
      var c1 := HandleAll(Reset(HandleAll(c, w.beforeReset), DisconnectedSem), w.duringCall);
      if w.helperErr != 0 then (c1, w.helperErr)
      else
        var (c2, taken) := Take(c1, DisconnectedSem, w.waiting);
        (c2, if taken then 0 else -ETIMEDOUT)
  }

  // ---- What the callbacks leave behind ------------------------------------------------

  /** The result of the last PUBACK for `id` among `es`, or `default` if there is none. */
  function LastAck(es: seq<Event>, id: nat, default: int): int {
    if es == [] then default
    else
      var e := es[|es| - 1];
      if e.Puback? && e.id == id then e.result else LastAck(es[..|es| - 1], id, default)
  }

  /** The code of the last CONNACK among `es`, or `default` if there is none. */
  function LastConnack(es: seq<Event>, default: int): int {
    if es == [] then default
    else
      var e := es[|es| - 1];
      if e.Connack? then e.code else LastConnack(es[..|es| - 1], default)
  }

  predicate Acked(es: seq<Event>, id: nat) {
    exists e :: e in es && e.Puback? && e.id == id
  }

  predicate Answered(es: seq<Event>) {
    exists e :: e in es && e.Connack?
  }

  predicate Handled(es: seq<Event>, s: Sem, id: nat) {
    match s
    case ConnSem => Answered(es)
    case PubackSem => Acked(es, id)
    case DisconnectedSem => Disconnected in es
  }

  lemma {:induction false} HandleAllSplit(c: Conn, a: seq<Event>, b: seq<Event>)
    ensures HandleAll(c, a + b) == HandleAll(HandleAll(c, a), b)
    decreases |a|
  {
    if a == [] {
      assert a + b == b;
    } else {
      assert (a + b)[1..] == a[1..] + b;
      HandleAllSplit(Handle(c, a[0]), a[1..], b);
    }
  }

  /** Everything the events leave behind, field by field. */
  lemma {:induction false} HandleAllEffect(c: Conn, es: seq<Event>)
    ensures var r := HandleAll(c, es);
      && r.pendingId == c.pendingId
      && r.pubackResult == LastAck(es, c.pendingId, c.pubackResult)
      && r.connackResult == LastConnack(es, c.connackResult)
      && (forall s :: Given(r, s) <==> Given(c, s) || Handled(es, s, c.pendingId))
      && (r.connectAttempted <==> c.connectAttempted && Disconnected !in es)
  {
    if es == [] {
    } else {
      var k := |es| - 1;
      assert es == es[..k] + [es[k]];
      HandleAllSplit(c, es[..k], [es[k]]);
      HandleAllEffect(c, es[..k]);
      var m := HandleAll(c, es[..k]);
      assert [es[k]][1..] == [];
      assert HandleAll(m, [es[k]]) == Handle(m, es[k]);
      forall s ensures Handled(es, s, c.pendingId) <==> Handled(es[..k], s, c.pendingId) || Gives(es[k], s, c.pendingId) {
        HandledLast(es, s, c.pendingId);
      }
    }
  }

  predicate Gives(e: Event, s: Sem, id: nat) {
    match s
    case ConnSem => e.Connack?
    case PubackSem => e.Puback? && e.id == id
    case DisconnectedSem => e == Disconnected
  }

  lemma HandledLast(es: seq<Event>, s: Sem, id: nat)
    requires es != []
    ensures var k := |es| - 1; Handled(es, s, id) <==> Handled(es[..k], s, id) || Gives(es[k], s, id)
  {
    var k := |es| - 1;
    assert forall e :: e in es <==> e in es[..k] || e == es[k];
    assert es[k] in es;
  }

  /** A wait succeeds exactly when the semaphore was given before or during it, and
      changes nothing else. */
  lemma {:induction false} TakeEffect(c: Conn, s: Sem, es: seq<Event>)
    ensures var (r, taken) := Take(c, s, es);
      && (taken <==> Given(c, s) || Handled(es, s, c.pendingId))
      && r.pubackResult == HandleAll(c, es).pubackResult
      && r.connackResult == HandleAll(c, es).connackResult
      && r.connectAttempted == HandleAll(c, es).connectAttempted
      && r.pendingId == c.pendingId
    decreases |es|
  {
    if Given(c, s) {
      ResetIrrelevant(c, s, es);
      HandleAllEffect(c, es);
    } else if es != [] {
      TakeEffect(Handle(c, es[0]), s, es[1..]);
      assert es == [es[0]] + es[1..];
    }
  }

  lemma {:induction false} ResetIrrelevant(c: Conn, s: Sem, es: seq<Event>)
    ensures var r, q := HandleAll(Reset(c, s), es), HandleAll(c, es);
      && r.pubackResult == q.pubackResult && r.connackResult == q.connackResult
      && r.connectAttempted == q.connectAttempted && r.pendingId == q.pendingId
  {
    if es == [] {
    } else {
      var k := |es| - 1;
      assert es == es[..k] + [es[k]];
      HandleAllSplit(c, es[..k], [es[k]]);
      HandleAllSplit(Reset(c, s), es[..k], [es[k]]);
      ResetIrrelevant(c, s, es[..k]);
      assert [es[k]][1..] == [];
    }
  }

  /** At QoS 1, with an identifier nobody acknowledges before it is sent, a publish succeeds
      exactly when the payload fits, the helper accepts it, and it was acknowledged, the last
      acknowledgement under this very identifier being free of error. Acknowledgements of
      earlier attempts never count. */
  lemma PublishSucceedsExactly(c: Conn, w: PublishWorld)
    requires !Acked(w.beforeClear, w.id) && !Acked(w.beforeSend, w.id)
    ensures var (r, err) := Publish(c, AtLeastOnce, w);
      var acks := w.duringSend + w.waiting;
      && (err == 0 <==> w.formatted && w.helperErr == 0 && Acked(acks, w.id) && LastAck(acks, w.id, 0) == 0)
      && err == (
           if !w.formatted then -EMSGSIZE
           else if w.helperErr != 0 then w.helperErr
           else if !Acked(acks, w.id) then -ETIMEDOUT
           else LastAck(acks, w.id, 0))
  {
    if w.formatted {
      var c1 := HandleAll(c.(pendingId := w.id), w.beforeReset);
      HandleAllEffect(c.(pendingId := w.id), w.beforeReset);
      var c2 := HandleAll(Reset(c1, PubackSem), w.beforeClear).(pubackResult := 0);
      HandleAllEffect(Reset(c1, PubackSem), w.beforeClear);
      assert !Handled(w.beforeClear, PubackSem, w.id) && !Handled(w.beforeSend, PubackSem, w.id);
      assert Given(HandleAll(Reset(c1, PubackSem), w.beforeClear), PubackSem) == Given(c2, PubackSem);
      var c3 := HandleAll(c2, w.beforeSend);
      HandleAllEffect(c2, w.beforeSend);
      NoAck(w.beforeSend, w.id, 0);
      assert !c3.pubackSem && c3.pubackResult == 0 && c3.pendingId == w.id by {
        assert !Given(c2, PubackSem);
        assert !Given(c3, PubackSem);
      }
      var acks := w.duringSend + w.waiting;
      HandleAllEffect(c3, w.duringSend);
      HandleAllEffect(c3, acks);
      HandleAllSplit(c3, w.duringSend, w.waiting);
      TakeEffect(HandleAll(c3, w.duringSend), PubackSem, w.waiting);
      assert Acked(acks, w.id) <==> Acked(w.duringSend, w.id) || Acked(w.waiting, w.id);
    }
  }

  /** The events one publish sees. */
  function PublishSeen(qos: Qos, w: PublishWorld): seq<Event> {
    if !w.formatted then []
    else
      w.beforeReset + w.beforeClear + w.beforeSend + w.duringSend
      + if w.helperErr != 0 || qos == AtMostOnce then [] else w.waiting
  }

  /** A publish leaves the pending identifier its own, unless the payload did not fit, and the
      attempt flag as the disconnects during it do. At QoS 0 its result is the helper's. */
  lemma PublishLeaves(c: Conn, qos: Qos, w: PublishWorld)
    ensures var (r, err) := Publish(c, qos, w);
      && r.pendingId == (if w.formatted then w.id else c.pendingId)
      && (r.connectAttempted <==> c.connectAttempted && Disconnected !in PublishSeen(qos, w))
      && (!w.formatted ==> r == c)
      && (qos == AtMostOnce ==> err == if w.formatted then w.helperErr else -EMSGSIZE)
  {
    if w.formatted {
      var c0 := c.(pendingId := w.id);
      var c1 := HandleAll(c0, w.beforeReset);
      HandleAllEffect(c0, w.beforeReset);
      var c2 := if qos == AtLeastOnce then Reset(c1, PubackSem) else c1;
      HandleAllEffect(c2, w.beforeClear);
      var c3 := HandleAll(c2, w.beforeClear);
      var c4 := if qos == AtLeastOnce then c3.(pubackResult := 0) else c3;
      HandleAllEffect(c4, w.beforeSend);
      var c5 := HandleAll(c4, w.beforeSend);
      HandleAllEffect(c5, w.duringSend);
      var c6 := HandleAll(c5, w.duringSend);
      TakeEffect(c6, PubackSem, w.waiting);
      HandleAllEffect(c6, w.waiting);
    }
  }

  lemma {:induction false} NoAck(es: seq<Event>, id: nat, default: int)
    requires !Acked(es, id)
    ensures LastAck(es, id, default) == default
  {
    if es == [] {
    } else {
      assert es[|es| - 1] in es;
      assert forall e :: e in es[..|es| - 1] ==> e in es;
      NoAck(es[..|es| - 1], id, default);
    }
  }

  /** Why the identifier must be fresh: an acknowledgement left over from an earlier message
      with the same identifier, handled between the semaphore reset and the clearing of the
      result, turns even an error result into success. */
  lemma StaleAckCompletes(c: Conn, id: nat)
    ensures Publish(c, AtLeastOnce, PublishWorld(true, id, [], [Puback(id, -1)], [], [], 0, [])).1 == 0
  {
    var c1 := Reset(c.(pendingId := id), PubackSem);
    var es := [Puback(id, -1)];
    assert es[1..] == [];
    assert HandleAll(c1, es) == HandleAll(Handle(c1, es[0]), []) == c1.(pubackResult := -1, pubackSem := true);
  }

  /** The events one disconnect sees. */
  function DisconnectSeen(w: DisconnectWorld): seq<Event> {
    w.beforeReset + w.duringCall + if w.helperErr != 0 then [] else w.waiting
  }

  /** A disconnect that returns 0 leaves no attempted connection, and it returns 0 exactly
      when there was none or the helper reported the disconnect after the reset. The flag
      falls by disconnects handled during it and by nothing else. */
  lemma DisconnectSucceedsExactly(c: Conn, w: DisconnectWorld)
    ensures var (r, err) := Disconnect(c, w);
      && (err == 0 <==> !c.connectAttempted || (w.helperErr == 0 && Disconnected in w.duringCall + w.waiting))
      && (err == 0 ==> !r.connectAttempted)
      && (r.connectAttempted <==> c.connectAttempted && Disconnected !in DisconnectSeen(w))
      && (!c.connectAttempted ==> r == c)
      && (c.connectAttempted && w.helperErr != 0 ==> err == w.helperErr)
      && (err != 0 && w.helperErr == 0 ==> err == -ETIMEDOUT)
  {
    if c.connectAttempted {
      var c0 := HandleAll(c, w.beforeReset);
      var c1 := HandleAll(Reset(c0, DisconnectedSem), w.duringCall);
      HandleAllEffect(c, w.beforeReset);
      HandleAllEffect(Reset(c0, DisconnectedSem), w.duringCall);
      assert Given(c1, DisconnectedSem) <==> Disconnected in w.duringCall by {
        assert !Given(Reset(c0, DisconnectedSem), DisconnectedSem);
      }
      HandleAllEffect(c1, w.waiting);
      TakeEffect(c1, DisconnectedSem, w.waiting);
    }
  }

  /** A connect succeeds exactly when the helper accepts it and the last CONNACK handled after
      the initial result was written accepts. A refusal left over from an earlier attempt can
      end the wait early, but no stale acceptance counts. */
  lemma ConnectSucceedsExactly(c: Conn, w: ConnectWorld)
    ensures var codes := w.duringCall + w.beforeSet + w.waiting;
      var accepted := LastConnack(codes, UNACCEPTABLE_PROTOCOL_VERSION) == ACCEPTED;
      && (Connect(c, w).1 == 0 <==> w.helperErr == 0 && accepted)
      && Connect(c, w).1 == (
           if w.helperErr != 0 then w.helperErr
           else if !Answered(w.beforeInit + codes) then -ETIMEDOUT
           else if !accepted then -ECONNREFUSED
           else 0)
  {
    if w.helperErr == 0 {
      var c0 := HandleAll(Reset(c, ConnSem), w.beforeInit);
      var c1 := c0.(connackResult := UNACCEPTABLE_PROTOCOL_VERSION);
      var early := w.duringCall + w.beforeSet;
      var c2 := HandleAll(c1, early);
      HandleAllEffect(Reset(c, ConnSem), w.beforeInit);
      HandleAllSplit(c1, w.duringCall, w.beforeSet);
      HandleAllSplit(c1, early, w.waiting);
      HandleAllEffect(c1, early);
      HandleAllEffect(c1, early + w.waiting);
      FlagIrrelevant(c2, w.waiting);
      TakeEffect(c2.(connectAttempted := true), ConnSem, w.waiting);
      NoConnack(early + w.waiting, UNACCEPTABLE_PROTOCOL_VERSION);
      assert Given(c1, ConnSem) == Given(c0, ConnSem) && !Given(Reset(c, ConnSem), ConnSem);
      AnsweredParts(w.beforeInit, early + w.waiting);
      AnsweredParts(early, w.waiting);
      assert HandleAll(c2, w.waiting) == HandleAll(c1, early + w.waiting);
    }
  }

  lemma AnsweredParts(a: seq<Event>, b: seq<Event>)
    ensures Answered(a + b) <==> Answered(a) || Answered(b)
  {
    assert forall e :: e in a + b <==> e in a || e in b;
  }

  lemma {:induction false} NoConnack(es: seq<Event>, default: int)
    ensures Answered(es) || LastConnack(es, default) == default
  {
    if es == [] {
    } else {
      var k := |es| - 1;
      assert es[k] in es;
      assert forall e :: e in es[..k] ==> e in es;
      NoConnack(es[..k], default);
    }
  }

  lemma FlagIrrelevant(c: Conn, es: seq<Event>)
    ensures HandleAll(c.(connectAttempted := true), es).connackResult == HandleAll(c, es).connackResult
  {
    HandleAllEffect(c, es);
    HandleAllEffect(c.(connectAttempted := true), es);
  }

  /** After an accepted connect request the attempt flag stays set exactly when no disconnect
      is handled after the request returned and the flag was written. A disconnect handled
      between those two is overwritten: the flag then outlives the connection. A refused
      request never sets the flag; a disconnect handled during it clears it. */
  lemma ConnectFlagExactly(c: Conn, w: ConnectWorld)
    ensures Connect(c, w).0.connectAttempted <==>
      if w.helperErr == 0 then Disconnected !in w.waiting
      else c.connectAttempted && Disconnected !in w.beforeInit + w.duringCall
  {
    var c0 := HandleAll(Reset(c, ConnSem), w.beforeInit);
    HandleAllEffect(Reset(c, ConnSem), w.beforeInit);
    var c1 := c0.(connackResult := UNACCEPTABLE_PROTOCOL_VERSION);
    HandleAllEffect(c1, w.duringCall);
    var c2 := HandleAll(HandleAll(c1, w.duringCall), w.beforeSet).(connectAttempted := true);
    TakeEffect(c2, ConnSem, w.waiting);
    HandleAllEffect(c2, w.waiting);
  }

  // ---- The module as the firmware has it ----------------------------------------------

  class Client {
    var connSem: bool
    var pubackSem: bool
    var disconnectedSem: bool
    var connackResult: int
    var pubackResult: int
    var pendingId: nat
    var connectAttempted: bool

    ghost function State(): Conn
      reads this
    {
      Conn(connSem, pubackSem, disconnectedSem, connackResult, pubackResult, pendingId, connectAttempted)
    }

    constructor ()
      ensures State() == Conn(false, false, false, 0, 0, 0, false)
    {
      connSem, pubackSem, disconnectedSem := false, false, false;
      connackResult, pubackResult, pendingId, connectAttempted := 0, 0, 0, false;
    }

    method HandleConnack(code: int)
      modifies this
      ensures State() == OnConnack(old(State()), code)
    {
      connackResult := code;
      connSem := true;
    }

    method HandleDisconnect()
      modifies this
      ensures State() == OnDisconnect(old(State()))
    {
      connectAttempted := false;
      disconnectedSem := true;
    }

    method HandlePuback(id: nat, result: int)
      modifies this
      ensures State() == OnPuback(old(State()), id, result)
    {
      if id != pendingId {
        return;
      }
      pubackResult := result;
      pubackSem := true;
    }

    method HandleEvent(e: Event)
      modifies this
      ensures State() == Handle(old(State()), e)
    {
      match e
      case Connack(code) => HandleConnack(code);
      case Disconnected => HandleDisconnect();
      case Puback(id, result) => HandlePuback(id, result);
    }

    /** The helper thread runs. */
    method Yield(es: seq<Event>)
      modifies this
      ensures State() == HandleAll(old(State()), es)
    {
      var rest := es;
      while rest != []
        invariant HandleAll(State(), rest) == HandleAll(old(State()), es)
        decreases |rest|
      {
        HandleEvent(rest[0]);
        rest := rest[1..];
      }
    }

    method TakeSem(s: Sem, es: seq<Event>) returns (taken: bool)
      modifies this
      ensures (State(), taken) == Take(old(State()), s, es)
    {
      var rest := es;
      while rest != [] && !(match s case ConnSem => connSem case PubackSem => pubackSem case DisconnectedSem => disconnectedSem)
        invariant Take(State(), s, rest) == Take(old(State()), s, es)
        decreases |rest|
      {
        HandleEvent(rest[0]);
        rest := rest[1..];
      }
      match s {
        case ConnSem => taken := connSem; connSem := false;
        case PubackSem => taken := pubackSem; pubackSem := false;
        case DisconnectedSem => taken := disconnectedSem; disconnectedSem := false;
      }
      if taken {
        Yield(rest);
      }
    }

    method PublishLocation(qos: Qos, w: PublishWorld) returns (err: int)
      modifies this
      ensures (State(), err) == Publish(old(State()), qos, w)
    {
      if !w.formatted {
        return -EMSGSIZE;
      }
      pendingId := w.id;
      Yield(w.beforeReset);
      if qos == AtLeastOnce {
        pubackSem := false;
        Yield(w.beforeClear);
        pubackResult := 0;
      } else {
        Yield(w.beforeClear);
      }
      Yield(w.beforeSend);
      Yield(w.duringSend);
      if w.helperErr != 0 {
        return w.helperErr;
      }
      if qos == AtMostOnce {
        return 0;
      }
      var taken := TakeSem(PubackSem, w.waiting);
      return if taken then pubackResult else -ETIMEDOUT;
    }

    method ConnectBroker(w: ConnectWorld) returns (err: int)
      modifies this
      ensures (State(), err) == Connect(old(State()), w)
    {
      connSem := false;
      Yield(w.beforeInit);
      connackResult := UNACCEPTABLE_PROTOCOL_VERSION;
      Yield(w.duringCall);
      if w.helperErr != 0 {
        return w.helperErr;
      }
      Yield(w.beforeSet);
      connectAttempted := true;
      var taken := TakeSem(ConnSem, w.waiting);
      if !taken {
        return -ETIMEDOUT;
      }
      return if connackResult != ACCEPTED then -ECONNREFUSED else 0;
    }

    method DisconnectBroker(w: DisconnectWorld) returns (err: int)
      modifies this
      ensures (State(), err) == Disconnect(old(State()), w)
    {
      if !connectAttempted {
        return 0;
      }
      Yield(w.beforeReset);
      disconnectedSem := false;
      Yield(w.duringCall);
      if w.helperErr != 0 {
        return w.helperErr;
      }
      var taken := TakeSem(DisconnectedSem, w.waiting);
      return if taken then 0 else -ETIMEDOUT;
    }
  }
}
