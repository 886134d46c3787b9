/** The publish loop both applications share: publish the oldest buffered fix, remove it once
    its publish has succeeded, stop at the first failure. */
module Publishing {
  import opened BacklogModel
  import Machine = BacklogMachine
  import Mqtt

  /** The publish loop from its k-th turn on: remove what is confirmed, stop at the first failure. */
  function Drain<Fix>(
      cap: nat, t: Tracked<Fix>, c: Mqtt.Conn, publish: nat -> Mqtt.PublishWorld, k: nat)
      : (Tracked<Fix>, Mqtt.Conn)
    requires t.buf.stride > 0
    decreases |t.buf.entries|
  {
    if t.buf.entries == [] then (t, c)
    else
      var (c', err) := Mqtt.Publish(c, Mqtt.AtLeastOnce, publish(k));
      if err != 0 then (t, c') else Drain(cap, Apply(cap, t, RemoveOp), c', publish, k + 1)
  }

  /** The connection after the first `n` publishes of a drain, and what the n-th returns. */
  function ConnAfter(c: Mqtt.Conn, publish: nat -> Mqtt.PublishWorld, n: nat): Mqtt.Conn {
    if n == 0 then c else Mqtt.Publish(ConnAfter(c, publish, n - 1), Mqtt.AtLeastOnce, publish(n - 1)).0
  }

  function PublishErr(c: Mqtt.Conn, publish: nat -> Mqtt.PublishWorld, n: nat): int {
    Mqtt.Publish(ConnAfter(c, publish, n), Mqtt.AtLeastOnce, publish(n)).1
  }

  /** What the loop leaves once it has removed the first `n` entries. */
  function Removed<Fix>(t: Tracked<Fix>, n: nat): Tracked<Fix>
    requires n <= |t.buf.entries|
  {
    t.(buf := t.buf.(entries := t.buf.entries[n..]),
       floor := if n == 0 then t.floor else t.buf.entries[n - 1].seqNo + 1)
  }

  /** The first `n` entries were removed, each after its publish returned 0, and nothing else
      of the backlog changed; the loop stopped because nothing was left or the next publish
      failed; and the connection is what these publishes leave, the failed one included. */
  ghost predicate Drained<Fix>(
      t: Tracked<Fix>, t': Tracked<Fix>, c: Mqtt.Conn, c': Mqtt.Conn, publish: nat -> Mqtt.PublishWorld, n: nat)
  {
    && n <= |t.buf.entries| && t' == Removed(t, n)
    && (forall i :: 0 <= i < n ==> PublishErr(c, publish, i) == 0)
    && (n < |t.buf.entries| ==> PublishErr(c, publish, n) != 0)
    && c' == ConnAfter(c, publish, if n < |t.buf.entries| then n + 1 else n)
  }

  lemma RemovedMore<Fix>(cap: nat, t: Tracked<Fix>, n: nat)
    requires t.buf.stride > 0 && n < |t.buf.entries|
    ensures Removed(Apply(cap, t, RemoveOp), n) == Removed(t, n + 1)
  {
    assert t.buf.entries[1..][n..] == t.buf.entries[n + 1..];
  }

  /** One turn of the loop. */
  lemma DrainTurn<Fix>(cap: nat, t: Tracked<Fix>, c: Mqtt.Conn, publish: nat -> Mqtt.PublishWorld, k: nat)
    requires t.buf.stride > 0 && t.buf.entries != []
    ensures Drain(cap, t, ConnAfter(c, publish, k), publish, k) ==
      if PublishErr(c, publish, k) != 0 then (t, ConnAfter(c, publish, k + 1))
      else Drain(cap, Apply(cap, t, RemoveOp), ConnAfter(c, publish, k + 1), publish, k + 1)
  {
  }

  /** From turn `k` on the loop makes `n` successful publishes, then a failed one unless
      nothing is left. */
  ghost predicate Turns<Fix>(t: Tracked<Fix>, c: Mqtt.Conn, publish: nat -> Mqtt.PublishWorld, k: nat, n: nat) {
    && n <= |t.buf.entries|
    && (forall i :: k <= i < k + n ==> PublishErr(c, publish, i) == 0)
    && (n < |t.buf.entries| ==> PublishErr(c, publish, k + n) != 0)
  }

  /** And what it leaves is what these turns leave. */
  ghost predicate DrainsTo<Fix>(cap: nat, t: Tracked<Fix>, c: Mqtt.Conn, publish: nat -> Mqtt.PublishWorld, k: nat, n: nat)
    requires t.buf.stride > 0
  {
    && Turns(t, c, publish, k, n)
    && Drain(cap, t, ConnAfter(c, publish, k), publish, k)
      == (Removed(t, n), ConnAfter(c, publish, if n < |t.buf.entries| then k + n + 1 else k + n))
  }

  lemma OneTurnMore<Fix>(cap: nat, t: Tracked<Fix>, c: Mqtt.Conn, publish: nat -> Mqtt.PublishWorld, k: nat, n: nat)
    requires t.buf.stride > 0 && t.buf.entries != [] && PublishErr(c, publish, k) == 0
    requires DrainsTo(cap, Apply(cap, t, RemoveOp), c, publish, k + 1, n)
    ensures DrainsTo(cap, t, c, publish, k, n + 1)
  {
    assert k + (n + 1) == k + 1 + n;
    DrainTurn(cap, t, c, publish, k);
    RemovedMore(cap, t, n);
  }

  lemma NoTurnMore<Fix>(cap: nat, t: Tracked<Fix>, c: Mqtt.Conn, publish: nat -> Mqtt.PublishWorld, k: nat)
    requires t.buf.stride > 0 && (t.buf.entries == [] || PublishErr(c, publish, k) != 0)
    ensures DrainsTo(cap, t, c, publish, k, 0)
  {
    if t.buf.entries != [] {
      DrainTurn(cap, t, c, publish, k);
    }
  }

  lemma {:induction false} DrainFrom<Fix>(
      cap: nat, t: Tracked<Fix>, c: Mqtt.Conn, publish: nat -> Mqtt.PublishWorld, k: nat) returns (n: nat)
    requires t.buf.stride > 0
    ensures DrainsTo(cap, t, c, publish, k, n)
    decreases |t.buf.entries|
  {
    if t.buf.entries == [] || PublishErr(c, publish, k) != 0 {
      n := 0;
      NoTurnMore(cap, t, c, publish, k);
    } else {
      n := DrainFrom(cap, Apply(cap, t, RemoveOp), c, publish, k + 1);
      OneTurnMore(cap, t, c, publish, k, n);
      n := n + 1;
    }
  }

  lemma TurnsDrain<Fix>(cap: nat, t: Tracked<Fix>, c: Mqtt.Conn, publish: nat -> Mqtt.PublishWorld, n: nat)
    requires t.buf.stride > 0 && DrainsTo(cap, t, c, publish, 0, n)
    ensures var (t', c') := Drain(cap, t, ConnAfter(c, publish, 0), publish, 0); Drained(t, t', c, c', publish, n)
  {
    assert n <= |t.buf.entries| && 0 + n + 1 == n + 1;
    forall i | 0 <= i < n ensures PublishErr(c, publish, i) == 0 {
      assert 0 <= i < 0 + n;
    }
  }

  /** The loop removes exactly the oldest entries whose publishes succeeded, up to the first
      that did not. */
  lemma DrainRemovesConfirmed<Fix>(cap: nat, t: Tracked<Fix>, c: Mqtt.Conn, publish: nat -> Mqtt.PublishWorld)
    requires t.buf.stride > 0
    ensures var (t', c') := Drain(cap, t, c, publish, 0);
      exists n :: Drained(t, t', c, c', publish, n)
  {
    var n := DrainFrom(cap, t, c, publish, 0);
    var (t', c') := Drain(cap, t, c, publish, 0);
    assert ConnAfter(c, publish, 0) == c;
    TurnsDrain(cap, t, c, publish, n);
  }

  lemma {:induction false} DrainStride<Fix>(
      cap: nat, t: Tracked<Fix>, c: Mqtt.Conn, publish: nat -> Mqtt.PublishWorld, k: nat)
    requires t.buf.stride > 0
    ensures Drain(cap, t, c, publish, k).0.buf.stride > 0
    decreases |t.buf.entries|
  {
    if t.buf.entries == [] {
    } else {
      var (c', err) := Mqtt.Publish(c, Mqtt.AtLeastOnce, publish(k));
      if err == 0 {
        DrainStride(cap, Apply(cap, t, RemoveOp), c', publish, k + 1);
      }
    }
  }

  lemma {:induction false} DrainInv<Fix>(
      cap: nat, t: Tracked<Fix>, c: Mqtt.Conn, publish: nat -> Mqtt.PublishWorld, k: nat)
    requires Inv(cap, t)
    ensures Inv(cap, Drain(cap, t, c, publish, k).0)
    ensures Drain(cap, t, c, publish, k).1.connectAttempted ==> c.connectAttempted
    decreases |t.buf.entries|
  {
    if t.buf.entries == [] {
    } else {
      Mqtt.PublishLeaves(c, Mqtt.AtLeastOnce, publish(k));
      var (c', err) := Mqtt.Publish(c, Mqtt.AtLeastOnce, publish(k));
      if err == 0 {
        RemoveInv(cap, t);
        DrainInv(cap, Apply(cap, t, RemoveOp), c', publish, k + 1);
      }
    }
  }

  /** The loop as the firmware has it, over the array backlog and the MQTT module. */
  method DrainBacklog<Fix(0)>(backlog: Machine.Backlog<Fix>, client: Mqtt.Client, publish: nat -> Mqtt.PublishWorld)
    requires backlog.Valid()
    modifies backlog, backlog.entries, client
    ensures backlog.Valid()
    ensures (backlog.tracked, client.State())
         == Drain(backlog.cap, old(backlog.tracked), old(client.State()), publish, 0)
  {
    var k := 0;
    var oldest := backlog.PeekOldest();
    while oldest.Some?
      invariant backlog.Valid()
      invariant oldest.Some? <==> backlog.tracked.buf.entries != []
      invariant Drain(backlog.cap, backlog.tracked, client.State(), publish, k)
             == Drain(backlog.cap, old(backlog.tracked), old(client.State()), publish, 0)
      decreases |backlog.tracked.buf.entries|
    {
      var err := client.PublishLocation(Mqtt.AtLeastOnce, publish(k));
      if err != 0 {
        return;
      }
      backlog.RemoveOldest();
      k := k + 1;
      oldest := backlog.PeekOldest();
    }
  }
}
