/** The adaptive-stride backlog with unbounded sequence numbers, and what holds of it
    after any interleaving of additions and removals. `cap` is the configured capacity. */
module BacklogModel {
  import opened Multiples

  datatype Slot<Fix> = Slot(fix: Fix, seqNo: nat)

  datatype Buffer<Fix> = Buffer(entries: seq<Slot<Fix>>, nextSeq: nat, stride: nat)

  /** The slots whose sequence number is a multiple of `stride`, in order. */
  function Refilter<Fix>(entries: seq<Slot<Fix>>, stride: nat): seq<Slot<Fix>>
    requires stride > 0
  {
    if entries == [] then []
    else
      var last := entries[|entries| - 1];
      Refilter(entries[..|entries| - 1], stride) + (if last.seqNo % stride == 0 then [last] else [])
  }

  function Add<Fix>(cap: nat, b: Buffer<Fix>, fix: Fix): Buffer<Fix>
    requires b.stride > 0
  {
    var stride := if b.entries == [] then 1 else b.stride;
    var n := b.nextSeq;
    if n % stride != 0 then
      Buffer(b.entries, n + 1, stride)
    else if |b.entries| == cap then
      var kept := Refilter(b.entries, 2 * stride);
      Buffer(if n % (2 * stride) != 0 then kept else kept + [Slot(fix, n)], n + 1, 2 * stride)
    else
      Buffer(b.entries + [Slot(fix, n)], n + 1, stride)
  }

  function RemoveOldest<Fix>(b: Buffer<Fix>): Buffer<Fix> {
    if b.entries == [] then b else b.(entries := b.entries[1..])
  }

  function Numbers<Fix>(entries: seq<Slot<Fix>>): seq<nat> {
    seq(|entries|, i requires 0 <= i < |entries| => entries[i].seqNo)
  }

  /** A buffer with what has happened to it: `history[n - 1]` is the fix added under number
      `n`, `start` the number of the first fix added since the buffer was last empty, and
      `floor` one past the last removed number of that episode, or `start`. */
  datatype Tracked<Fix> = Tracked(buf: Buffer<Fix>, start: nat, floor: nat, history: seq<Fix>)

  datatype Op<Fix> = AddOp(fix: Fix) | RemoveOp

  function Initial<Fix>(): Tracked<Fix> {
    Tracked(Buffer([], 1, 1), 1, 1, [])
  }

  function Apply<Fix>(cap: nat, t: Tracked<Fix>, op: Op<Fix>): Tracked<Fix>
    requires t.buf.stride > 0
  {
    match op
    case AddOp(fix) =>
      var empty := t.buf.entries == [];
      Tracked(Add(cap, t.buf, fix),
              if empty then t.buf.nextSeq else t.start,
              if empty then t.buf.nextSeq else t.floor,
              t.history + [fix])
    case RemoveOp =>
      t.(buf := RemoveOldest(t.buf),
         floor := if t.buf.entries == [] then t.floor else t.buf.entries[0].seqNo + 1)
  }

  /** The buffer holds exactly the multiples of `stride` numbered from `floor` on. */
  ghost predicate Exact<Fix>(t: Tracked<Fix>)
    requires t.buf.stride > 0
  {
    && 1 <= t.start <= t.floor <= t.buf.nextSeq
    && Numbers(t.buf.entries) == MultiplesIn(t.buf.stride, t.floor, t.buf.nextSeq)
  }

  /** The stride was never doubled without need. */
  ghost predicate Economical<Fix>(cap: nat, t: Tracked<Fix>)
    requires t.buf.stride > 0
  {
    || t.buf.stride == 1
    || (&& t.buf.stride * cap < 2 * (t.buf.nextSeq - t.start)
        && (t.floor == t.start ==> |MultiplesIn(t.buf.stride / 2, t.start, t.buf.nextSeq)| > cap))
  }

  ghost predicate Inv<Fix>(cap: nat, t: Tracked<Fix>) {
    && cap >= 1 && t.buf.nextSeq == |t.history| + 1
    && PowerOfTwo(t.buf.stride)
    && |t.buf.entries| <= cap
    && (t.buf.entries != [] ==> Exact(t) && Economical(cap, t))
    && (forall s :: s in t.buf.entries ==> 1 <= s.seqNo < t.buf.nextSeq && s.fix == t.history[s.seqNo - 1])
  }

  lemma {:induction false} RefilterNumbers<Fix>(entries: seq<Slot<Fix>>, stride: nat, lo: nat, hi: nat)
    requires stride > 0
    requires Numbers(entries) == MultiplesIn(stride, lo, hi)
    ensures Numbers(Refilter(entries, 2 * stride)) == MultiplesIn(2 * stride, lo, hi)
  {
    if hi <= lo {
    } else {
      var k := |entries| - 1;
      if (hi - 1) % stride == 0 {
        var ns := Numbers(entries);
        assert ns[..k] == MultiplesIn(stride, lo, hi - 1);
        assert ns[k] == entries[k].seqNo == hi - 1;
        assert Numbers(entries[..k]) == ns[..k];
        RefilterNumbers(entries[..k], stride, lo, hi - 1);
      } else {
        RefilterNumbers(entries, stride, lo, hi - 1);
        NotDoubleMultiple(hi - 1, stride);
      }
    }
  }

  lemma {:induction false} RefilterKeeps<Fix>(entries: seq<Slot<Fix>>, stride: nat)
    requires stride > 0
    ensures forall s :: s in Refilter(entries, stride) <==> s in entries && s.seqNo % stride == 0
  {
    if entries == [] {
    } else {
      RefilterKeeps(entries[..|entries| - 1], stride);
    }
  }

  /** What doubling does to a full buffer that meets its next multiple. */
  lemma DoublingFits(cap: nat, stride: nat, lo: nat, n: nat)
    requires cap >= 1 && stride > 0 && lo <= n && n % stride == 0
    requires |MultiplesIn(stride, lo, n)| == cap
    ensures |MultiplesIn(stride, lo, n + 1)| == cap + 1
    ensures (cap + 1) / 2 <= |MultiplesIn(2 * stride, lo, n + 1)| <= cap / 2 + 1
    ensures |MultiplesIn(2 * stride, lo, n + 1)| <= cap
    ensures (2 * stride) * cap < 2 * (n + 1 - lo)
  {
    HalvedCount(stride, lo, n + 1);
    CountSpan(stride, lo, n + 1);
    assert (2 * stride) * cap == 2 * (cap * stride);
  }

  lemma AddDoubles<Fix>(cap: nat, t: Tracked<Fix>, fix: Fix)
    requires Inv(cap, t) && |t.buf.entries| == cap && t.buf.nextSeq % t.buf.stride == 0
    ensures Inv(cap, Apply(cap, t, AddOp(fix)))
    ensures var b := Add(cap, t.buf, fix);
      b.stride == 2 * t.buf.stride && (cap + 1) / 2 <= |b.entries| <= cap / 2 + 1
  {
    var b, n, t' := t.buf, t.buf.nextSeq, Apply(cap, t, AddOp(fix));
    var kept := Refilter(b.entries, 2 * b.stride);
    RefilterNumbers(b.entries, b.stride, t.floor, n);
    RefilterKeeps(b.entries, 2 * b.stride);
    DoublingFits(cap, b.stride, t.floor, n);
    assert Numbers(t'.buf.entries) == MultiplesIn(2 * b.stride, t.floor, n + 1) by {
      assert Numbers(kept + [Slot(fix, n)]) == Numbers(kept) + [n];
    }
    assert t'.buf.stride / 2 == b.stride;
    assert |t'.buf.entries| == |Numbers(t'.buf.entries)|;
  }

  lemma AddKeepsStride<Fix>(cap: nat, t: Tracked<Fix>, fix: Fix)
    requires Inv(cap, t) && t.buf.entries != []
    requires |t.buf.entries| < cap || t.buf.nextSeq % t.buf.stride != 0
    ensures Inv(cap, Apply(cap, t, AddOp(fix)))
    ensures Add(cap, t.buf, fix).entries != []
  {
    var b, n, t' := t.buf, t.buf.nextSeq, Apply(cap, t, AddOp(fix));
    assert Numbers(t'.buf.entries) == MultiplesIn(b.stride, t.floor, n + 1) by {
      assert Numbers(b.entries + [Slot(fix, n)]) == Numbers(b.entries) + [n];
    }
    if b.stride > 1 && t.floor == t.start {
      MultiplesGrow(b.stride / 2, t.start, n, n + 1);
    }
  }

  /** Every addition keeps the invariant and leaves between 1 and `cap` entries. */
  lemma AddInv<Fix>(cap: nat, t: Tracked<Fix>, fix: Fix)
    requires Inv(cap, t)
    ensures Inv(cap, Apply(cap, t, AddOp(fix)))
    ensures 1 <= |Add(cap, t.buf, fix).entries| <= cap
  {
    var b := t.buf;
    if b.entries == [] {
      var n, t' := b.nextSeq, Apply(cap, t, AddOp(fix));
      assert MultiplesIn(1, n, n) == [];
      assert MultiplesIn(1, n, n + 1) == [n];
      assert Numbers(t'.buf.entries) == [n];
    } else if |b.entries| == cap && b.nextSeq % b.stride == 0 {
      AddDoubles(cap, t, fix);
    } else {
      AddKeepsStride(cap, t, fix);
    }
  }

  lemma RemoveInv<Fix>(cap: nat, t: Tracked<Fix>)
    requires Inv(cap, t)
    ensures Inv(cap, Apply(cap, t, RemoveOp))
  {
    var es := t.buf.entries;
    if es != [] {
      DropFirst(t.buf.stride, t.floor, t.buf.nextSeq);
      assert Numbers(es)[0] == es[0].seqNo;
      assert Numbers(es[1..]) == Numbers(es)[1..];
    }
  }

  function Run<Fix>(cap: nat, ops: seq<Op<Fix>>): (t: Tracked<Fix>)
    ensures t.buf.stride > 0
  {
    if ops == [] then Initial()
    else Apply(cap, Run(cap, ops[..|ops| - 1]), ops[|ops| - 1])
  }

  /** The invariant holds after any interleaving of additions and removals. */
  lemma {:induction false} RunInv<Fix>(cap: nat, ops: seq<Op<Fix>>)
    requires cap >= 1
    ensures Inv(cap, Run(cap, ops))
  {
    if ops == [] {
    } else {
      var t := Run(cap, ops[..|ops| - 1]);
      RunInv(cap, ops[..|ops| - 1]);
      match ops[|ops| - 1]
      case AddOp(fix) => AddInv(cap, t, fix);
      case RemoveOp => RemoveInv(cap, t);
    }
  }

  lemma InNumbers<Fix>(es: seq<Slot<Fix>>, n: nat)
    ensures n in Numbers(es) <==> exists s :: s in es && s.seqNo == n
  {
    var ns := Numbers(es);
    if n in ns {
      var i :| 0 <= i < |ns| && ns[i] == n;
      assert es[i] in es;
    }
    if s :| s in es && s.seqNo == n {
      var i :| 0 <= i < |es| && es[i] == s;
      assert ns[i] == n;
    }
  }

  /** In every reachable state with something buffered, the buffered numbers are exactly
      the multiples of the stride from the floor on. */
  lemma ExactlyTheMultiples<Fix>(cap: nat, ops: seq<Op<Fix>>, n: nat)
    requires cap >= 1
    ensures var t := Run(cap, ops);
      t.buf.entries != [] && t.floor <= n < t.buf.nextSeq ==>
        (n % t.buf.stride == 0 <==> exists s :: s in t.buf.entries && s.seqNo == n)
  {
    RunInv(cap, ops);
    var t := Run(cap, ops);
    MultiplesAre(t.buf.stride, t.floor, t.buf.nextSeq);
    InNumbers(t.buf.entries, n);
  }

  /** In every reachable state, whatever was removed, the stride is bounded by the number of
      fixes added since the buffer was last empty. */
  lemma StrideBound<Fix>(cap: nat, ops: seq<Op<Fix>>)
    requires cap >= 1
    ensures var t := Run(cap, ops);
      t.buf.entries != [] ==> t.buf.stride == 1 || t.buf.stride * cap < 2 * (t.buf.nextSeq - t.start)
  {
    RunInv(cap, ops);
  }

  ghost predicate SpacedSlots<Fix>(es: seq<Slot<Fix>>, stride: nat, next: nat) {
    && (forall i :: 0 <= i < |es| - 1 ==> es[i + 1].seqNo == es[i].seqNo + stride)
    && (es != [] ==> es[|es| - 1].seqNo < next <= es[|es| - 1].seqNo + stride)
  }

  lemma MultiplesSpaced<Fix>(es: seq<Slot<Fix>>, stride: nat, lo: nat, next: nat)
    requires stride > 0 && Numbers(es) == MultiplesIn(stride, lo, next)
    ensures SpacedSlots(es, stride, next)
  {
    var ns := Numbers(es);
    EvenlySpaced(stride, lo, next);
    forall i | 0 <= i < |es| - 1 ensures es[i + 1].seqNo == es[i].seqNo + stride {
      assert ns[i + 1] == ns[i] + stride;
    }
    assert es != [] ==> es[|es| - 1].seqNo == ns[|ns| - 1];
  }

  /** In every reachable state neighbours are exactly one stride apart, the last entry is
      less than a stride old, and a slot's number leads back to the fix added under it. */
  lemma EvenSpacing<Fix>(cap: nat, ops: seq<Op<Fix>>)
    requires cap >= 1
    ensures var t := Run(cap, ops); var es := t.buf.entries;
      && |es| <= cap
      && SpacedSlots(es, t.buf.stride, t.buf.nextSeq)
      && (forall i :: 0 <= i < |es| ==> 1 <= es[i].seqNo <= |t.history| && es[i].fix == t.history[es[i].seqNo - 1])
  {
    RunInv(cap, ops);
    var t := Run(cap, ops);
    if t.buf.entries != [] {
      MultiplesSpaced(t.buf.entries, t.buf.stride, t.floor, t.buf.nextSeq);
    }
  }
}
