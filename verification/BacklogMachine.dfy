/** The backlog as the firmware stores it: a fixed array, 32-bit sequence numbers that wrap
    around, and a 32-bit stride. It makes the same decisions as the unbounded backlog as
    long as the stride fits its 32 bits. */
module BacklogMachine {
  import opened Common
  import opened Multiples
  import opened BacklogModel
  import opened BacklogOutage

  const WORD: nat := 0x1_0000_0000

  newtype uint32 = x: int | 0 <= x < 0x1_0000_0000

  datatype MachineSlot<Fix> = MachineSlot(fix: Fix, seqNo: uint32)

  datatype Machine<Fix> = Machine(entries: seq<MachineSlot<Fix>>, nextSeq: uint32, stride: uint32)

  function Wrap(n: nat): uint32 {
    (n % WORD) as uint32
  }

  function MachineRefilter<Fix>(entries: seq<MachineSlot<Fix>>, stride: uint32): seq<MachineSlot<Fix>>
    requires stride > 0
  {
    if entries == [] then []
    else
      var last := entries[|entries| - 1];
      MachineRefilter(entries[..|entries| - 1], stride) + (if last.seqNo % stride == 0 then [last] else [])
  }

  /** `None` is the modulo by zero that follows a stride doubled past 32 bits. */
  function MachineAdd<Fix>(cap: nat, m: Machine<Fix>, fix: Fix): Option<Machine<Fix>>
    requires m.stride > 0 && cap > 0
  {
    var stride := if m.entries == [] then 1 else m.stride;
    var n, next := m.nextSeq, Wrap(m.nextSeq as nat + 1);
    if n % stride != 0 then
      Some(Machine(m.entries, next, stride))
    else if |m.entries| == cap then
      var doubled := Wrap(stride as nat * 2);
      if doubled == 0 then None
      else
        var kept := MachineRefilter(m.entries, doubled);
        Some(Machine(if n % doubled != 0 then kept else kept + [MachineSlot(fix, n)], next, doubled))
    else
      Some(Machine(m.entries + [MachineSlot(fix, n)], next, stride))
  }

  function MachineRemove<Fix>(m: Machine<Fix>): Machine<Fix> {
    if m.entries == [] then m else m.(entries := m.entries[1..])
  }

  ghost predicate Represents<Fix>(m: Machine<Fix>, b: Buffer<Fix>) {
    && |m.entries| == |b.entries|
    && (forall i :: 0 <= i < |m.entries| ==> m.entries[i] == MachineSlot(b.entries[i].fix, Wrap(b.entries[i].seqNo)))
    && m.nextSeq == Wrap(b.nextSeq)
    && m.stride as nat == b.stride
  }

  lemma WordIsPower()
    ensures PowerOfTwo(WORD) && PowerOfTwo(WORD / 2)
  {
    Times16(1);
    Times16(0x10);
    Times16(0x100);
    Times16(0x1000);
    Times16(0x1_0000);
    Times16(0x10_0000);
    Times16(0x100_0000);
    Times16(0x1000_0000);
    assert WORD == 16 * 0x1000_0000;
  }

  lemma Times16(s: nat)
    requires PowerOfTwo(s)
    ensures PowerOfTwo(16 * s) && PowerOfTwo(16 * s / 2)
  {
    assert PowerOfTwo(2 * s) by { assert (2 * s) / 2 == s; }
    assert PowerOfTwo(4 * s) by { assert (4 * s) / 2 == 2 * s; }
    assert PowerOfTwo(8 * s) by { assert (8 * s) / 2 == 4 * s; }
    assert (16 * s) / 2 == 8 * s;
  }

  lemma DividesWord(s: nat)
    requires PowerOfTwo(s) && s <= WORD
    ensures WORD % s == 0
  {
    WordIsPower();
    PowersDivide(s, WORD);
  }

  /** A power-of-two stride divides 2^32, so wrapping never changes a keep or drop decision. */
  lemma WrapKeepsDecision(n: nat, s: nat)
    requires PowerOfTwo(s) && s < WORD
    ensures Wrap(n) % (s as uint32) == 0 <==> n % s == 0
  {
    DividesWord(s);
    var q, r := n / WORD, n % WORD;
    assert n == r + q * WORD;
    assert WORD == (WORD / s) * s;
    assert q * WORD == (q * (WORD / s)) * s;
    ModShift(r, q * (WORD / s), s);
  }

  lemma {:induction false} RefilterAgrees<Fix>(ms: seq<MachineSlot<Fix>>, es: seq<Slot<Fix>>, s: nat)
    requires PowerOfTwo(s) && s < WORD && |ms| == |es|
    requires forall i :: 0 <= i < |ms| ==> ms[i] == MachineSlot(es[i].fix, Wrap(es[i].seqNo))
    ensures var km, ke := MachineRefilter(ms, s as uint32), Refilter(es, s);
      |km| == |ke| && forall i :: 0 <= i < |km| ==> km[i] == MachineSlot(ke[i].fix, Wrap(ke[i].seqNo))
  {
    if ms == [] {
    } else {
      var k := |ms| - 1;
      RefilterAgrees(ms[..k], es[..k], s);
      WrapKeepsDecision(es[k].seqNo, s);
    }
  }

  lemma DoublePower(s: nat)
    requires PowerOfTwo(s)
    ensures PowerOfTwo(2 * s)
    ensures s < WORD ==> (2 * s < WORD <==> Wrap(s * 2) != 0)
    ensures 2 * s < WORD ==> Wrap(s * 2) as nat == 2 * s
  {
    assert (2 * s) / 2 == s;
    if s < WORD <= 2 * s {
      WordIsPower();
      PowersDivide(WORD, 2 * s);
    }
  }

  lemma DoublingRefines<Fix>(cap: nat, m: Machine<Fix>, b: Buffer<Fix>, fix: Fix)
    requires cap >= 1 && PowerOfTwo(b.stride) && Represents(m, b)
    requires |b.entries| == cap && b.nextSeq % b.stride == 0
    ensures MachineAdd(cap, m, fix).Some? <==> Add(cap, b, fix).stride < WORD
    ensures MachineAdd(cap, m, fix).Some? ==> Represents(MachineAdd(cap, m, fix).value, Add(cap, b, fix))
  {
    var s, n := b.stride, b.nextSeq;
    WrapKeepsDecision(n, s);
    WrapNext(n);
    DoublePower(s);
    if 2 * s < WORD {
      RefilterAgrees(m.entries, b.entries, 2 * s);
      WrapKeepsDecision(n, 2 * s);
    }
  }

  /** One addition: the machine agrees with the unbounded backlog exactly when the
      unbounded stride still fits 32 bits, and traps exactly when it does not. */
  lemma AddRefines<Fix>(cap: nat, m: Machine<Fix>, b: Buffer<Fix>, fix: Fix)
    requires cap >= 1 && PowerOfTwo(b.stride) && Represents(m, b)
    ensures MachineAdd(cap, m, fix).Some? <==> Add(cap, b, fix).stride < WORD
    ensures MachineAdd(cap, m, fix).Some? ==> Represents(MachineAdd(cap, m, fix).value, Add(cap, b, fix))
  {
    assert m.entries == [] <==> b.entries == [];
    if b.nextSeq % b.stride == 0 && |b.entries| == cap {
      DoublingRefines(cap, m, b, fix);
    } else {
      WrapKeepsDecision(b.nextSeq, if b.entries == [] then 1 else b.stride);
      WrapNext(b.nextSeq);
    }
  }

  lemma WrapNext(n: nat)
    ensures Wrap(Wrap(n) as nat + 1) == Wrap(n + 1)
  {
    assert n + 1 == (n % WORD + 1) + (n / WORD) * WORD;
    ModShift(n % WORD + 1, n / WORD, WORD);
  }

  /** The guard of the modulo by zero: the buffer is full at the greatest stride that fits 32
      bits, and the next number is a multiple of it. */
  predicate Traps<Fix>(cap: nat, m: Machine<Fix>) {
    m.entries != [] && |m.entries| == cap && m.stride as nat == WORD / 2 && m.nextSeq % m.stride == 0
  }

  lemma TrapsExactly<Fix>(cap: nat, m: Machine<Fix>, fix: Fix)
    requires cap > 0 && PowerOfTwo(m.stride as nat)
    ensures MachineAdd(cap, m, fix).None? <==> Traps(cap, m)
  {
    HalfIsLast(m.stride as nat);
  }

  /** The only 32-bit power of two whose double is 0 in 32 bits. */
  lemma HalfIsLast(s: nat)
    requires PowerOfTwo(s) && s < WORD
    ensures Wrap(s * 2) == 0 <==> s == WORD / 2
  {
    assert s <= WORD / 2 by {
      WordIsPower();
      PowersStep(s, WORD);
    }
    DoubleWraps(s);
  }

  lemma DoubleWraps(s: nat)
    requires 0 < s <= WORD / 2
    ensures Wrap(s * 2) == 0 <==> s == WORD / 2
  {
  }

  function MachineRun<Fix>(cap: nat, ops: seq<Op<Fix>>): (r: Option<Machine<Fix>>)
    requires cap > 0
    ensures r.Some? ==> r.value.stride > 0
  {
    if ops == [] then Some(Machine([], 1, 1))
    else
      var prior := MachineRun(cap, ops[..|ops| - 1]);
      if prior.None? then None
      else match ops[|ops| - 1]
        case AddOp(fix) => MachineAdd(cap, prior.value, fix)
        case RemoveOp => Some(MachineRemove(prior.value))
  }

  /** Every prefix of the run keeps the unbounded stride within 32 bits. */
  ghost predicate StrideFits<Fix>(cap: nat, ops: seq<Op<Fix>>) {
    Run(cap, ops).buf.stride < WORD && (ops == [] || StrideFits(cap, ops[..|ops| - 1]))
  }

  /** Over whole runs: no trap and the same buffer, exactly when the stride always fits. */
  lemma {:induction false} RunRefines<Fix>(cap: nat, ops: seq<Op<Fix>>)
    requires cap >= 1
    ensures MachineRun(cap, ops).Some? <==> StrideFits(cap, ops)
    ensures MachineRun(cap, ops).Some? ==> Represents(MachineRun(cap, ops).value, Run(cap, ops).buf)
  {
    if ops == [] {
    } else {
      var init := ops[..|ops| - 1];
      RunRefines(cap, init);
      RunInv(cap, init);
      if MachineRun(cap, init).Some? {
        var m, t := MachineRun(cap, init).value, Run(cap, init);
        match ops[|ops| - 1]
        case AddOp(fix) => AddRefines(cap, m, t.buf, fix);
        case RemoveOp =>
      }
    }
  }

  /** The strides of a machine are powers of two. */
  lemma MachineStride<Fix>(cap: nat, ops: seq<Op<Fix>>)
    requires cap >= 1 && MachineRun(cap, ops).Some?
    ensures PowerOfTwo(MachineRun(cap, ops).value.stride as nat)
  {
    RunRefines(cap, ops);
    RunInv(cap, ops);
  }

  /** The last operation of `ops` is an addition that meets the guard. */
  ghost predicate TrapsAtLast<Fix>(cap: nat, ops: seq<Op<Fix>>)
    requires cap > 0
  {
    && ops != [] && ops[|ops| - 1].AddOp?
    && MachineRun(cap, ops[..|ops| - 1]).Some? && Traps(cap, MachineRun(cap, ops[..|ops| - 1]).value)
  }

  /** A run fails exactly when one of its additions meets the guard. */
  lemma {:induction false} RunTrapsExactly<Fix>(cap: nat, ops: seq<Op<Fix>>)
    requires cap >= 1
    ensures MachineRun(cap, ops).None? <==> exists k :: 0 <= k <= |ops| && TrapsAtLast(cap, ops[..k])
  {
    if ops == [] {
    } else {
      var init, last := ops[..|ops| - 1], ops[|ops| - 1];
      RunTrapsExactly(cap, init);
      assert ops[..|ops|] == ops;
      assert forall k :: 0 <= k <= |init| ==> init[..k] == ops[..k];
      if MachineRun(cap, init).Some? && last.AddOp? {
        MachineStride(cap, init);
        TrapsExactly(cap, MachineRun(cap, init).value, last.fix);
      }
    }
  }

  ghost predicate ShortEpisode<Fix>(cap: nat, t: Tracked<Fix>) {
    t.buf.nextSeq - t.start <= cap * 0x8000_0000
  }

  /** Episodes of at most `cap * 2^31` additions never overflow the stride. */
  lemma LongEpisodesAreSafe<Fix>(cap: nat, ops: seq<Op<Fix>>)
    requires cap >= 1
    requires forall k :: 0 <= k <= |ops| ==> ShortEpisode(cap, Run(cap, ops[..k]))
    ensures MachineRun(cap, ops).Some?
    ensures Represents(MachineRun(cap, ops).value, Run(cap, ops).buf)
  {
    ShortEpisodesFit(cap, ops);
    RunRefines(cap, ops);
  }

  lemma {:induction false} ShortEpisodesFit<Fix>(cap: nat, ops: seq<Op<Fix>>)
    requires cap >= 1
    requires forall k :: 0 <= k <= |ops| ==> ShortEpisode(cap, Run(cap, ops[..k]))
    ensures StrideFits(cap, ops)
  {
    assert ops[..|ops|] == ops;
    RunInv(cap, ops);
    if ops == [] {
    } else {
      var init := ops[..|ops| - 1];
      forall k | 0 <= k <= |init| ensures ShortEpisode(cap, Run(cap, init[..k])) {
        assert init[..k] == ops[..k];
      }
      ShortEpisodesFit(cap, init);
      RunInv(cap, init);
      if ops[|ops| - 1].AddOp? {
        AddInv(cap, Run(cap, init), ops[|ops| - 1].fix);
        StrideWithin(cap, Run(cap, ops));
      }
    }
  }

  lemma StrideWithin<Fix>(cap: nat, t: Tracked<Fix>)
    requires Inv(cap, t) && t.buf.entries != [] && ShortEpisode(cap, t)
    ensures t.buf.stride < WORD
  {
    if t.buf.stride >= WORD {
      MulOrder(WORD, t.buf.stride, cap);
    }
  }

  /** In an uninterrupted outage the stride fits exactly while at most `cap` multiples of
      2^31 have been seen, so the bound above is tight up to one more multiple. */
  lemma OutageFitsExactly<Fix>(cap: nat, t: Tracked<Fix>, fixes: seq<Fix>)
    requires Inv(cap, t) && t.buf.entries == [] && fixes != []
    ensures Outage(cap, t, fixes).buf.stride < WORD
      <==> |MultiplesIn(WORD / 2, t.buf.nextSeq, t.buf.nextSeq + |fixes|)| <= cap
  {
    ClosedForm(cap, t, fixes);
    FinestFits(cap, Outage(cap, t, fixes).buf.stride, t.buf.nextSeq, t.buf.nextSeq + |fixes|);
  }

  lemma FinestFits(cap: nat, s: nat, lo: nat, hi: nat)
    requires IsFinest(cap, s, lo, hi)
    ensures s < WORD <==> |MultiplesIn(WORD / 2, lo, hi)| <= cap
  {
    WordIsPower();
    if s < WORD {
      PowersStep(s, WORD);
      PowersDivide(s, WORD / 2);
      CoarserIsFewer(WORD / 2, s, lo, hi);
    }
  }

  function Additions<Fix>(fixes: seq<Fix>): seq<Op<Fix>> {
    seq(|fixes|, i requires 0 <= i < |fixes| => AddOp(fixes[i]))
  }

  lemma {:induction false} AdditionsAreOutage<Fix>(cap: nat, fixes: seq<Fix>)
    ensures Run(cap, Additions(fixes)) == Outage(cap, Initial(), fixes)
  {
    if fixes == [] {
    } else {
      var init := fixes[..|fixes| - 1];
      assert Additions(fixes)[..|fixes| - 1] == Additions(init);
      AdditionsAreOutage(cap, init);
    }
  }

  /** The first `n` numbers have at most `cap` multiples of `s` exactly below the next one. */
  lemma MultiplesSeen(cap: nat, s: nat, n: nat)
    requires s > 1
    ensures |MultiplesIn(s, 1, 1 + n)| <= cap <==> n < (cap + 1) * s
  {
    CountMultiples(s, 1, 1 + n);
    CountBelowBounds(s, 1 + n);
    var c := CountBelow(s, 1 + n);
    assert CountBelow(s, 1) == 1;
    if c <= cap + 1 {
      MulOrder(c, cap + 1, s);
    } else {
      MulOrder(cap + 2, c, s);
      assert (cap + 2) * s == (cap + 1) * s + s;
    }
  }

  lemma {:induction false} OutageStrideFits<Fix>(cap: nat, fixes: seq<Fix>)
    requires cap >= 1
    ensures StrideFits(cap, Additions(fixes)) <==> |fixes| < (cap + 1) * (WORD / 2)
  {
    AdditionsAreOutage(cap, fixes);
    if fixes == [] {
      MulOrder(1, cap + 1, WORD / 2);
    } else {
      var init := fixes[..|fixes| - 1];
      assert Additions(fixes)[..|fixes| - 1] == Additions(init);
      OutageStrideFits(cap, init);
      OutageFitsExactly(cap, Initial<Fix>(), fixes);
      MultiplesSeen(cap, WORD / 2, |fixes|);
    }
  }

  /** From power-on, an uninterrupted outage meets the modulo by zero exactly when it reaches
      `(cap + 1) * 2^31` fixes. */
  lemma OutageTrapsExactly<Fix>(cap: nat, fixes: seq<Fix>)
    requires cap >= 1
    ensures MachineRun(cap, Additions(fixes)).None? <==> |fixes| >= (cap + 1) * (WORD / 2)
  {
    RunRefines(cap, Additions(fixes));
    OutageStrideFits(cap, fixes);
  }

  /** Such a run: one entry, 2^32 fixes. */
  lemma TrapHappens<Fix>(fix: Fix)
    ensures MachineRun(1, Additions(seq(WORD, _ => fix))).None?
  {
    OutageTrapsExactly(1, seq(WORD, _ => fix));
  }

  /** What an addition needs to know: where it lands stays in bounds. */
  lemma AddTracks<Fix>(cap: nat, m: Machine<Fix>, t: Tracked<Fix>, fix: Fix)
    requires Inv(cap, t) && Represents(m, t.buf)
    ensures m.stride > 0 && Inv(cap, Apply(cap, t, AddOp(fix)))
    ensures MachineAdd(cap, m, fix).None? <==> Traps(cap, m)
    ensures MachineAdd(cap, m, fix).Some? ==>
      var m' := MachineAdd(cap, m, fix).value;
      m'.stride > 0 && 1 <= |m'.entries| <= cap && Represents(m', Apply(cap, t, AddOp(fix)).buf)
  {
    AddInv(cap, t, fix);
    AddRefines(cap, m, t.buf, fix);
    TrapsExactly(cap, m, fix);
  }

  class Backlog<Fix(0)> {
    const cap: nat
    const entries: array<MachineSlot<Fix>>
    var count: nat
    var nextSeq: uint32
    var stride: uint32
    ghost var tracked: Tracked<Fix>  // the unbounded backlog this one stands for

    ghost predicate InBounds()
      reads this
    {
      cap >= 1 && entries.Length == cap && count <= cap && stride > 0
    }

    ghost function State(): Machine<Fix>
      reads this, entries
      requires InBounds()
    {
      Machine(entries[..count], nextSeq, stride)
    }

    ghost predicate Valid()
      reads this, entries
    {
      InBounds() && Inv(cap, tracked) && Represents(State(), tracked.buf)
    }

    constructor (cap: nat)
      requires cap >= 1
      ensures Valid() && this.cap == cap && fresh(entries)
      ensures State() == Machine([], 1, 1) && tracked == Initial()
    {
      this.cap := cap;
      entries := new MachineSlot<Fix>[cap];
      count, nextSeq, stride := 0, 1, 1;
      tracked := Initial();
    }

    /** `ok` is false only at the modulo by zero of an overflowed stride. */
    method Add(fix: Fix) returns (ok: bool)
      requires Valid()
      modifies this, entries
      ensures !ok <==> Traps(cap, old(State()))
      ensures ok <==> old(MachineAdd(cap, State(), fix)).Some?
      ensures ok ==> Valid() && State() == old(MachineAdd(cap, State(), fix)).value
      ensures ok ==> tracked == Apply(cap, old(tracked), AddOp(fix)) && 1 <= count <= cap
    {
      AddTracks(cap, State(), tracked, fix);
      ok := AddSlot(fix);
      tracked := Apply(cap, tracked, AddOp(fix));
    }

    method AddSlot(fix: Fix) returns (ok: bool)
      requires InBounds()
      requires MachineAdd(cap, State(), fix).Some? ==> |MachineAdd(cap, State(), fix).value.entries| <= cap
      modifies `count, `nextSeq, `stride, entries
      ensures ok <==> old(MachineAdd(cap, State(), fix)).Some?
      ensures ok ==> InBounds() && State() == old(MachineAdd(cap, State(), fix)).value
    {
      if count == 0 {
        stride := 1;
      }
      var n := nextSeq;
      nextSeq := Wrap(nextSeq as nat + 1);
      if n % stride != 0 {
        return true;
      }
      if count == cap {
        stride := Wrap(stride as nat * 2);
        if stride == 0 {
          return false;
        }
        RefilterInPlace();
        if n % stride != 0 {
          return true;
        }
      }
      entries[count] := MachineSlot(fix, n);
      count := count + 1;
      return true;
    }

    method RefilterInPlace()
      requires InBounds()
      modifies this`count, entries
      ensures InBounds()
      ensures entries[..count] == MachineRefilter(old(entries[..count]), stride)
    {
      var write := 0;
      for i := 0 to count
        invariant write <= i && count == old(count) && InBounds()
        invariant entries[..write] == MachineRefilter(old(entries[..count])[..i], stride)
        invariant forall j :: i <= j < count ==> entries[j] == old(entries[j])
      {
        ghost var was := old(entries[..count]);
        assert was[..i + 1][..i] == was[..i];
        assert entries[i] == was[i];
        if entries[i].seqNo % stride == 0 {
          entries[write] := entries[i];
          write := write + 1;
        }
      }
      assert old(entries[..count])[..count] == old(entries[..count]);
      count := write;
    }

    method Count() returns (n: nat)
      requires Valid()
      ensures n == |State().entries|
    {
      n := count;
    }

    method PeekOldest() returns (out: Option<Fix>)
      requires Valid()
      ensures out == if State().entries == [] then None else Some(State().entries[0].fix)
    {
      if count == 0 {
        return None;
      }
      return Some(entries[0].fix);
    }

    method RemoveOldest()
      requires Valid()
      modifies this, entries
      ensures Valid() && State() == MachineRemove(old(State()))
      ensures tracked == Apply(cap, old(tracked), RemoveOp)
    {
      RemoveInv(cap, tracked);
      tracked := Apply(cap, tracked, RemoveOp);
      if count == 0 {
        return;
      }
      forall i | 0 <= i < count - 1 {
        entries[i] := entries[i + 1];
      }
      count := count - 1;
    }
  }
}
