/** An uninterrupted outage: fixes are added to an empty backlog and nothing is removed.
    The state is then a closed form of the first and last sequence number. */
module BacklogOutage {
  import opened Multiples
  import opened BacklogModel

  function Outage<Fix>(cap: nat, t: Tracked<Fix>, fixes: seq<Fix>): (r: Tracked<Fix>)
    requires t.buf.stride > 0
    ensures r.buf.stride > 0
  {
    if fixes == [] then t
    else Apply(cap, Outage(cap, t, fixes[..|fixes| - 1]), AddOp(fixes[|fixes| - 1]))
  }

  /** `s` is the finest power-of-two stride with at most `cap` multiples in the range. */
  ghost predicate IsFinest(cap: nat, s: nat, lo: nat, hi: nat) {
    && PowerOfTwo(s)
    && |MultiplesIn(s, lo, hi)| <= cap
    && (forall finer: nat :: PowerOfTwo(finer) && finer < s ==> |MultiplesIn(finer, lo, hi)| > cap)
  }

  /** The choice made offline, with the whole range known: double until it fits. */
  function OfflineStride(cap: nat, s: nat, lo: nat, hi: nat): nat
    requires cap >= 1 && s > 0 && lo <= hi
    decreases |MultiplesIn(s, lo, hi)|
  {
    if |MultiplesIn(s, lo, hi)| <= cap then s
    else
      HalvedCount(s, lo, hi);
      OfflineStride(cap, 2 * s, lo, hi)
  }

  /** The slots an offline choice of stride `s` keeps of a range of `history`. */
  function OfflineSlots<Fix>(history: seq<Fix>, numbers: seq<nat>): seq<Slot<Fix>>
    requires forall n :: n in numbers ==> 1 <= n <= |history|
  {
    seq(|numbers|, i requires 0 <= i < |numbers| =>
      assert numbers[i] in numbers;
      Slot(history[numbers[i] - 1], numbers[i]))
  }

  lemma FinestIsUnique(cap: nat, s: nat, s': nat, lo: nat, hi: nat)
    requires IsFinest(cap, s, lo, hi) && IsFinest(cap, s', lo, hi)
    ensures s == s'
  {
    assert !(s < s') && !(s' < s);
  }

  lemma {:induction false} PowersStep(finer: nat, s: nat)
    requires PowerOfTwo(finer) && PowerOfTwo(s) && finer < s
    ensures s % 2 == 0 && PowerOfTwo(s / 2) && finer <= s / 2
  {
    if finer <= 1 {
    } else {
      PowersStep(finer / 2, s / 2);
    }
  }

  /** If the next finer stride does not fit, no finer stride does. */
  lemma NoFinerFits(cap: nat, s: nat, lo: nat, hi: nat)
    requires PowerOfTwo(s) && |MultiplesIn(s, lo, hi)| <= cap
    requires s > 1 ==> |MultiplesIn(s / 2, lo, hi)| > cap
    ensures IsFinest(cap, s, lo, hi)
  {
    forall finer: nat | PowerOfTwo(finer) && finer < s ensures |MultiplesIn(finer, lo, hi)| > cap {
      PowersStep(finer, s);
      PowersDivide(finer, s / 2);
      CoarserIsFewer(s / 2, finer, lo, hi);
    }
  }

  lemma {:induction false} OfflineIsFinest(cap: nat, s: nat, lo: nat, hi: nat)
    requires cap >= 1 && lo <= hi && PowerOfTwo(s)
    requires s > 1 ==> |MultiplesIn(s / 2, lo, hi)| > cap
    ensures IsFinest(cap, OfflineStride(cap, s, lo, hi), lo, hi)
    decreases |MultiplesIn(s, lo, hi)|
  {
    if |MultiplesIn(s, lo, hi)| <= cap {
      NoFinerFits(cap, s, lo, hi);
    } else {
      HalvedCount(s, lo, hi);
      assert (2 * s) / 2 == s;
      OfflineIsFinest(cap, 2 * s, lo, hi);
    }
  }

  lemma {:induction false} OutageInv<Fix>(cap: nat, t: Tracked<Fix>, fixes: seq<Fix>)
    requires Inv(cap, t) && t.buf.entries == [] && fixes != []
    ensures var r := Outage(cap, t, fixes);
      && Inv(cap, r) && r.buf.entries != []
      && r.start == r.floor == t.buf.nextSeq
      && r.buf.nextSeq == t.buf.nextSeq + |fixes|
      && r.history == t.history + fixes
  {
    var k := |fixes| - 1;
    var p := Outage(cap, t, fixes[..k]);
    assert t.history + fixes == t.history + fixes[..k] + [fixes[k]];
    if k == 0 {
    } else {
      OutageInv(cap, t, fixes[..k]);
    }
    AddInv(cap, p, fixes[k]);
  }

  /** After every addition of an outage the stride is the finest power of two that fits
      the fixes seen so far, the one an offline choice makes, and the buffer is exactly
      the fixes numbered by its multiples, in order. */
  lemma ClosedForm<Fix>(cap: nat, t: Tracked<Fix>, fixes: seq<Fix>)
    requires Inv(cap, t) && t.buf.entries == [] && fixes != []
    ensures var r, lo, hi := Outage(cap, t, fixes), t.buf.nextSeq, t.buf.nextSeq + |fixes|;
      var s := OfflineStride(cap, 1, lo, hi);
      && IsFinest(cap, s, lo, hi)
      && (forall n :: n in MultiplesIn(s, lo, hi) ==> 1 <= n <= |t.history + fixes|)
      && r.buf == Buffer(OfflineSlots(t.history + fixes, MultiplesIn(s, lo, hi)), hi, s)
  {
    var r, lo, hi := Outage(cap, t, fixes), t.buf.nextSeq, t.buf.nextSeq + |fixes|;
    OutageInv(cap, t, fixes);
    OfflineIsFinest(cap, 1, lo, hi);
    assert |r.buf.entries| == |Numbers(r.buf.entries)|;
    NoFinerFits(cap, r.buf.stride, lo, hi);
    FinestIsUnique(cap, r.buf.stride, OfflineStride(cap, 1, lo, hi), lo, hi);
    MultiplesAre(r.buf.stride, lo, hi);
    SlotsFromNumbers(r.buf.entries, r.history, MultiplesIn(r.buf.stride, lo, hi));
  }

  lemma SlotsFromNumbers<Fix>(es: seq<Slot<Fix>>, history: seq<Fix>, numbers: seq<nat>)
    requires Numbers(es) == numbers
    requires forall n :: n in numbers ==> 1 <= n <= |history|
    requires forall s :: s in es ==> 1 <= s.seqNo <= |history| && s.fix == history[s.seqNo - 1]
    ensures es == OfflineSlots(history, numbers)
  {
    var os := OfflineSlots(history, numbers);
    assert |es| == |numbers| == |os|;
    forall i | 0 <= i < |es| ensures es[i] == os[i] {
      assert numbers[i] == es[i].seqNo;
      assert es[i] in es;
    }
  }

  lemma {:induction false} NearMultiple(stride: nat, lo: nat, hi: nat, x: nat) returns (m: nat)
    requires stride > 0 && lo <= x < hi && MultiplesIn(stride, lo, hi) != []
    ensures m in MultiplesIn(stride, lo, hi) && m < x + stride && x < m + stride
  {
    var ms := MultiplesIn(stride, lo, hi);
    if x == hi - 1 {
      EvenlySpaced(stride, lo, hi);
      m := ms[|ms| - 1];
    } else if MultiplesIn(stride, lo, hi - 1) != [] {
      m := NearMultiple(stride, lo, hi - 1, x);
    } else {
      NoMultiple(stride, lo, hi - 1);
      m := hi - 1;
      assert ms == [hi - 1];
    }
  }

  /** Every fix of an outage, kept or dropped, is less than a stride away from a kept one,
      and the stride is bounded by the length of the outage. */
  lemma Coverage<Fix>(cap: nat, t: Tracked<Fix>, fixes: seq<Fix>, x: nat)
    requires Inv(cap, t) && t.buf.entries == []
    requires t.buf.nextSeq <= x < t.buf.nextSeq + |fixes|
    ensures var b := Outage(cap, t, fixes).buf;
      && (exists s :: s in b.entries && s.seqNo < x + b.stride && x < s.seqNo + b.stride)
      && (b.stride == 1 || b.stride * cap < 2 * |fixes|)
  {
    OutageInv(cap, t, fixes);
    var r := Outage(cap, t, fixes);
    var m := NearMultiple(r.buf.stride, r.floor, r.buf.nextSeq, x);
    InNumbers(r.buf.entries, m);
  }

  /** In every reachable state, whatever was removed, every fix from the floor on is less than
      a stride away from a buffered one. */
  lemma CoverageFromFloor<Fix>(cap: nat, ops: seq<Op<Fix>>, x: nat)
    requires cap >= 1
    ensures var t := BacklogModel.Run(cap, ops); var b := t.buf;
      b.entries != [] && t.floor <= x < b.nextSeq ==>
        exists s :: s in b.entries && s.seqNo < x + b.stride && x < s.seqNo + b.stride
  {
    RunInv(cap, ops);
    var t := BacklogModel.Run(cap, ops);
    if t.buf.entries != [] && t.floor <= x < t.buf.nextSeq {
      assert |t.buf.entries| == |Numbers(t.buf.entries)|;
      var m := NearMultiple(t.buf.stride, t.floor, t.buf.nextSeq, x);
      InNumbers(t.buf.entries, m);
    }
  }

  /** The numbers from `start` on that come before the first kept one. */
  function Head<Fix>(b: Buffer<Fix>, start: nat): int {
    if b.entries == [] then 0 else b.entries[0].seqNo - start
  }

  /** The uncovered head of an outage is short: times the capacity it is below twice the
      number of fixes. */
  lemma HeadBound<Fix>(cap: nat, t: Tracked<Fix>, fixes: seq<Fix>)
    requires Inv(cap, t) && t.buf.entries == [] && fixes != []
    ensures var b := Outage(cap, t, fixes).buf;
      b.entries != [] && 0 <= Head(b, t.buf.nextSeq) && Head(b, t.buf.nextSeq) * cap < 2 * |fixes|
  {
    OutageInv(cap, t, fixes);
    HeadOf(cap, Outage(cap, t, fixes), t.buf.nextSeq, |fixes|);
  }

  /** The same for any episode of `n` additions from whose start nothing was removed. */
  lemma HeadOf<Fix>(cap: nat, t: Tracked<Fix>, start: nat, n: nat)
    requires Inv(cap, t) && t.buf.entries != [] && t.floor == t.start == start && n > 0 && t.buf.nextSeq == start + n
    ensures 0 <= Head(t.buf, start) && Head(t.buf, start) * cap < 2 * n
  {
    HeadWithinStride(t.buf.entries, t.buf.stride, t.floor, t.buf.nextSeq);
    HeadTimes(cap, Head(t.buf, start), t.buf.stride, n);
  }

  lemma HeadWithinStride<Fix>(es: seq<Slot<Fix>>, stride: nat, lo: nat, hi: nat)
    requires stride > 0 && es != [] && Numbers(es) == MultiplesIn(stride, lo, hi)
    ensures lo <= es[0].seqNo < lo + stride
  {
    EvenlySpaced(stride, lo, hi);
    assert Numbers(es)[0] == es[0].seqNo;
  }

  lemma HeadTimes(cap: nat, head: nat, stride: nat, n: nat)
    requires head < stride && n > 0 && (stride == 1 || stride * cap < 2 * n)
    ensures 0 <= head * cap < 2 * n
  {
    MulOrder(0, head, cap);
    MulOrder(head, stride, cap);
  }

  /** Once the stride has doubled, at least half of the capacity stays in use. */
  lemma HalfFull<Fix>(cap: nat, t: Tracked<Fix>, fixes: seq<Fix>)
    requires Inv(cap, t) && t.buf.entries == [] && fixes != []
    ensures var b := Outage(cap, t, fixes).buf;
      if b.stride == 1 then |b.entries| == |fixes| else (cap + 1) / 2 <= |b.entries| <= cap
  {
    OutageInv(cap, t, fixes);
    var r := Outage(cap, t, fixes);
    assert |r.buf.entries| == |Numbers(r.buf.entries)|;
    if r.buf.stride == 1 {
      EveryNumber(r.floor, r.buf.nextSeq);
    } else {
      HalvedCount(r.buf.stride / 2, r.floor, r.buf.nextSeq);
      assert 2 * (r.buf.stride / 2) == r.buf.stride;
    }
  }

  lemma {:induction false} EveryNumber(lo: nat, hi: nat)
    requires lo <= hi
    ensures |MultiplesIn(1, lo, hi)| == hi - lo
  {
    if lo >= hi {
    } else {
      EveryNumber(lo, hi - 1);
    }
  }
}
