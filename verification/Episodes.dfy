/** What an episode, from an empty buffer to the next, leaves of its fixes: removals and
    thinning may alternate in any way. */
module Episodes {
  import opened Multiples
  import opened BacklogModel
  import Protocol = Delivery

  /** A number of `kept`, from `start` on, is less than a stride away from `x`. */
  ghost predicate Near(kept: set<nat>, stride: nat, start: nat, x: nat) {
    exists y :: y in kept && start <= y < x + stride && x < y + stride
  }

  ghost predicate Covered(kept: set<nat>, stride: nat, start: nat, next: nat) {
    forall x :: start <= x < next ==> Near(kept, stride, start, x)
  }

  /** The buffered numbers are the multiples of the stride from the floor on. */
  lemma BufferedExactly<Fix>(cap: nat, t: Tracked<Fix>, n: nat)
    requires Inv(cap, t) && t.buf.entries != []
    ensures n in Protocol.Buffered(t.buf) <==> t.floor <= n < t.buf.nextSeq && n % t.buf.stride == 0
  {
    MultiplesAre(t.buf.stride, t.floor, t.buf.nextSeq);
    InNumbers(t.buf.entries, n);
    Protocol.BufferedAre(t.buf);
  }

  /** The last fix added is less than a stride from the last one kept. */
  lemma LatestIsNear<Fix>(cap: nat, t: Tracked<Fix>, kept: set<nat>)
    requires Inv(cap, t) && t.buf.entries != [] && Protocol.Buffered(t.buf) <= kept
    requires t.start < t.buf.nextSeq
    ensures Near(kept, t.buf.stride, t.start, t.buf.nextSeq - 1)
  {
    var es := t.buf.entries;
    MultiplesSpaced(es, t.buf.stride, t.floor, t.buf.nextSeq);
    var last := es[|es| - 1].seqNo;
    assert last in Protocol.Buffered(t.buf);
    BufferedExactly(cap, t, last);
  }

  /** An odd multiple of `s` is one `s` short of a multiple of `2 * s`. */
  lemma OddMultiple(y: nat, s: nat)
    requires s > 0 && y % s == 0 && y % (2 * s) != 0
    ensures (y + s) % (2 * s) == 0
  {
    var c := y / s;
    assert y == c * s;
    EvenMultiple(c, s);
    EvenMultiple(c + 1, s);
    assert (c + 1) * s == y + s;
  }

  lemma NextMultipleAfter(y: nat, n: nat, s: nat)
    requires s > 0 && y % s == 0 && n % s == 0 && y < n
    ensures y + s <= n
  {
    var c, d := y / s, n / s;
    assert y == c * s && n == d * s;
    if d <= c {
      MulOrder(d, c, s);
    } else {
      MulOrder(c + 1, d, s);
      assert (c + 1) * s == c * s + s;
    }
  }

  /** `y` is kept and less than a stride away from `x`. */
  ghost predicate Stands(kept: set<nat>, stride: nat, start: nat, x: nat, y: nat) {
    y in kept && start <= y < x + stride && x < y + stride
  }

  /** A buffered number that an addition thins leaves the next multiple of its stride. */
  lemma NextIsKept<Fix>(cap: nat, t: Tracked<Fix>, fix: Fix, y: nat)
    requires Inv(cap, t) && t.buf.entries != [] && y in Protocol.Buffered(t.buf)
    ensures var t', s := Apply(cap, t, AddOp(fix)), t.buf.stride;
      && t.start <= y && t'.start == t.start && s <= t'.buf.stride
      && (y in Protocol.Buffered(t'.buf) || (t'.buf.stride == 2 * s && y + s in Protocol.Buffered(t'.buf)))
  {
    var t', s, n := Apply(cap, t, AddOp(fix)), t.buf.stride, t.buf.nextSeq;
    AddInv(cap, t, fix);
    BufferedExactly(cap, t, y);
    BufferedExactly(cap, t', y);
    if y % t'.buf.stride != 0 {
      OddMultiple(y, s);
      NextMultipleAfter(y, n, s);
      BufferedExactly(cap, t', y + s);
    }
  }

  /** When the stride doubles, whatever stood for `x` still does, or the next multiple does. */
  lemma StaysNear<Fix>(cap: nat, t: Tracked<Fix>, fix: Fix, d: set<nat>, x: nat)
    requires Inv(cap, t) && t.buf.entries != [] && x < t.buf.nextSeq
    requires Near(Protocol.Buffered(t.buf) + d, t.buf.stride, t.start, x)
    ensures var t' := Apply(cap, t, AddOp(fix));
      Near(Protocol.Buffered(t'.buf) + d, t'.buf.stride, t'.start, x)
  {
    var t', s := Apply(cap, t, AddOp(fix)), t.buf.stride;
    var y :| y in Protocol.Buffered(t.buf) + d && t.start <= y < x + s && x < y + s;
    if y in Protocol.Buffered(t.buf) {
      NextIsKept(cap, t, fix, y);
    }
    var y' := if y in Protocol.Buffered(t'.buf) + d then y else y + s;
    assert Stands(Protocol.Buffered(t'.buf) + d, t'.buf.stride, t'.start, x, y');
  }

  lemma AddCovers<Fix>(cap: nat, t: Tracked<Fix>, fix: Fix, d: set<nat>)
    requires Inv(cap, t)
    requires t.buf.entries != [] ==> Covered(Protocol.Buffered(t.buf) + d, t.buf.stride, t.start, t.buf.nextSeq)
    ensures var t' := Apply(cap, t, AddOp(fix));
      Covered(Protocol.Buffered(t'.buf) + d, t'.buf.stride, t'.start, t'.buf.nextSeq)
  {
    var t' := Apply(cap, t, AddOp(fix));
    AddInv(cap, t, fix);
    LatestIsNear(cap, t', Protocol.Buffered(t'.buf) + d);
    forall x | t'.start <= x < t'.buf.nextSeq ensures Near(Protocol.Buffered(t'.buf) + d, t'.buf.stride, t'.start, x) {
      if x < t.buf.nextSeq {
        StaysNear(cap, t, fix, d, x);
      }
    }
  }

  /** In an episode every number is near a buffered or a delivered one, and no thinned one is
      a multiple of the stride. */
  ghost predicate EpisodeInv<Fix>(w: Protocol.World<Fix>) {
    w.t.buf.entries != [] ==>
      && Covered(Protocol.Buffered(w.t.buf) + Protocol.Elements(w.delivered), w.t.buf.stride, w.t.start, w.t.buf.nextSeq)
      && ThinnedAreOff(w.thinned, w.t.start, w.t.buf.stride)
  }

  ghost predicate ThinnedAreOff(thinned: set<nat>, start: nat, stride: nat) {
    stride > 0 && forall n :: n in thinned && start <= n ==> n % stride != 0
  }

  lemma AddThins<Fix>(cap: nat, w: Protocol.World<Fix>, fix: Fix)
    requires Inv(cap, w.t) && Protocol.Conserved(w) && w.pc == Protocol.WaitForGnss
    requires w.t.buf.entries != [] ==> ThinnedAreOff(w.thinned, w.t.start, w.t.buf.stride)
    ensures var w' := Protocol.Effect(cap, w, Protocol.FixAcquired(fix));
      ThinnedAreOff(w'.thinned, w'.t.start, w'.t.buf.stride)
  {
    var w' := Protocol.Effect(cap, w, Protocol.FixAcquired(fix));
    AddInv(cap, w.t, fix);
    forall n | n in w'.thinned && w'.t.start <= n ensures n % w'.t.buf.stride != 0 {
      if n in w.thinned {
        OldThinned(cap, w, fix, n);
      } else {
        BufferedExactly(cap, w'.t, n);
        if w.t.buf.entries != [] {
          BufferedExactly(cap, w.t, n);
        }
      }
    }
  }

  lemma OldThinned<Fix>(cap: nat, w: Protocol.World<Fix>, fix: Fix, n: nat)
    requires Inv(cap, w.t) && Protocol.Conserved(w) && n in w.thinned
    requires w.t.buf.entries != [] ==> ThinnedAreOff(w.thinned, w.t.start, w.t.buf.stride)
    ensures var t' := Apply(cap, w.t, AddOp(fix)); t'.start <= n ==> n % t'.buf.stride != 0
  {
    assert n in Protocol.Buffered(w.t.buf) + w.thinned + Protocol.Elements(w.delivered);
    if w.t.buf.entries != [] && w.t.start <= n {
      NotDoubleMultiple(n, w.t.buf.stride);
    }
  }

  lemma EpisodeStep<Fix>(cap: nat, w: Protocol.World<Fix>, a: Protocol.Action<Fix>)
    requires Inv(cap, w.t) && Protocol.Conserved(w) && Protocol.Enabled(w, a) && EpisodeInv(w)
    ensures EpisodeInv(Protocol.Effect(cap, w, a))
  {
    match a
    case FixAcquired(fix) =>
      AddCovers(cap, w.t, fix, Protocol.Elements(w.delivered));
      AddThins(cap, w, fix);
    case Remove =>
      var w', head := Protocol.Effect(cap, w, a), w.t.buf.entries[0].seqNo;
      Protocol.HeadLeaves(cap, w.t);
      Protocol.ElementsAppend(w.delivered, head);
      assert Protocol.Buffered(w'.t.buf) + Protocol.Elements(w'.delivered)
          == Protocol.Buffered(w.t.buf) + Protocol.Elements(w.delivered);
    case _ =>
  }

  lemma {:induction false} EpisodeKeeps<Fix>(cap: nat, acts: seq<Protocol.Action<Fix>>)
    requires cap >= 1
    ensures EpisodeInv(Protocol.Run(cap, acts))
  {
    if acts == [] {
    } else {
      var init, a := acts[..|acts| - 1], acts[|acts| - 1];
      EpisodeKeeps(cap, init);
      Protocol.RunKeeps(cap, init);
      if Protocol.Enabled(Protocol.Run(cap, init), a) {
        EpisodeStep(cap, Protocol.Run(cap, init), a);
      }
    }
  }

  /** Over a whole episode, whatever was delivered and thinned in between: every fix added is
      less than a stride from one still buffered or already delivered. */
  lemma EpisodeCoverage<Fix>(cap: nat, acts: seq<Protocol.Action<Fix>>, x: nat)
    requires cap >= 1
    ensures var w := Protocol.Run(cap, acts); var b := w.t.buf;
      b.entries != [] && w.t.start <= x < b.nextSeq ==>
        exists y :: (y in Protocol.Buffered(b) || y in w.delivered) && w.t.start <= y < x + b.stride && x < y + b.stride
  {
    EpisodeKeeps(cap, acts);
    var w := Protocol.Run(cap, acts); var b := w.t.buf;
    if b.entries != [] && w.t.start <= x < b.nextSeq {
      var kept := Protocol.Buffered(b) + Protocol.Elements(w.delivered);
      assert Near(kept, b.stride, w.t.start, x);
      var y :| y in kept && w.t.start <= y < x + b.stride && x < y + b.stride;
      assert y in Protocol.Buffered(b) || y in w.delivered;
    }
  }

  /** Over a whole episode: what is neither buffered nor delivered is exactly what the stride
      does not divide, and what is buffered is exactly the undelivered rest. */
  lemma ThinnedByStride<Fix>(cap: nat, acts: seq<Protocol.Action<Fix>>, n: nat)
    requires cap >= 1
    ensures var w := Protocol.Run(cap, acts); var b := w.t.buf;
      b.entries != [] && w.t.start <= n < b.nextSeq ==>
        && (n in w.thinned <==> n % b.stride != 0 && n !in w.delivered)
        && (n in Protocol.Buffered(b) <==> n % b.stride == 0 && n !in w.delivered)
  {
    EpisodeKeeps(cap, acts);
    Protocol.RunKeeps(cap, acts);
    var w := Protocol.Run(cap, acts);
    if w.t.buf.entries != [] && w.t.start <= n < w.t.buf.nextSeq {
      Protocol.OnePlace(w, n);
      BufferedExactly(cap, w.t, n);
    }
  }
}
