/** The batching database writer: one worker thread takes frames from a bounded queue and
    writes them in batches, other threads submit frames and clear the database. A flush and a
    clear hold the same lock, so each is one atomic step; everything else interleaves. */
module InfluxWriter {

  const MAX_BATCH: nat := 100
  const FLUSH_SIZE: nat := 4
  const ATTEMPTS: nat := 3

  datatype Item<Frame> = Item(frame: Frame, timestamp: int)

  /** What the database saw: a batch written, or its data deleted; `cutoff` is the clock read
      right after the deletion. */
  datatype Entry<Frame> = Written(items: seq<Item<Frame>>) | Cleared(cutoff: int)

  /** What became of an accepted frame. */
  datatype Fate = Stored | Reported | Discarded

  datatype Resolved<Frame> = Resolved(item: Item<Frame>, fate: Fate)

  /** Where the worker stands in its loop. */
  datatype Pc = LoopTest | GetItem | Decide | Filling | BeforeFlush | Exited

  datatype Writer<Frame> = Writer(
    pc: Pc, queue: seq<Item<Frame>>, batch: seq<Item<Frame>>, clearedBefore: int, stopping: bool,
    accepted: seq<Item<Frame>>, resolved: seq<Resolved<Frame>>, log: seq<Entry<Frame>>, exitMark: nat)

  datatype ClearOutcome = Done | DeletedThenFailed | NothingDeleted

  /** `firstOk` is the attempt at which the store accepts the batch, if below `ATTEMPTS`; an
      attempt either takes effect or fails. `due` says whether the flush interval is over. */
  datatype Action<Frame> =
    | Submit(item: Item<Frame>) | Stop | Clear(outcome: ClearOutcome, now: int)
    | TestLoop | Get | DecideFlush(due: bool) | FillOne | Flush(firstOk: nat)

  function Init<Frame>(): Writer<Frame> {
    Writer(LoopTest, [], [], 0, false, [], [], [], 0)
  }

  predicate Enabled<Frame>(w: Writer<Frame>, a: Action<Frame>) {
    match a
    case Submit(_) => true
    case Stop => true
    case Clear(_, _) => true
    case TestLoop => w.pc == LoopTest
    case Get => w.pc == GetItem
    case DecideFlush(_) => w.pc == Decide
    case FillOne => w.pc == Filling
    case Flush(_) => w.pc == BeforeFlush
  }

  /** The frames of a batch that the last clear does not cover. */
  function Fresh<Frame>(batch: seq<Item<Frame>>, cutoff: int): seq<Item<Frame>> {
    if batch == [] then []
    else
      var last := batch[|batch| - 1];
      Fresh(batch[..|batch| - 1], cutoff) + (if last.timestamp > cutoff then [last] else [])
  }

  /** The fates of a flushed batch. */
  function Fates<Frame>(batch: seq<Item<Frame>>, cutoff: int, ok: bool): seq<Resolved<Frame>> {
    seq(|batch|, i requires 0 <= i < |batch| =>
      Resolved(batch[i], if batch[i].timestamp <= cutoff then Discarded else if ok then Stored else Reported))
  }

  function TakeFirst<Frame>(w: Writer<Frame>): Writer<Frame>
    requires w.queue != []
  {
    w.(batch := w.batch + [w.queue[0]], queue := w.queue[1..])
  }

  function Effect<Frame>(size: nat, w: Writer<Frame>, a: Action<Frame>): Writer<Frame>
    requires Enabled(w, a)
  {
    match a
    case Submit(item) =>
      if size == 0 || |w.queue| < size then w.(queue := w.queue + [item], accepted := w.accepted + [item]) else w
    case Stop => w.(stopping := true)
    case Clear(outcome, now) =>
      if outcome.NothingDeleted? then w else w.(clearedBefore := now, log := w.log + [Cleared(now)])
    case TestLoop =>
      if !w.stopping || w.batch != [] || w.queue != [] then w.(pc := GetItem)
      else w.(pc := Exited, exitMark := |w.accepted|)
    case Get => (if w.queue == [] then w else TakeFirst(w)).(pc := Decide)
    case DecideFlush(due) =>
      w.(pc := if w.batch != [] && (|w.batch| >= FLUSH_SIZE || due || w.stopping) then Filling else LoopTest)
    case FillOne =>
      if |w.batch| < MAX_BATCH && w.queue != [] then TakeFirst(w) else w.(pc := BeforeFlush)
    case Flush(firstOk) =>
      var fresh', ok := Fresh(w.batch, w.clearedBefore), firstOk < ATTEMPTS;
      w.(pc := LoopTest, batch := [],
         resolved := w.resolved + Fates(w.batch, w.clearedBefore, ok),
         log := if fresh' != [] && ok then w.log + [Written(fresh')] else w.log)
  }

  function Run<Frame>(size: nat, acts: seq<Action<Frame>>): Writer<Frame> {
    if acts == [] then Init()
    else
      var w, a := Run(size, acts[..|acts| - 1]), acts[|acts| - 1];
      if Enabled(w, a) then Effect(size, w, a) else w
  }

  // ---- Reference notions --------------------------------------------------------------

  function Items<Frame>(rs: seq<Resolved<Frame>>): seq<Item<Frame>> {
    seq(|rs|, i requires 0 <= i < |rs| => rs[i].item)
  }

  /** The resolved frames that were stored, in order. */
  function StoredOf<Frame>(rs: seq<Resolved<Frame>>): seq<Item<Frame>> {
    if rs == [] then []
    else
      var last := rs[|rs| - 1];
      StoredOf(rs[..|rs| - 1]) + (if last.fate == Stored then [last.item] else [])
  }

  /** Everything ever written, in order. */
  function AllWritten<Frame>(log: seq<Entry<Frame>>): seq<Item<Frame>> {
    if log == [] then []
    else
      AllWritten(log[..|log| - 1]) + (match log[|log| - 1] case Written(items) => items case Cleared(_) => [])
  }

  /** What is in the database: what was written since it was last cleared. */
  function Contents<Frame>(log: seq<Entry<Frame>>): seq<Item<Frame>> {
    if log == [] then []
    else
      match log[|log| - 1]
      case Written(items) => Contents(log[..|log| - 1]) + items
      case Cleared(_) => []
  }

  /** The cutoff of the last clear, 0 before the first. */
  function LastCutoff<Frame>(log: seq<Entry<Frame>>): int {
    if log == [] then 0
    else match log[|log| - 1]
      case Written(_) => LastCutoff(log[..|log| - 1])
      case Cleared(cutoff) => cutoff
  }

  /** Every batch has 1 to 100 frames, all newer than the last clear before it. */
  ghost predicate SoundLog<Frame>(log: seq<Entry<Frame>>) {
    log == [] ||
    (var init := log[..|log| - 1];
     && SoundLog(init)
     && match log[|log| - 1]
        case Written(items) =>
          1 <= |items| <= MAX_BATCH && forall x :: x in items ==> x.timestamp > LastCutoff(init)
        case Cleared(_) => true)
  }

  /** A cutoff of one of the clears in the log covers the timestamp. */
  ghost predicate CoveredBy<Frame>(log: seq<Entry<Frame>>, timestamp: int) {
    exists i :: 0 <= i < |log| && log[i].Cleared? && timestamp <= log[i].cutoff
  }

  ghost predicate DiscardsCovered<Frame>(rs: seq<Resolved<Frame>>, log: seq<Entry<Frame>>) {
    forall r :: r in rs && r.fate == Discarded ==> r.item.timestamp <= 0 || CoveredBy(log, r.item.timestamp)
  }

  ghost predicate LogInv<Frame>(w: Writer<Frame>) {
    && w.clearedBefore == LastCutoff(w.log) && SoundLog(w.log)
    && AllWritten(w.log) == StoredOf(w.resolved)
    && DiscardsCovered(w.resolved, w.log)
  }

  ghost predicate WorkInv<Frame>(w: Writer<Frame>) {
    && |w.batch| <= MAX_BATCH
    && (w.pc in {LoopTest, GetItem} ==> |w.batch| < FLUSH_SIZE)
    && (w.pc == Decide ==> |w.batch| <= FLUSH_SIZE)
    && (w.pc in {Filling, BeforeFlush} ==> w.batch != [])
    && (w.pc == Exited ==> w.stopping)
    && (w.pc == Exited ==> w.batch == [] && w.exitMark <= |w.accepted| && Items(w.resolved) == w.accepted[..w.exitMark])
    && w.accepted == Items(w.resolved) + w.batch + w.queue
  }

  ghost predicate Inv<Frame>(w: Writer<Frame>) {
    WorkInv(w) && LogInv(w)
  }

  lemma {:induction false} FreshKeeps<Frame>(batch: seq<Item<Frame>>, cutoff: int)
    ensures forall x :: x in Fresh(batch, cutoff) <==> x in batch && x.timestamp > cutoff
    ensures |Fresh(batch, cutoff)| <= |batch|
  {
    if batch == [] {
    } else {
      FreshKeeps(batch[..|batch| - 1], cutoff);
    }
  }

  lemma {:induction false} FatesStore<Frame>(batch: seq<Item<Frame>>, cutoff: int, ok: bool)
    ensures StoredOf(Fates(batch, cutoff, ok)) == if ok then Fresh(batch, cutoff) else []
    ensures Items(Fates(batch, cutoff, ok)) == batch
  {
    if batch == [] {
    } else {
      var k := |batch| - 1;
      FatesStore(batch[..k], cutoff, ok);
      assert Fates(batch, cutoff, ok)[..k] == Fates(batch[..k], cutoff, ok);
    }
  }

  lemma {:induction false} StoredSplit<Frame>(a: seq<Resolved<Frame>>, b: seq<Resolved<Frame>>)
    ensures StoredOf(a + b) == StoredOf(a) + StoredOf(b)
  {
    if b == [] {
      assert a + b == a;
    } else {
      assert (a + b)[..|a + b| - 1] == a + b[..|b| - 1];
      StoredSplit(a, b[..|b| - 1]);
    }
  }

  lemma LogStep<Frame>(log: seq<Entry<Frame>>, e: Entry<Frame>)
    ensures (log + [e])[..|log| + 1 - 1] == log
    ensures AllWritten(log + [e]) == AllWritten(log) + (if e.Written? then e.items else [])
    ensures LastCutoff(log + [e]) == if e.Cleared? then e.cutoff else LastCutoff(log)
    ensures forall t :: CoveredBy(log, t) ==> CoveredBy(log + [e], t)
    ensures e.Cleared? ==> forall t :: t <= e.cutoff ==> CoveredBy(log + [e], t)
  {
    assert (log + [e])[..|log| + 1 - 1] == log;
    forall t | CoveredBy(log, t) ensures CoveredBy(log + [e], t) {
      var i :| 0 <= i < |log| && log[i].Cleared? && t <= log[i].cutoff;
      assert (log + [e])[i] == log[i];
    }
    assert (log + [e])[|log|] == e;
  }

  /** The last cutoff is one of the cutoffs. */
  lemma {:induction false} LastCutoffCovers<Frame>(log: seq<Entry<Frame>>, t: int)
    requires t <= LastCutoff(log)
    ensures t <= 0 || CoveredBy(log, t)
  {
    if log == [] {
    } else {
      var init, e := log[..|log| - 1], log[|log| - 1];
      assert log == init + [e];
      LogStep(init, e);
      if e.Written? {
        LastCutoffCovers(init, t);
      }
    }
  }

  /** A flush resolves its whole batch, in order, and stores what it writes. */
  lemma FlushResolves<Frame>(w: Writer<Frame>, cutoff: int, ok: bool)
    ensures var fates := Fates(w.batch, cutoff, ok);
      && Items(w.resolved + fates) == Items(w.resolved) + w.batch
      && StoredOf(w.resolved + fates) == StoredOf(w.resolved) + (if ok then Fresh(w.batch, cutoff) else [])
  {
    var fates := Fates(w.batch, cutoff, ok);
    FatesStore(w.batch, cutoff, ok);
    StoredSplit(w.resolved, fates);
    ItemsSplit(w.resolved, fates);
  }

  lemma ItemsSplit<Frame>(a: seq<Resolved<Frame>>, b: seq<Resolved<Frame>>)
    ensures Items(a + b) == Items(a) + Items(b)
  {
  }

  /** A flush discards only what the last clear covers. */
  lemma FlushDiscards<Frame>(w: Writer<Frame>, ok: bool, e: Entry<Frame>)
    requires w.clearedBefore == LastCutoff(w.log) && DiscardsCovered(w.resolved, w.log)
    ensures DiscardsCovered(w.resolved + Fates(w.batch, w.clearedBefore, ok), w.log)
    ensures DiscardsCovered(w.resolved + Fates(w.batch, w.clearedBefore, ok), w.log + [e])
  {
    var fates := Fates(w.batch, w.clearedBefore, ok);
    LogStep(w.log, e);
    forall r | r in fates && r.fate == Discarded ensures r.item.timestamp <= 0 || CoveredBy(w.log, r.item.timestamp) {
      LastCutoffCovers(w.log, r.item.timestamp);
    }
    assert forall r :: r in w.resolved + fates ==> r in w.resolved || r in fates;
  }

  lemma FlushLogs<Frame>(size: nat, w: Writer<Frame>, firstOk: nat)
    requires LogInv(w) && |w.batch| <= MAX_BATCH && Enabled(w, Flush(firstOk))
    ensures LogInv(Effect(size, w, Flush(firstOk)))
  {
    var w', ok, kept := Effect(size, w, Flush(firstOk)), firstOk < ATTEMPTS, Fresh(w.batch, w.clearedBefore);
    FlushResolves(w, w.clearedBefore, ok);
    FlushDiscards(w, ok, Written(kept));
    if kept != [] && ok {
      FreshKeeps(w.batch, w.clearedBefore);
      LogStep(w.log, Written(kept));
      assert w'.log == w.log + [Written(kept)];
      assert SoundLog(w'.log);
    } else {
      assert w'.log == w.log;
    }
  }

  lemma FlushWorks<Frame>(size: nat, w: Writer<Frame>, firstOk: nat)
    requires WorkInv(w) && Enabled(w, Flush(firstOk))
    ensures WorkInv(Effect(size, w, Flush(firstOk)))
  {
    var fates := Fates(w.batch, w.clearedBefore, firstOk < ATTEMPTS);
    FlushResolves(w, w.clearedBefore, firstOk < ATTEMPTS);
    assert Effect(size, w, Flush(firstOk)).resolved == w.resolved + fates;
    EmptyMiddle(Items(w.resolved + fates), w.queue);
  }

  lemma EmptyMiddle<T>(a: seq<T>, b: seq<T>)
    ensures a + [] + b == a + b
  {
    assert a + [] == a;
  }

  lemma ClearKeeps<Frame>(size: nat, w: Writer<Frame>, outcome: ClearOutcome, now: int)
    requires Inv(w)
    ensures Inv(Effect(size, w, Clear(outcome, now)))
  {
    LogStep(w.log, Cleared(now));
  }

  lemma QueueKeeps<Frame>(size: nat, w: Writer<Frame>, a: Action<Frame>)
    requires Inv(w) && Enabled(w, a) && !a.Flush? && !a.Clear?
    ensures Inv(Effect(size, w, a))
  {
    match a
    case Submit(item) =>
      assert w.accepted + [item] == Items(w.resolved) + w.batch + (w.queue + [item]);
    case Get =>
      TakeKeepsOrder(w);
    case FillOne =>
      TakeKeepsOrder(w);
    case TestLoop =>
      assert w.accepted[..|w.accepted|] == w.accepted;
    case _ =>
  }

  lemma TakeKeepsOrder<Frame>(w: Writer<Frame>)
    ensures w.queue != [] ==> w.batch + [w.queue[0]] + w.queue[1..] == w.batch + w.queue
    ensures w.queue != [] ==>
      Items(w.resolved) + (w.batch + [w.queue[0]]) + w.queue[1..] == Items(w.resolved) + w.batch + w.queue
  {
    if w.queue != [] {
      assert [w.queue[0]] + w.queue[1..] == w.queue;
    }
  }

  /** Every interleaving of submissions, clears and the worker keeps the invariant. */
  lemma {:induction false} RunKeeps<Frame>(size: nat, acts: seq<Action<Frame>>)
    ensures Inv(Run(size, acts))
  {
    if acts == [] {
    } else {
      var w, a := Run(size, acts[..|acts| - 1]), acts[|acts| - 1];
      RunKeeps(size, acts[..|acts| - 1]);
      if Enabled(w, a) {
        match a
        case Flush(firstOk) =>
          FlushLogs(size, w, firstOk);
          FlushWorks(size, w, firstOk);
        case Clear(outcome, now) => ClearKeeps(size, w, outcome, now);
        case _ => QueueKeeps(size, w, a);
      }
    }
  }

  // ---- What a user of the writer relies on --------------------------------------------

  /** Accepted frames are resolved in submission order, and what was written is, in that
      order, exactly the frames resolved as stored. When the worker has left its loop every
      frame accepted by then is resolved. Only frames a clear covers are discarded. */
  lemma NothingLost<Frame>(size: nat, acts: seq<Action<Frame>>)
    ensures var w := Run(size, acts);
      && w.accepted == Items(w.resolved) + w.batch + w.queue
      && AllWritten(w.log) == StoredOf(w.resolved)
      && (w.pc == Exited ==> w.exitMark <= |w.accepted| && Items(w.resolved) == w.accepted[..w.exitMark])
      && DiscardsCovered(w.resolved, w.log)
  {
    RunKeeps(size, acts);
  }

  lemma {:induction false} StoppingExactly<Frame>(size: nat, acts: seq<Action<Frame>>)
    ensures Run(size, acts).stopping <==> exists a :: a in acts && a.Stop?
  {
    if acts == [] {
    } else {
      var k := |acts| - 1;
      StoppingExactly(size, acts[..k]);
      assert forall a :: a in acts <==> a in acts[..k] || a == acts[k];
      assert acts[k] in acts;
    }
  }

  /** The worker leaves its loop only after a stop. */
  lemma ExitNeedsStop<Frame>(size: nat, acts: seq<Action<Frame>>)
    ensures Run(size, acts).pc == Exited ==> exists a :: a in acts && a.Stop?
  {
    RunKeeps(size, acts);
    StoppingExactly(size, acts);
  }

  ghost predicate Unhurried<Frame>(acts: seq<Action<Frame>>) {
    forall a :: a in acts ==> !a.Stop? && (a.DecideFlush? ==> !a.due)
  }

  lemma UnhurriedStep<Frame>(size: nat, w: Writer<Frame>, a: Action<Frame>)
    requires Enabled(w, a) && !a.Stop? && (a.DecideFlush? ==> !a.due)
    requires !w.stopping && (w.pc in {Filling, BeforeFlush} ==> |w.batch| >= FLUSH_SIZE)
    ensures var w' := Effect(size, w, a);
      !w'.stopping && (w'.pc in {Filling, BeforeFlush} ==> |w'.batch| >= FLUSH_SIZE)
  {
  }

  /** As long as no stop comes and no flush interval is over, a flush needs four frames. */
  lemma {:induction false} WaitsForFour<Frame>(size: nat, acts: seq<Action<Frame>>)
    requires Unhurried(acts)
    ensures var w := Run(size, acts);
      !w.stopping && (w.pc in {Filling, BeforeFlush} ==> |w.batch| >= 4)
  {
    if acts == [] {
    } else {
      var k := |acts| - 1;
      assert acts[k] in acts && forall a :: a in acts[..k] ==> a in acts;
      WaitsForFour(size, acts[..k]);
      if Enabled(Run(size, acts[..k]), acts[k]) {
        UnhurriedStep(size, Run(size, acts[..k]), acts[k]);
      }
    }
  }

  /** And with four frames it does not wait any longer. */
  lemma NoMoreThanFour<Frame>(size: nat, acts: seq<Action<Frame>>)
    ensures var w := Run(size, acts);
      && (w.pc in {LoopTest, GetItem} ==> |w.batch| < 4)
      && (w.pc == Decide && |w.batch| >= 4 ==> Effect(size, w, DecideFlush(false)).pc == Filling)
  {
    RunKeeps(size, acts);
  }

  /** From the decision to flush on, the worker alone fills its batch with everything queued,
      oldest first, up to 100 frames, and then flushes. */
  lemma {:induction false} FillsUp<Frame>(size: nat, w: Writer<Frame>) returns (steps: nat)
    requires w.pc == Filling && |w.batch| <= MAX_BATCH
    ensures var w', all := Filled(size, w, steps), w.batch + w.queue;
      && w'.pc == BeforeFlush
      && w'.batch == (if |all| <= 100 then all else all[..100])
      && w'.batch + w'.queue == all
    decreases |w.queue|
  {
    if |w.batch| < MAX_BATCH && w.queue != [] {
      var next := Effect(size, w, FillOne);
      TakeKeepsOrder(w);
      steps := FillsUp(size, next);
      steps := steps + 1;
    } else {
      steps := 1;
      assert Filled(size, Effect(size, w, FillOne), 0) == Effect(size, w, FillOne);
      if w.queue == [] {
        assert w.batch + w.queue == w.batch;
      } else {
        assert (w.batch + w.queue)[..100] == w.batch;
      }
    }
  }

  /** The worker's filling steps, until it is done with them. */
  function Filled<Frame>(size: nat, w: Writer<Frame>, steps: nat): Writer<Frame>
    decreases steps
  {
    if steps == 0 || w.pc != Filling then w else Filled(size, Effect(size, w, FillOne), steps - 1)
  }

  /** Batches have 1 to 100 frames. */
  lemma BatchSize<Frame>(size: nat, acts: seq<Action<Frame>>, j: nat)
    requires var log := Run(size, acts).log; j < |log| && log[j].Written?
    ensures 1 <= |Run(size, acts).log[j].items| <= 100
  {
    RunKeeps(size, acts);
    SoundAt(Run(size, acts).log, j);
  }

  lemma {:induction false} SoundAt<Frame>(log: seq<Entry<Frame>>, j: nat)
    requires SoundLog(log) && j < |log| && log[j].Written?
    ensures 1 <= |log[j].items| <= MAX_BATCH
    ensures forall x :: x in log[j].items ==> x.timestamp > LastCutoff(log[..j])
  {
    if j >= |log| - 1 {
    } else {
      var init := log[..|log| - 1];
      SoundAt(init, j);
      assert init[..j] == log[..j] && init[j] == log[j];
    }
  }

  /** The clock never read earlier at one clear than at the one before. */
  ghost predicate ClockForward<Frame>(log: seq<Entry<Frame>>) {
    forall i, j :: 0 <= i < j < |log| && log[i].Cleared? && log[j].Cleared? ==> log[i].cutoff <= log[j].cutoff
  }

  lemma {:induction false} CutoffsBelowLast<Frame>(log: seq<Entry<Frame>>, i: nat)
    requires ClockForward(log) && i < |log| && log[i].Cleared?
    ensures log[i].cutoff <= LastCutoff(log)
  {
    var init, e := log[..|log| - 1], log[|log| - 1];
    if e.Written? {
      assert init[i] == log[i];
      assert ClockForward(init) by {
        assert forall k :: 0 <= k < |init| ==> init[k] == log[k];
      }
      CutoffsBelowLast(init, i);
    }
  }

  /** Clear never resurrects data, in any interleaving: once a clear has deleted the data, no
      frame at or below its cutoff is ever written, as long as the clock does not run
      backwards between clears; and what the database holds is always newer than the last
      cutoff, whatever the clock does. */
  lemma ClearIsPermanent<Frame>(size: nat, acts: seq<Action<Frame>>, i: nat, j: nat, x: Item<Frame>)
    requires var log := Run(size, acts).log;
      && ClockForward(log) && i < j < |log| && log[i].Cleared? && log[j].Written? && x in log[j].items
    ensures x.timestamp > Run(size, acts).log[i].cutoff
  {
    var log := Run(size, acts).log;
    RunKeeps(size, acts);
    SoundAt(log, j);
    assert log[..j][i] == log[i];
    assert ClockForward(log[..j]) by {
      assert forall k :: 0 <= k < j ==> log[..j][k] == log[k];
    }
    CutoffsBelowLast(log[..j], i);
  }

  lemma {:induction false} ContentsAreNew<Frame>(log: seq<Entry<Frame>>, x: Item<Frame>)
    requires SoundLog(log) && x in Contents(log)
    ensures x.timestamp > LastCutoff(log)
  {
    if log[|log| - 1].Written? {
      if x !in log[|log| - 1].items {
        ContentsAreNew(log[..|log| - 1], x);
      }
    }
  }

  lemma DatabaseIsNew<Frame>(size: nat, acts: seq<Action<Frame>>, x: Item<Frame>)
    requires x in Contents(Run(size, acts).log)
    ensures x.timestamp > Run(size, acts).clearedBefore
  {
    RunKeeps(size, acts);
    ContentsAreNew(Run(size, acts).log, x);
  }

  /** A flush brings back data deleted by an earlier clear exactly when the store accepts it
      and the batch holds a frame that an earlier cutoff covers but the last one, read from a
      clock set back, does not. */
  lemma ResurrectsExactly<Frame>(size: nat, acts: seq<Action<Frame>>, firstOk: nat)
    requires Run(size, acts).pc == BeforeFlush
    ensures var w := Run(size, acts);
      var w' := Effect(size, w, Flush(firstOk));
      (exists x :: x in AllWritten(w'.log)[|AllWritten(w.log)|..] && CoveredBy(w.log, x.timestamp)) <==>
        firstOk < ATTEMPTS && exists x :: x in w.batch && x.timestamp > w.clearedBefore && CoveredBy(w.log, x.timestamp)
  {
    var w := Run(size, acts);
    var kept := Fresh(w.batch, w.clearedBefore);
    RunKeeps(size, acts);
    FreshKeeps(w.batch, w.clearedBefore);
    LogStep(w.log, Written(kept));
    var now := AllWritten(Effect(size, w, Flush(firstOk)).log)[|AllWritten(w.log)|..];
    assert now == if firstOk < ATTEMPTS then kept else [];
  }

  /** Such a case: the clock is set back between two clears, and a frame older than the first
      is written after both. */
  lemma ClockSetBack() returns (acts: seq<Action<()>>)
    ensures Run(3600, acts).log == [Cleared(10), Cleared(5), Written([Item((), 7)])]
  {
    var x, log := Item((), 7), [Cleared(10), Cleared(5)];
    var w: Writer<()>;
    acts, w := TwoClears(x, log);
    acts, w := TakeOld(acts, w, x);
    assert Fresh([x], 5) == [x] by { assert [x][..0] == []; }
    acts, w := Then(acts, w, Flush(0), Effect(3600, w, Flush(0)));
    assert w.log == log + [Written([x])];
  }

  lemma TwoClears(x: Item<()>, log: seq<Entry<()>>) returns (acts: seq<Action<()>>, w: Writer<()>)
    requires log == [Cleared(10), Cleared(5)]
    ensures w == Run(3600, acts) == Writer(GetItem, [x], [], 5, false, [x], [], log, 0)
  {
    acts, w := [], Init();
    acts, w := Then(acts, w, Clear(Done, 10), w.(clearedBefore := 10, log := [Cleared(10)]));
    acts, w := Then(acts, w, Clear(Done, 5), w.(clearedBefore := 5, log := log));
    acts, w := Then(acts, w, Submit(x), w.(queue := [x], accepted := [x]));
    acts, w := Then(acts, w, TestLoop, w.(pc := GetItem));
  }

  lemma TakeOld(acts: seq<Action<()>>, w: Writer<()>, x: Item<()>) returns (acts': seq<Action<()>>, w': Writer<()>)
    requires Run(3600, acts) == w && w.pc == GetItem && w.queue == [x] && w.batch == []
    ensures w' == Run(3600, acts') == w.(pc := BeforeFlush, queue := [], batch := [x])
  {
    acts', w' := Then(acts, w, Get, w.(pc := Decide, queue := [], batch := [x]));
    acts', w' := Then(acts', w', DecideFlush(true), w'.(pc := Filling));
    acts', w' := Then(acts', w', FillOne, w'.(pc := BeforeFlush));
  }

  lemma Then(acts: seq<Action<()>>, w: Writer<()>, a: Action<()>, next: Writer<()>)
      returns (acts': seq<Action<()>>, w': Writer<()>)
    requires Run(3600, acts) == w && Enabled(w, a) && Effect(3600, w, a) == next
    ensures acts' == acts + [a] && w' == next && Run(3600, acts') == w'
  {
    acts', w' := acts + [a], next;
    assert acts'[..|acts|] == acts;
  }

  /** A clear that deleted nothing changes nothing. */
  lemma FailedClearIsNoClear<Frame>(size: nat, acts: seq<Action<Frame>>, now: int, later: seq<Action<Frame>>)
    ensures Run(size, acts + [Clear(NothingDeleted, now)] + later) == Run(size, acts + later)
  {
    if later == [] {
      assert acts + [Clear(NothingDeleted, now)] + later == acts + [Clear(NothingDeleted, now)];
      assert acts + later == acts;
      assert (acts + [Clear(NothingDeleted, now)])[..|acts|] == acts;
    } else {
      var k := |later| - 1;
      var long, short := acts + [Clear(NothingDeleted, now)] + later, acts + later;
      FailedClearIsNoClear(size, acts, now, later[..k]);
      assert long[..|long| - 1] == acts + [Clear(NothingDeleted, now)] + later[..k];
      assert short[..|short| - 1] == acts + later[..k];
    }
  }

  // ---- The worker alone ---------------------------------------------------------------

  predicate IsWorker<Frame>(a: Action<Frame>) {
    a.TestLoop? || a.Get? || a.DecideFlush? || a.FillOne? || a.Flush?
  }

  /** The worker's next step, given whether the flush interval is over and the attempt at
      which the store accepts the batch. */
  function WorkerAction<Frame>(w: Writer<Frame>, due: bool, firstOk: nat): Action<Frame>
    requires w.pc != Exited
  {
    match w.pc
    case LoopTest => TestLoop
    case GetItem => Get
    case Decide => DecideFlush(due)
    case Filling => FillOne
    case BeforeFlush => Flush(firstOk)
  }

  /** How far the worker is from its next flush, or from its exit. */
  function Distance<Frame>(w: Writer<Frame>): nat {
    match w.pc
    case Exited => 0
    case BeforeFlush => 1
    case Filling => 2
    case Decide => if w.batch != [] then 3 else 6
    case GetItem => if w.batch != [] || w.queue != [] then 4 else 7
    case LoopTest => 5
  }

  function Left<Frame>(w: Writer<Frame>): nat {
    |w.queue| + |w.batch|
  }

  /** What every worker step of a stopping writer consumes. */
  function Fuel<Frame>(w: Writer<Frame>): nat {
    5 * Left(w) + |w.queue| + Distance(w)
  }

  /** The step cannot leave the worker idle: it is stopping, or has work whose interval is over. */
  predicate Busy<Frame>(w: Writer<Frame>, a: Action<Frame>) {
    w.stopping || (Left(w) > 0 && (a.DecideFlush? ==> a.due))
  }

  lemma WorkerApproaches<Frame>(size: nat, w: Writer<Frame>, a: Action<Frame>)
    requires WorkInv(w) && IsWorker(a) && Enabled(w, a) && Busy(w, a)
    ensures var w' := Effect(size, w, a);
      && Fuel(w') < Fuel(w)
      && w'.stopping == w.stopping && w'.accepted == w.accepted
      && (w'.pc == Exited ==> Left(w') == 0)
  {
    // One case for each place in the loop; each follows from the definitions.
    match a
    case TestLoop =>
    case Get =>
    case DecideFlush(_) =>
    case FillOne =>
    case Flush(_) =>
  }

  lemma RunSplit<Frame>(size: nat, acts: seq<Action<Frame>>, more: seq<Action<Frame>>)
    requires more != []
    ensures var k := |more| - 1; var w := Run(size, acts + more[..k]);
      Run(size, acts + more) == if Enabled(w, more[k]) then Effect(size, w, more[k]) else w
  {
    var k, all := |more| - 1, acts + more;
    assert all[..|all| - 1] == acts + more[..k];
    assert all[|all| - 1] == more[k];
  }

  ghost predicate NoSubmit<Frame>(acts: seq<Action<Frame>>) {
    forall a :: a in acts ==> !a.Submit?
  }

  /** How many steps the worker takes in `more`, run after `acts`. */
  function WorkerSteps<Frame>(size: nat, acts: seq<Action<Frame>>, more: seq<Action<Frame>>): nat {
    if more == [] then 0
    else
      var k := |more| - 1;
      WorkerSteps(size, acts, more[..k])
      + (if IsWorker(more[k]) && Enabled(Run(size, acts + more[..k]), more[k]) then 1 else 0)
  }

  lemma StoppingStep<Frame>(size: nat, w: Writer<Frame>, a: Action<Frame>)
    requires WorkInv(w) && w.stopping && Enabled(w, a) && !a.Submit?
    ensures var w' := Effect(size, w, a);
      && w'.stopping && w'.accepted == w.accepted
      && (if IsWorker(a) then Fuel(w') < Fuel(w) else Fuel(w') == Fuel(w))
      && (w'.pc == Exited && (w.pc == Exited ==> Left(w) == 0) ==> Left(w') == 0)
  {
    if IsWorker(a) {
      WorkerApproaches(size, w, a);
    } else {
      assert a.Stop? || a.Clear?;
    }
  }

  lemma {:induction false} StoppingRun<Frame>(size: nat, acts: seq<Action<Frame>>, more: seq<Action<Frame>>)
    requires Run(size, acts).stopping && Run(size, acts).pc != Exited && NoSubmit(more)
    ensures var w, w' := Run(size, acts), Run(size, acts + more);
      && w'.stopping && w'.accepted == w.accepted
      && WorkerSteps(size, acts, more) + Fuel(w') <= Fuel(w)
      && (w'.pc == Exited ==> Left(w') == 0)
  {
    if more == [] {
      assert acts + more == acts;
    } else {
      var k := |more| - 1;
      assert more[k] in more && forall a :: a in more[..k] ==> a in more;
      StoppingRun(size, acts, more[..k]);
      RunSplit(size, acts, more);
      var w := Run(size, acts + more[..k]);
      if Enabled(w, more[k]) {
        RunKeeps(size, acts + more[..k]);
        StoppingStep(size, w, more[k]);
      }
    }
  }

  /** After the stop, whatever the store answers, whenever the flush interval is over and
      whatever is cleared meanwhile: the worker takes at most six steps for each frame left,
      and seven more; until it has left its loop it can take another one; and when it has,
      nothing is left in the queue or the batch and every accepted frame is resolved. */
  lemma CloseDrains<Frame>(size: nat, acts: seq<Action<Frame>>, more: seq<Action<Frame>>)
    requires Run(size, acts).stopping && Run(size, acts).pc != Exited && NoSubmit(more)
    ensures WorkerSteps(size, acts, more) <= 6 * Left(Run(size, acts)) + 7
    ensures var w := Run(size, acts + more);
      if w.pc == Exited then
        w.queue == [] && w.batch == [] && w.accepted == Run(size, acts).accepted && Items(w.resolved) == w.accepted
      else exists a :: IsWorker(a) && Enabled(w, a)
  {
    StoppingRun(size, acts, more);
    var w := Run(size, acts + more);
    if w.pc == Exited {
      RunKeeps(size, acts + more);
      assert Items(w.resolved) + w.batch + w.queue == Items(w.resolved);
    } else {
      assert IsWorker(WorkerAction(w, true, 0)) && Enabled(w, WorkerAction(w, true, 0));
    }
  }

  // ---- What a clock set back can bring back -------------------------------------------

  ghost predicate NoClear<Frame>(acts: seq<Action<Frame>>) {
    forall a :: a in acts ==> !a.Clear?
  }

  ghost predicate NewerFrom<Frame>(log: seq<Entry<Frame>>, from: nat, cutoff: int) {
    forall j :: from <= j < |log| ==> log[j].Written? && forall x :: x in log[j].items ==> x.timestamp > cutoff
  }

  lemma FreshIsNewer<Frame>(batch: seq<Item<Frame>>, cutoff: int)
    ensures forall x :: x in Fresh(batch, cutoff) ==> x.timestamp > cutoff
  {
    FreshKeeps(batch, cutoff);
  }

  lemma NewWrite<Frame>(size: nat, w: Writer<Frame>, a: Action<Frame>, from: nat, cutoff: int)
    requires Enabled(w, a) && !a.Clear? && w.clearedBefore == cutoff && NewerFrom(w.log, from, cutoff)
    ensures var w' := Effect(size, w, a);
      w.log <= w'.log && w'.clearedBefore == cutoff && NewerFrom(w'.log, from, cutoff)
  {
    var w', kept := Effect(size, w, a), Fresh(w.batch, w.clearedBefore);
    FreshKeeps(w.batch, w.clearedBefore);
    assert w'.log == w.log || (a.Flush? && w'.log == w.log + [Written(kept)]);
    if w'.log != w.log {
      forall j | from <= j < |w'.log|
        ensures w'.log[j].Written? && forall x :: x in w'.log[j].items ==> x.timestamp > cutoff
      {
        if j < |w.log| {
          assert w'.log[j] == w.log[j];
          assert w.log[j].Written? && forall x :: x in w.log[j].items ==> x.timestamp > cutoff;
        } else {
          assert w'.log[j] == Written(kept);
          FreshIsNewer(w.batch, cutoff);
          assert w'.log[j].items == kept;
        }
      }
    }
  }

  /** Without a further clear the log only grows, by frames newer than the last cutoff. */
  lemma {:induction false} NewWrites<Frame>(size: nat, acts: seq<Action<Frame>>, more: seq<Action<Frame>>)
    requires NoClear(more)
    ensures var w, w' := Run(size, acts), Run(size, acts + more);
      w.log <= w'.log && w'.clearedBefore == w.clearedBefore && NewerFrom(w'.log, |w.log|, w.clearedBefore)
  {
    if more == [] {
      assert acts + more == acts;
    } else {
      var k := |more| - 1;
      assert more[k] in more && forall a :: a in more[..k] ==> a in more;
      NewWrites(size, acts, more[..k]);
      RunSplit(size, acts, more);
      var w0, w := Run(size, acts), Run(size, acts + more[..k]);
      if Enabled(w, more[k]) {
        NewWrite(size, w, more[k], |w0.log|, w0.clearedBefore);
      }
    }
  }

  /** A clear that deleted the data takes hold at once, whether or not it then fails: its cutoff
      is recorded, and until the next clear only frames newer than it are written. */
  lemma ClearTakesHold<Frame>(size: nat, acts: seq<Action<Frame>>, outcome: ClearOutcome, now: int, more: seq<Action<Frame>>)
    requires outcome != NothingDeleted && NoClear(more)
    ensures var log, log' := Run(size, acts).log, Run(size, acts + [Clear(outcome, now)] + more).log;
      log + [Cleared(now)] <= log' && NewerFrom(log', |log| + 1, now)
  {
    var cleared := [Clear(outcome, now)];
    assert acts + cleared[..0] == acts;
    RunSplit(size, acts, cleared);
    NewWrites(size, acts + cleared, more);
  }

  /** Entry `j` writes a frame that a clear before it covers. */
  ghost predicate ResurrectsAt<Frame>(log: seq<Entry<Frame>>, j: nat) {
    j < |log| && log[j].Written? && exists x :: x in log[j].items && CoveredBy(log[..j], x.timestamp)
  }

  ghost predicate Resurrects<Frame>(log: seq<Entry<Frame>>, from: nat) {
    exists j: nat :: from <= j && ResurrectsAt(log, j)
  }

  /** The clock was set back: some cutoff is later than the last one. */
  ghost predicate SetBack<Frame>(w: Writer<Frame>) {
    exists i :: 0 <= i < |w.log| && w.log[i].Cleared? && w.log[i].cutoff > w.clearedBefore
  }

  lemma NothingComesBack<Frame>(size: nat, acts: seq<Action<Frame>>, more: seq<Action<Frame>>)
    requires NoClear(more) && Resurrects(Run(size, acts + more).log, |Run(size, acts).log|)
    ensures SetBack(Run(size, acts))
  {
    NewWrites(size, acts, more);
    var w, log := Run(size, acts), Run(size, acts + more).log;
    var j: nat :| |w.log| <= j && ResurrectsAt(log, j);
    var x :| x in log[j].items && CoveredBy(log[..j], x.timestamp);
    var i :| 0 <= i < j && log[..j][i].Cleared? && x.timestamp <= log[..j][i].cutoff;
    assert log[i].Cleared?;
    assert i < |w.log| && w.log[i] == log[i];
  }

  /** One step of a worker with work, the flush interval being over and the store accepting. */
  lemma WorkOn<Frame>(size: nat, acts: seq<Action<Frame>>) returns (next: seq<Action<Frame>>)
    requires var w := Run(size, acts); w.pc != Exited && Left(w) > 0
    ensures |next| == 1 && NoClear(next)
    ensures var w, w' := Run(size, acts), Run(size, acts + next);
      && WorkInv(w) && w' == Effect(size, w, WorkerAction(w, true, 0))
      && w'.pc != Exited && Fuel(w') < Fuel(w)
  {
    var w := Run(size, acts);
    var a := WorkerAction(w, true, 0);
    RunKeeps(size, acts);
    WorkerApproaches(size, w, a);
    next := [a];
    assert acts + next[..0] == acts;
    RunSplit(size, acts, next);
  }

  lemma {:induction false} MakeRoom<Frame>(size: nat, acts: seq<Action<Frame>>) returns (more: seq<Action<Frame>>)
    requires Run(size, acts).pc != Exited
    ensures NoClear(more)
    ensures var w := Run(size, acts + more); w.pc != Exited && (size == 0 || |w.queue| < size)
    decreases Fuel(Run(size, acts))
  {
    if size == 0 || |Run(size, acts).queue| < size {
      more := [];
      assert acts + more == acts;
    } else {
      var next := WorkOn(size, acts);
      more := MakeRoom(size, acts + next);
      more := next + more;
      assert acts + more == acts + next + more[1..];
    }
  }

  ghost predicate Writes<Frame>(log: seq<Entry<Frame>>, from: nat, x: Item<Frame>) {
    exists j: nat :: from <= j < |log| && log[j].Written? && x in log[j].items
  }

  lemma FlushWrites<Frame>(size: nat, w: Writer<Frame>, x: Item<Frame>)
    requires w.pc == BeforeFlush && x in w.batch && x.timestamp > w.clearedBefore
    ensures Writes(Effect(size, w, Flush(0)).log, |w.log|, x)
  {
    var kept := Fresh(w.batch, w.clearedBefore);
    FreshKeeps(w.batch, w.clearedBefore);
    assert Effect(size, w, Flush(0)).log == w.log + [Written(kept)];
    assert (w.log + [Written(kept)])[|w.log|].items == kept;
  }

  lemma WritesLater<Frame>(log: seq<Entry<Frame>>, from: nat, later: nat, x: Item<Frame>)
    requires from <= later && Writes(log, later, x)
    ensures Writes(log, from, x)
  {
  }

  /** A frame newer than the last cutoff that the worker has before it can be written. */
  lemma {:induction false} CanBeWritten<Frame>(size: nat, acts: seq<Action<Frame>>, x: Item<Frame>) returns (more: seq<Action<Frame>>)
    requires var w := Run(size, acts); w.pc != Exited && x in w.batch + w.queue && x.timestamp > w.clearedBefore
    ensures NoClear(more)
    ensures Writes(Run(size, acts + more).log, |Run(size, acts).log|, x)
    decreases Fuel(Run(size, acts))
  {
    var w := Run(size, acts);
    more := WorkOn(size, acts);
    NewWrites(size, acts, more);
    if w.pc == BeforeFlush && x in w.batch {
      FlushWrites(size, w, x);
    } else {
      StillThere(size, w, WorkerAction(w, true, 0), x);
      var rest := CanBeWritten(size, acts + more, x);
      assert acts + more + rest == acts + (more + rest);
      WritesLater(Run(size, acts + (more + rest)).log, |w.log|, |Run(size, acts + more).log|, x);
      more := more + rest;
    }
  }

  lemma StillThere<Frame>(size: nat, w: Writer<Frame>, a: Action<Frame>, x: Item<Frame>)
    requires Enabled(w, a) && IsWorker(a) && x in w.batch + w.queue && !(a.Flush? && x in w.batch)
    ensures var w' := Effect(size, w, a); x in w'.batch + w'.queue
  {
    TakeKeepsOrder(w);
  }

  lemma ComesBack<Frame>(size: nat, acts: seq<Action<Frame>>, frame: Frame) returns (more: seq<Action<Frame>>)
    requires Run(size, acts).pc != Exited && SetBack(Run(size, acts))
    ensures NoClear(more) && Resurrects(Run(size, acts + more).log, |Run(size, acts).log|)
  {
    var w := Run(size, acts);
    var x := Item(frame, w.clearedBefore + 1);
    var room := MakeRoom(size, acts);
    NewWrites(size, acts, room);
    var submitted := room + [Submit(x)];
    assert submitted[..|submitted| - 1] == room;
    RunSplit(size, acts, submitted);
    var w1 := Run(size, acts + submitted);
    assert w1.queue[|w1.queue| - 1] == x;
    var rest := CanBeWritten(size, acts + submitted, x);
    more := submitted + rest;
    assert acts + submitted + rest == acts + more;
    NewWrites(size, acts, more);
    var log := Run(size, acts + more).log;
    var j: nat :| |w1.log| <= j < |log| && log[j].Written? && x in log[j].items;
    var i :| 0 <= i < |w.log| && w.log[i].Cleared? && w.log[i].cutoff > w.clearedBefore;
    assert log[..j][i] == w.log[i];
    assert ResurrectsAt(log, j);
  }

  /** As long as the worker runs, data deleted by some clear can come back without a further
      clear exactly when the clock was set back: a cutoff is later than the last one. */
  lemma ResurrectionPossible<Frame>(size: nat, acts: seq<Action<Frame>>, frame: Frame)
    requires Run(size, acts).pc != Exited
    ensures SetBack(Run(size, acts)) <==>
      exists more :: NoClear(more) && Resurrects(Run(size, acts + more).log, |Run(size, acts).log|)
  {
    if SetBack(Run(size, acts)) {
      var more := ComesBack(size, acts, frame);
    }
    forall more | NoClear(more) && Resurrects(Run(size, acts + more).log, |Run(size, acts).log|)
      ensures SetBack(Run(size, acts))
    {
      NothingComesBack(size, acts, more);
    }
  }

  // ---- The writer as the host program has it ------------------------------------------

  class BatchWriter<Frame> {
    const size: nat
    var pc: Pc
    var queue: seq<Item<Frame>>
    var batch: seq<Item<Frame>>
    var clearedBefore: int
    var stopping: bool
    ghost var accepted: seq<Item<Frame>>
    ghost var resolved: seq<Resolved<Frame>>
    ghost var log: seq<Entry<Frame>>
    ghost var exitMark: nat

    ghost function State(): Writer<Frame>
      reads this
    {
      Writer(pc, queue, batch, clearedBefore, stopping, accepted, resolved, log, exitMark)
    }

    constructor (size: nat)
      ensures State() == Init() && this.size == size
    {
      this.size := size;
      pc, queue, batch, clearedBefore, stopping := LoopTest, [], [], 0, false;
      accepted, resolved, log, exitMark := [], [], [], 0;
    }

    /** `ok` is false when the queue is full; the frame is then not accepted. */
    method SubmitFrame(item: Item<Frame>) returns (ok: bool)
      modifies this
      ensures State() == Effect(size, old(State()), Submit(item))
      ensures ok <==> size == 0 || |old(queue)| < size
      ensures accepted == if ok then old(accepted) + [item] else old(accepted)
    {
      ok := size == 0 || |queue| < size;
      if ok {
        queue := queue + [item];
        accepted := accepted + [item];
      }
    }

    method Close()
      modifies this
      ensures State() == Effect(size, old(State()), Stop)
    {
      stopping := true;
    }

    /** `raised` is the clear's error; a deletion that failed later still sets the cutoff. */
    method ClearAll(outcome: ClearOutcome, now: int) returns (raised: bool)
      modifies this
      ensures State() == Effect(size, old(State()), Clear(outcome, now))
      ensures raised <==> !outcome.Done?
    {
      if !outcome.Done? {
        if outcome.DeletedThenFailed? {
          clearedBefore := now;
          log := log + [Cleared(now)];
        }
        return true;
      }
      clearedBefore := now;
      log := log + [Cleared(now)];
      return false;
    }

    method FilterFresh() returns (kept: seq<Item<Frame>>)
      ensures kept == Fresh(batch, clearedBefore)
    {
      kept := [];
      for i := 0 to |batch|
        invariant kept == Fresh(batch[..i], clearedBefore)
      {
        assert batch[..i + 1][..i] == batch[..i];
        if batch[i].timestamp > clearedBefore {
          kept := kept + [batch[i]];
        }
      }
      assert batch[..|batch|] == batch;
    }

    /** Up to three attempts; the store accepts the batch at attempt `firstOk`, if it comes. */
    method WriteBatch(items: seq<Item<Frame>>, firstOk: nat) returns (ok: bool)
      modifies `log
      ensures ok <==> firstOk < 3
      ensures log == if ok then old(log) + [Written(items)] else old(log)
    {
      for attempt := 0 to ATTEMPTS
        invariant log == old(log) && attempt <= firstOk
      {
        if attempt == firstOk {
          log := log + [Written(items)];
          return true;
        }
      }
      return false;
    }

    method FlushBatch(firstOk: nat)
      requires pc == BeforeFlush
      modifies this
      ensures State() == Effect(size, old(State()), Flush(firstOk))
    {
      var kept := FilterFresh();
      if kept != [] {
        var ok := WriteBatch(kept, firstOk);
      }
      resolved := resolved + Fates(batch, clearedBefore, firstOk < ATTEMPTS);
      batch := [];
      pc := LoopTest;
    }

    /** One step of the worker's loop other than the flush. */
    method WorkerStep(a: Action<Frame>)
      requires Enabled(State(), a) && (a.TestLoop? || a.Get? || a.DecideFlush? || a.FillOne?)
      modifies this
      ensures State() == Effect(size, old(State()), a)
    {
      match a {
        case TestLoop =>
          if !stopping || batch != [] || queue != [] {
            pc := GetItem;
          } else {
            pc := Exited;
            exitMark := |accepted|;
          }
        case Get =>
          if queue != [] {
            batch, queue := batch + [queue[0]], queue[1..];
          }
          pc := Decide;
        case DecideFlush(due) =>
          pc := if batch != [] && (|batch| >= FLUSH_SIZE || due || stopping) then Filling else LoopTest;
        case FillOne =>
          if |batch| < MAX_BATCH && queue != [] {
            batch, queue := batch + [queue[0]], queue[1..];
          } else {
            pc := BeforeFlush;
          }
      }
    }

    /** Any interleaving of the worker with the threads that submit, clear and close. */
    method Interleave(acts: seq<Action<Frame>>)
      requires State() == Init()
      modifies this
      ensures State() == Run(size, acts)
    {
      for i := 0 to |acts|
        invariant State() == Run(size, acts[..i])
      {
        assert acts[..i + 1][..i] == acts[..i];
        var a := acts[i];
        if pc == BeforeFlush && a.Flush? {
          FlushBatch(a.firstOk);
        } else if a.Submit? {
          var ok := SubmitFrame(a.item);
        } else if a.Stop? {
          Close();
        } else if a.Clear? {
          var raised := ClearAll(a.outcome, a.now);
        } else if (pc == LoopTest && a.TestLoop?) || (pc == GetItem && a.Get?)
            || (pc == Decide && a.DecideFlush?) || (pc == Filling && a.FillOne?) {
          WorkerStep(a);
        }
      }
      assert acts[..|acts|] == acts;
    }
  }
}
