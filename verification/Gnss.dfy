/** A GNSS session of the button-stepped application: position frames arrive in a queue of
    two; the collector keeps the latest valid one until a press or the deadline. */
module Gnss {
  import opened Common

  const QUEUE_SIZE: nat := 2

  datatype Frame<Pvt> = Frame(pvt: Pvt, valid: bool)

  /** One turn of the collector's loop: the frames that arrived since the last one, whether
      the deadline has passed, whether a press is pending, the frame that arrives while the
      collector waits on an empty queue, and an error of the queue other than being empty,
      0 if there is none. */
  datatype Round<Pvt> = Round(
    arrivals: seq<Frame<Pvt>>, timedOut: bool, pressed: bool, late: Option<Frame<Pvt>>, queueErr: int)

  datatype Session<Pvt> =
    | Running(queue: seq<Frame<Pvt>>, have: Option<Pvt>)
    | Finished(err: int, have: Option<Pvt>)

  /** The event handler drops a frame that finds the queue full. */
  function Put<Pvt>(queue: seq<Frame<Pvt>>, f: Frame<Pvt>): seq<Frame<Pvt>> {
    if |queue| < QUEUE_SIZE then queue + [f] else queue
  }

  function PutAll<Pvt>(queue: seq<Frame<Pvt>>, fs: seq<Frame<Pvt>>): seq<Frame<Pvt>>
    decreases |fs|
  {
    if fs == [] then queue else PutAll(Put(queue, fs[0]), fs[1..])
  }

  function Collect<Pvt>(queue: seq<Frame<Pvt>>, have: Option<Pvt>, rounds: seq<Round<Pvt>>): Session<Pvt>
    decreases |rounds|
  {
    if rounds == [] then Running(queue, have)
    else
      var r, q := rounds[0], PutAll(queue, rounds[0].arrivals);
      if r.pressed || r.timedOut then
        Finished(if have.Some? then 0 else if r.timedOut then -ETIMEDOUT else -ENODATA, have)
      else if r.queueErr != 0 then Finished(r.queueErr, have)
      else if q != [] then Collect(q[1..], Keep(have, q[0]), rounds[1..])
      else if r.late.Some? then Collect([], Keep(have, r.late.value), rounds[1..])
      else Collect([], have, rounds[1..])
  }

  function Keep<Pvt>(have: Option<Pvt>, f: Frame<Pvt>): Option<Pvt> {
    if f.valid then Some(f.pvt) else have
  }

  // ---- What the session should return -------------------------------------------------

  /** The frames a session takes from the queue, up to its end. */
  function Dequeued<Pvt>(queue: seq<Frame<Pvt>>, rounds: seq<Round<Pvt>>): seq<Frame<Pvt>>
    decreases |rounds|
  {
    if rounds == [] then []
    else
      var r, q := rounds[0], PutAll(queue, rounds[0].arrivals);
      if Ends(r) then []
      else if q != [] then [q[0]] + Dequeued(q[1..], rounds[1..])
      else if r.late.Some? then [r.late.value] + Dequeued([], rounds[1..])
      else Dequeued([], rounds[1..])
  }

  function LateOf<Pvt>(r: Round<Pvt>): seq<Frame<Pvt>> {
    if r.late.Some? then [r.late.value] else []
  }

  /** Everything that arrived since the session purged the queue. */
  function Arrived<Pvt>(rounds: seq<Round<Pvt>>): seq<Frame<Pvt>> {
    if rounds == [] then []
    else
      var r := rounds[0];
      r.arrivals + LateOf(r) + Arrived(rounds[1..])
  }

  /** `p` is the position of the last valid frame of `fs`. */
  ghost predicate IsLastValid<Pvt>(fs: seq<Frame<Pvt>>, p: Option<Pvt>) {
    match p
    case None => forall i :: 0 <= i < |fs| ==> !fs[i].valid
    case Some(pvt) =>
      exists i :: 0 <= i < |fs| && fs[i] == Frame(pvt, true) && forall j :: i < j < |fs| ==> !fs[j].valid
  }

  predicate Ends<Pvt>(r: Round<Pvt>) {
    r.pressed || r.timedOut || r.queueErr != 0
  }

  /** Turn `k` is the first that ends the session. */
  ghost predicate EndsAt<Pvt>(rounds: seq<Round<Pvt>>, k: nat) {
    k < |rounds| && Ends(rounds[k]) && forall i :: 0 <= i < k ==> !Ends(rounds[i])
  }

  /** The result of a session that ends at turn `r` with `have`. */
  function EndCode<Pvt>(r: Round<Pvt>, have: Option<Pvt>): int {
    if !r.pressed && !r.timedOut then r.queueErr
    else if have.Some? then 0
    else if r.timedOut then -ETIMEDOUT
    else -ENODATA
  }

  ghost predicate Subsequence<T>(a: seq<T>, b: seq<T>) {
    a == [] || (b != [] && ((a[0] == b[0] && Subsequence(a[1..], b[1..])) || Subsequence(a, b[1..])))
  }

  lemma {:induction false} SubsequenceRefl<T>(a: seq<T>)
    ensures Subsequence(a, a)
  {
    if a == [] {
    } else {
      SubsequenceRefl(a[1..]);
    }
  }

  lemma {:induction false} SubsequenceTrans<T>(a: seq<T>, b: seq<T>, c: seq<T>)
    requires Subsequence(a, b) && Subsequence(b, c)
    ensures Subsequence(a, c)
    decreases |b| + |c|
  {
    if a == [] {
    } else {
      if b[0] == c[0] && Subsequence(b[1..], c[1..]) {
        if a[0] == b[0] && Subsequence(a[1..], b[1..]) {
          SubsequenceTrans(a[1..], b[1..], c[1..]);
        } else {
          SubsequenceTrans(a, b[1..], c[1..]);
        }
      } else {
        SubsequenceTrans(a, b, c[1..]);
      }
    }
  }

  lemma {:induction false} SubsequencePrefix<T>(p: seq<T>, a: seq<T>, b: seq<T>)
    requires Subsequence(a, b)
    ensures Subsequence(p + a, p + b)
  {
    if p == [] {
      assert p + a == a && p + b == b;
    } else {
      SubsequencePrefix(p[1..], a, b);
      assert (p + a)[1..] == p[1..] + a && (p + b)[1..] == p[1..] + b;
    }
  }

  lemma {:induction false} SubsequenceSuffix<T>(a: seq<T>, b: seq<T>, s: seq<T>)
    requires Subsequence(a, b)
    ensures Subsequence(a + s, b + s)
    decreases |b|
  {
    if b == [] {
      assert a + s == s == b + s;
      SubsequenceRefl(s);
    } else {
      assert (b + s)[1..] == b[1..] + s;
      if a != [] && a[0] == b[0] && Subsequence(a[1..], b[1..]) {
        SubsequenceSuffix(a[1..], b[1..], s);
        assert (a + s)[1..] == a[1..] + s;
      } else {
        SubsequenceSuffix(a, b[1..], s);
      }
    }
  }

  lemma {:induction false} SubsequenceNil<T>(p: seq<T>, a: seq<T>)
    ensures Subsequence(a, p + a)
  {
    if p == [] {
      assert p + a == a;
      SubsequenceRefl(a);
    } else {
      SubsequenceNil(p[1..], a);
      assert (p + a)[1..] == p[1..] + a;
    }
  }

  /** The queue holds, in order, some of what was put into it. */
  lemma {:induction false} PutAllOrder<Pvt>(queue: seq<Frame<Pvt>>, fs: seq<Frame<Pvt>>)
    ensures Subsequence(PutAll(queue, fs), queue + fs)
    decreases |fs|
  {
    if fs == [] {
      assert queue + fs == queue;
      SubsequenceRefl(queue);
    } else {
      PutAllOrder(Put(queue, fs[0]), fs[1..]);
      assert queue + fs == queue + [fs[0]] + fs[1..];
      assert Subsequence(Put(queue, fs[0]) + fs[1..], queue + fs) by {
        if |queue| < QUEUE_SIZE {
          SubsequenceRefl(queue + fs);
        } else {
          SubsequenceNil([fs[0]], fs[1..]);
          SubsequencePrefix(queue, fs[1..], [fs[0]] + fs[1..]);
          assert queue + ([fs[0]] + fs[1..]) == queue + fs;
        }
      }
      SubsequenceTrans(PutAll(queue, fs), Put(queue, fs[0]) + fs[1..], queue + fs);
    }
  }

  /** Who is dropped: the queue is the first two of what it held and what was put into it. */
  lemma {:induction false} FirstTwoStay<Pvt>(queue: seq<Frame<Pvt>>, fs: seq<Frame<Pvt>>)
    requires |queue| <= 2
    ensures var all := queue + fs; PutAll(queue, fs) == if |all| <= 2 then all else all[..2]
    decreases |fs|
  {
    if fs == [] {
      assert queue + fs == queue;
    } else {
      FirstTwoStay(Put(queue, fs[0]), fs[1..]);
      assert queue + [fs[0]] + fs[1..] == queue + fs;
    }
  }

  lemma TakenOrder<T>(f: T, taken: seq<T>, q: seq<T>, more: seq<T>, later: seq<T>)
    requires Subsequence(taken, q + later)
    ensures Subsequence([f] + taken, [f] + q + (more + later))
  {
    SubsequencePrefix([f], taken, q + later);
    SubsequenceNil(more, later);
    SubsequencePrefix([f] + q, later, more + later);
    assert [f] + (q + later) == [f] + q + later;
    SubsequenceTrans([f] + taken, [f] + q + later, [f] + q + (more + later));
  }

  /** `taken` follows `q` and what comes later; `q` follows what was put in; so `taken`
      follows everything. */
  lemma Chain<T>(taken: seq<T>, q: seq<T>, queue: seq<T>, put: seq<T>, late: seq<T>, later: seq<T>)
    requires Subsequence(taken, q + (late + later)) && Subsequence(q, queue + put)
    ensures Subsequence(taken, queue + (put + late + later))
  {
    var tail := late + later;
    SubsequenceSuffix(q, queue + put, tail);
    SubsequenceTrans(taken, q + tail, queue + put + tail);
    assert queue + put + tail == queue + (put + late + later);
  }

  /** One turn: what it takes from the queue, or waits for, comes before what is taken later. */
  lemma TurnOrder<T>(q: seq<T>, late: seq<T>, rest: seq<T>, later: seq<T>)
    requires Subsequence(rest, (if q == [] then q else q[1..]) + later)
    ensures Subsequence((if q == [] then late else [q[0]]) + rest, q + (late + later))
  {
    if q == [] {
      assert q + later == later && q + (late + later) == late + later;
      SubsequencePrefix(late, rest, later);
    } else {
      TakenOrder(q[0], rest, q[1..], late, later);
      assert [q[0]] + q[1..] == q;
    }
  }

  lemma TurnIs<Pvt>(queue: seq<Frame<Pvt>>, rounds: seq<Round<Pvt>>, q: seq<Frame<Pvt>>, left: seq<Frame<Pvt>>)
    requires rounds != [] && !Ends(rounds[0]) && q == PutAll(queue, rounds[0].arrivals)
    requires left == if q == [] then q else q[1..]
    ensures Dequeued(queue, rounds) == (if q == [] then LateOf(rounds[0]) else [q[0]]) + Dequeued(left, rounds[1..])
  {
    var rest := Dequeued(left, rounds[1..]);
    assert [] + rest == rest;
  }

  lemma TurnTakes<Pvt>(queue: seq<Frame<Pvt>>, rounds: seq<Round<Pvt>>, q: seq<Frame<Pvt>>, left: seq<Frame<Pvt>>)
    requires rounds != [] && !Ends(rounds[0]) && q == PutAll(queue, rounds[0].arrivals)
    requires left == if q == [] then q else q[1..]
    requires Subsequence(Dequeued(left, rounds[1..]), left + Arrived(rounds[1..]))
    ensures Subsequence(Dequeued(queue, rounds), q + (LateOf(rounds[0]) + Arrived(rounds[1..])))
  {
    TurnIs(queue, rounds, q, left);
    TurnOrder(q, LateOf(rounds[0]), Dequeued(left, rounds[1..]), Arrived(rounds[1..]));
  }

  /** What a session takes is, in order, some of what was queued or arrived. */
  lemma {:induction false} DequeuedOrder<Pvt>(queue: seq<Frame<Pvt>>, rounds: seq<Round<Pvt>>)
    ensures Subsequence(Dequeued(queue, rounds), queue + Arrived(rounds))
    decreases |rounds|
  {
    if rounds == [] || Ends(rounds[0]) {
    } else {
      var q := PutAll(queue, rounds[0].arrivals);
      var left := if q == [] then q else q[1..];
      DequeuedOrder(left, rounds[1..]);
      TurnTakes(queue, rounds, q, left);
      PutAllOrder(queue, rounds[0].arrivals);
      Chain(Dequeued(queue, rounds), q, queue, rounds[0].arrivals, LateOf(rounds[0]), Arrived(rounds[1..]));
    }
  }

  /** A turn that does not end the session takes a frame whenever there is one, the oldest. */
  lemma TakesOldest<Pvt>(queue: seq<Frame<Pvt>>, rounds: seq<Round<Pvt>>)
    requires |queue| <= 2 && rounds != [] && !Ends(rounds[0])
    ensures var there := queue + rounds[0].arrivals + LateOf(rounds[0]);
      if there == [] then Dequeued(queue, rounds) == Dequeued([], rounds[1..])
      else Dequeued(queue, rounds) != [] && Dequeued(queue, rounds)[0] == there[0]
  {
    FirstTwoStay(queue, rounds[0].arrivals);
  }

  /** No turn finds the queue full, and a frame only comes late to an empty one. */
  ghost predicate Roomy<Pvt>(queue: seq<Frame<Pvt>>, rounds: seq<Round<Pvt>>)
    decreases |rounds|
  {
    rounds == [] || Ends(rounds[0]) ||
    (var q := queue + rounds[0].arrivals;
     && |q| <= 2 && (q != [] ==> rounds[0].late.None?)
     && Roomy(if q == [] then q else q[1..], rounds[1..]))
  }

  /** As long as the queue never overflows, a session skips nothing: what it takes is the
      beginning of what arrives. */
  lemma {:induction false} NothingSkipped<Pvt>(queue: seq<Frame<Pvt>>, rounds: seq<Round<Pvt>>)
    requires |queue| <= 2 && Roomy(queue, rounds)
    ensures Dequeued(queue, rounds) <= queue + Arrived(rounds)
    decreases |rounds|
  {
    if rounds == [] || Ends(rounds[0]) {
    } else {
      var r, q := rounds[0], queue + rounds[0].arrivals;
      var left := if q == [] then q else q[1..];
      FirstTwoStay(queue, r.arrivals);
      NothingSkipped(left, rounds[1..]);
      TurnTakesAll(queue, rounds, q, left);
    }
  }

  lemma PrefixTurn<T>(q: seq<T>, late: seq<T>, rest: seq<T>, later: seq<T>)
    requires rest <= (if q == [] then q else q[1..]) + later && (q != [] ==> late == [])
    ensures (if q == [] then late else [q[0]]) + rest <= q + late + later
  {
    if q == [] {
      assert [] + later == later;
      assert q + late == late;
    } else {
      assert q + late + later == [q[0]] + (q[1..] + later);
    }
  }

  lemma TurnTakesAll<Pvt>(queue: seq<Frame<Pvt>>, rounds: seq<Round<Pvt>>, q: seq<Frame<Pvt>>, left: seq<Frame<Pvt>>)
    requires rounds != [] && !Ends(rounds[0]) && q == queue + rounds[0].arrivals == PutAll(queue, rounds[0].arrivals)
    requires left == if q == [] then q else q[1..]
    requires q != [] ==> rounds[0].late.None?
    requires Dequeued(left, rounds[1..]) <= left + Arrived(rounds[1..])
    ensures Dequeued(queue, rounds) <= queue + Arrived(rounds)
  {
    PrefixTurn(q, LateOf(rounds[0]), Dequeued(left, rounds[1..]), Arrived(rounds[1..]));
    TurnIs(queue, rounds, q, left);
    ArrivedIs(queue, rounds);
  }

  lemma ArrivedIs<Pvt>(queue: seq<Frame<Pvt>>, rounds: seq<Round<Pvt>>)
    requires rounds != []
    ensures queue + Arrived(rounds) == queue + rounds[0].arrivals + LateOf(rounds[0]) + Arrived(rounds[1..])
  {
  }

  lemma LastValidStep<Pvt>(fs: seq<Frame<Pvt>>, f: Frame<Pvt>, p: Option<Pvt>)
    requires IsLastValid(fs, p)
    ensures IsLastValid(fs + [f], Keep(p, f))
  {
    var gs := fs + [f];
    if f.valid {
      assert gs[|fs|] == Frame(f.pvt, true);
    } else if p.Some? {
      var i :| 0 <= i < |fs| && fs[i] == Frame(p.value, true) && forall j :: i < j < |fs| ==> !fs[j].valid;
      assert gs[i] == Frame(p.value, true);
    }
  }

  lemma LastValidIsUnique<Pvt>(fs: seq<Frame<Pvt>>, p: Option<Pvt>, q: Option<Pvt>)
    requires IsLastValid(fs, p) && IsLastValid(fs, q)
    ensures p == q
  {
    if p.Some? && q.Some? {
      var i :| 0 <= i < |fs| && fs[i] == Frame(p.value, true) && forall j :: i < j < |fs| ==> !fs[j].valid;
      var k :| 0 <= k < |fs| && fs[k] == Frame(q.value, true) && forall j :: k < j < |fs| ==> !fs[j].valid;
      assert !(i < k) && !(k < i);
    }
  }

  lemma TakesFrame<Pvt>(
      queue: seq<Frame<Pvt>>, have: Option<Pvt>, rounds: seq<Round<Pvt>>, f: Frame<Pvt>, left: seq<Frame<Pvt>>)
    requires rounds != [] && !Ends(rounds[0])
    requires var q := PutAll(queue, rounds[0].arrivals);
      if q != [] then f == q[0] && left == q[1..] else rounds[0].late == Some(f) && left == []
    ensures Dequeued(queue, rounds) == [f] + Dequeued(left, rounds[1..])
    ensures Collect(queue, have, rounds) == Collect(left, Keep(have, f), rounds[1..])
  {
  }

  function KeepAll<Pvt>(have: Option<Pvt>, fs: seq<Frame<Pvt>>): Option<Pvt>
    decreases |fs|
  {
    if fs == [] then have else KeepAll(Keep(have, fs[0]), fs[1..])
  }

  lemma {:induction false} KeepAllIsLastValid<Pvt>(before: seq<Frame<Pvt>>, have: Option<Pvt>, fs: seq<Frame<Pvt>>)
    requires IsLastValid(before, have)
    ensures IsLastValid(before + fs, KeepAll(have, fs))
    decreases |fs|
  {
    if fs == [] {
      assert before + fs == before;
    } else {
      LastValidStep(before, fs[0], have);
      KeepAllIsLastValid(before + [fs[0]], Keep(have, fs[0]), fs[1..]);
      assert before + [fs[0]] + fs[1..] == before + fs;
    }
  }

  /** What the session has comes from the frames it took, in order. */
  lemma {:induction false} CollectKeepsAll<Pvt>(queue: seq<Frame<Pvt>>, have: Option<Pvt>, rounds: seq<Round<Pvt>>)
    ensures Collect(queue, have, rounds).have == KeepAll(have, Dequeued(queue, rounds))
    decreases |rounds|
  {
    if rounds == [] || Ends(rounds[0]) {
    } else {
      var q := PutAll(queue, rounds[0].arrivals);
      if q == [] && rounds[0].late.None? {
        CollectKeepsAll([], have, rounds[1..]);
      } else {
        var f := if q != [] then q[0] else rounds[0].late.value;
        var left := if q != [] then q[1..] else [];
        CollectKeepsAll(left, Keep(have, f), rounds[1..]);
        TakesFrame(queue, have, rounds, f, left);
        assert ([f] + Dequeued(left, rounds[1..]))[1..] == Dequeued(left, rounds[1..]);
      }
    }
  }

  ghost predicate EndedAs<Pvt>(rounds: seq<Round<Pvt>>, k: nat, s: Session<Pvt>) {
    EndsAt(rounds, k) && s.Finished? && s.err == EndCode(rounds[k], s.have)
  }

  /** When and how a session ends. */
  lemma {:induction false} CollectEnds<Pvt>(queue: seq<Frame<Pvt>>, have: Option<Pvt>, rounds: seq<Round<Pvt>>)
    ensures var s := Collect(queue, have, rounds);
      if s.Running? then forall k: nat :: !EndsAt(rounds, k) else exists k: nat :: EndedAs(rounds, k, s)
    decreases |rounds|
  {
    if rounds == [] {
    } else {
      var r, rest, q := rounds[0], rounds[1..], PutAll(queue, rounds[0].arrivals);
      if Ends(r) {
        assert EndedAs(rounds, 0, Collect(queue, have, rounds));
      } else {
        var q' := if q != [] then q[1..] else [];
        var have' := if q != [] then Keep(have, q[0]) else if r.late.Some? then Keep(have, r.late.value) else have;
        var s := Collect(q', have', rest);
        CollectEnds(q', have', rest);
        if s.Running? {
          forall k: nat ensures !EndsAt(rounds, k) {
            if k > 0 {
              EndsLater(rounds, k - 1);
            }
          }
        } else {
          var k: nat :| EndedAs(rest, k, s);
          EndsLater(rounds, k);
          assert EndedAs(rounds, k + 1, s);
        }
      }
    }
  }

  lemma EndsLater<Pvt>(rounds: seq<Round<Pvt>>, k: nat)
    requires rounds != [] && !Ends(rounds[0])
    ensures EndsAt(rounds, k + 1) <==> EndsAt(rounds[1..], k)
  {
    var rest := rounds[1..];
    assert forall i :: 0 <= i < |rest| ==> rest[i] == rounds[i + 1];
    if EndsAt(rest, k) {
      forall i | 0 <= i < k + 1 ensures !Ends(rounds[i]) {
        assert i > 0 ==> rounds[i] == rest[i - 1];
      }
    }
  }

  lemma EndIsUnique<Pvt>(rounds: seq<Round<Pvt>>, j: nat, k: nat)
    requires EndsAt(rounds, j) && EndsAt(rounds, k)
    ensures j == k
  {
    assert !(j < k) && !(k < j);
  }

  /** A session starts with a purge. It is over exactly when a press, the deadline or a queue
      error has come; what it has is the last valid frame it took, all of which arrived after
      the purge; and its result is that of the turn that ended it. */
  lemma SessionResult<Pvt>(rounds: seq<Round<Pvt>>)
    ensures var s, taken := Collect([], None, rounds), Dequeued([], rounds);
      && IsLastValid(taken, s.have)
      && Subsequence(taken, Arrived(rounds))
      && (s.Finished? <==> exists k: nat :: EndsAt(rounds, k))
      && (forall k: nat :: EndsAt(rounds, k) ==> s == Finished(EndCode(rounds[k], s.have), s.have))
  {
    CollectEnds([], None, rounds);
    DequeuedOrder([], rounds);
    assert [] + Arrived(rounds) == Arrived(rounds);
    var nothing: seq<Frame<Pvt>> := [];
    CollectKeepsAll([], None, rounds);
    KeepAllIsLastValid(nothing, None, Dequeued([], rounds));
    assert nothing + Dequeued([], rounds) == Dequeued([], rounds);
    var s := Collect([], None, rounds);
    if s.Finished? {
      var k: nat :| EndedAs(rounds, k, s);
      forall j: nat | EndsAt(rounds, j) ensures s == Finished(EndCode(rounds[j], s.have), s.have) {
        EndIsUnique(rounds, j, k);
      }
    }
  }

  /** The two codes that mean a session without a fix. */
  predicate NoFixCode(err: int) {
    err == -ENODATA || err == -ETIMEDOUT
  }

  /** What the result says about the position: 0 comes only with one; a no-fix code comes with
      one exactly when the ending turn has neither press nor deadline and that code is the
      error of the queue itself. */
  lemma ResultMeaning<Pvt>(rounds: seq<Round<Pvt>>, k: nat)
    requires EndsAt(rounds, k)
    ensures var s, r := Collect([], None, rounds), rounds[k];
      && s.Finished?
      && (s.err == 0 <==> (r.pressed || r.timedOut) && s.have.Some?)
      && (NoFixCode(s.err) && s.have.Some? <==>
            !r.pressed && !r.timedOut && NoFixCode(r.queueErr) && s.have.Some?)
      && ((r.pressed || r.timedOut) ==> (NoFixCode(s.err) <==> s.have.None?))
      && (s.err == -ETIMEDOUT && r.pressed ==> r.timedOut)
      && (r.timedOut && s.have.None? ==> s.err == -ETIMEDOUT)
      && (!r.pressed && !r.timedOut ==> s.err == r.queueErr)
  {
    SessionResult(rounds);
  }

  /** Such a case: a valid frame, then a queue error with the code for no data. */
  lemma FixWithNoFixCode<Pvt>(p: Pvt)
    ensures Collect([], None, [Round([Frame(p, true)], false, false, None, 0), Round([], false, false, None, -ENODATA)])
      == Finished(-ENODATA, Some(p))
  {
    var first, second := Round([Frame(p, true)], false, false, None, 0), Round([], false, false, None, -ENODATA);
    assert PutAll([], [Frame(p, true)]) == [Frame(p, true)];
    assert [first, second][1..] == [second];
    assert Collect([], Some(p), [second]) == Finished(-ENODATA, Some(p));
  }

  class Receiver<Pvt> {
    var queue: seq<Frame<Pvt>>

    constructor ()
      ensures queue == []
    {
      queue := [];
    }

    /** The position event: `readErr` is the result of reading the frame. */
    method HandlePvt(readErr: int, f: Frame<Pvt>)
      modifies this
      ensures queue == if readErr != 0 then old(queue) else Put(old(queue), f)
    {
      if readErr != 0 {
        return;
      }
      if |queue| < QUEUE_SIZE {
        queue := queue + [f];
      }
    }

    method Receive(fs: seq<Frame<Pvt>>)
      modifies this
      ensures queue == PutAll(old(queue), fs)
    {
      var rest := fs;
      while rest != []
        invariant PutAll(queue, rest) == PutAll(old(queue), fs)
        decreases |rest|
      {
        HandlePvt(0, rest[0]);
        rest := rest[1..];
      }
    }

    /** `None` for the error while the session is still running after `rounds`. */
    method CollectUntilStop(rounds: seq<Round<Pvt>>) returns (err: Option<int>, pvt: Option<Pvt>)
      modifies this
      ensures var s := Collect([], None, rounds);
        pvt == s.have && err == if s.Running? then None else Some(s.err)
    {
      queue := [];
      pvt := None;
      var rest := rounds;
      while rest != []
        invariant Collect(queue, pvt, rest) == Collect([], None, rounds)
        decreases |rest|
      {
        var r := rest[0];
        Receive(r.arrivals);
        if r.pressed || r.timedOut {
          return Some(if pvt.Some? then 0 else if r.timedOut then -ETIMEDOUT else -ENODATA), pvt;
        }
        if r.queueErr != 0 {
          return Some(r.queueErr), pvt;
        }
        if queue != [] {
          pvt := Keep(pvt, queue[0]);
          queue := queue[1..];
        } else if r.late.Some? {
          pvt := Keep(pvt, r.late.value);
        }
        rest := rest[1..];
      }
      err := None;
    }
  }
}
