/** The battery level lookup: piecewise-linear interpolation of a discharge curve in 32-bit
    unsigned arithmetic with truncating division. */
module Battery {
  import opened Multiples

  const WORD: nat := 0x1_0000_0000

  datatype Point = Point(pptt: nat, mv: nat)

  /** A discharge curve as documented: 16-bit fields, both decreasing, ending at 0. Equal
      neighbours are allowed. */
  predicate ValidCurve(curve: seq<Point>) {
    && |curve| > 0 && curve[|curve| - 1].pptt == 0
    && (forall i :: 0 <= i < |curve| ==> curve[i].pptt < 0x1_0000 && curve[i].mv < 0x1_0000)
    && (forall i, j :: 0 <= i < j < |curve| ==> curve[i].pptt >= curve[j].pptt && curve[i].mv >= curve[j].mv)
  }

  /** Where the walk down the curve stops: at the first point at or below the measured
      voltage, or the first empty one. */
  predicate StopsAt(battMv: nat, curve: seq<Point>, j: nat) {
    && j < |curve|
    && (curve[j].pptt == 0 || curve[j].mv <= battMv)
    && (forall i :: 0 <= i < j ==> curve[i].pptt > 0 && battMv < curve[i].mv)
  }

  /** `level` lies on the line from `below` to `above` at `battMv`, rounded down. */
  predicate OnLine(battMv: nat, above: Point, below: Point, level: nat)
    requires below.mv <= battMv < above.mv && below.pptt <= above.pptt
  {
    var run, rise := above.mv - below.mv, (above.pptt - below.pptt) * (battMv - below.mv);
    below.pptt <= level && RoundsDown(level - below.pptt, rise, run)
  }

  /** `q` is `rise / run`, rounded down. */
  predicate RoundsDown(q: int, rise: int, run: int) {
    q * run <= rise < (q + 1) * run
  }

  predicate LevelAt(battMv: nat, curve: seq<Point>, j: nat, level: nat)
    requires ValidCurve(curve)
  {
    StopsAt(battMv, curve, j) &&
    if j == 0 || battMv < curve[j].mv then level == curve[j].pptt
    else OnLine(battMv, curve[j - 1], curve[j], level)
  }

  /** What the level of a voltage is, without saying how it is computed. */
  ghost predicate IsLevel(battMv: nat, curve: seq<Point>, level: nat)
    requires ValidCurve(curve)
  {
    exists j: nat :: LevelAt(battMv, curve, j, level)
  }

  function Unsigned(x: int): nat {
    x % WORD
  }

  lemma RiseFits(a: nat, x: nat)
    requires a < 0x1_0000 && x < 0x1_0000
    ensures a * x < WORD
  {
    MulOrder(a, 0xFFFF, x);
    MulOrder(x, 0xFFFF, 0xFFFF);
  }

  lemma Quotient(rise: nat, run: nat, a: nat, x: nat)
    requires run > 0 && rise == a * x && x < run
    ensures RoundsDown(rise / run, rise, run) && rise / run <= a
  {
    var q := rise / run;
    assert rise == q * run + rise % run;
    MulOrder(x, run, a);
    if q > a {
      MulOrder(a + 1, q, run);
    }
  }

  /** A product and quotient as the machine evaluates them: every operand and the product
      are taken modulo 2^32. */
  function MachineQuotient(a: int, x: int, run: int): nat
    requires Unsigned(run) > 0
  {
    Unsigned(Unsigned(a) * Unsigned(x)) / Unsigned(run)
  }

  function Interpolate(battMv: nat, above: Point, below: Point): nat
    requires below.mv < above.mv < 0x1_0000
  {
    Unsigned(below.pptt + MachineQuotient(above.pptt - below.pptt, battMv - below.mv, above.mv - below.mv))
  }

  lemma NoWrap(x: int)
    requires 0 <= x < WORD
    ensures Unsigned(x) == x
  {
  }

  /** Neither the operands nor the product wrap. */
  lemma MachineQuotientIsExact(a: nat, x: nat, run: nat)
    requires a < 0x1_0000 && x < run < 0x1_0000
    ensures Unsigned(a) * Unsigned(x) < WORD
    ensures MachineQuotient(a, x, run) <= a && RoundsDown(MachineQuotient(a, x, run), a * x, run)
  {
    var rise := a * x;
    RiseFits(a, x);
    NoWrap(a);
    NoWrap(x);
    NoWrap(run);
    NoWrap(rise);
    assert MachineQuotient(a, x, run) == rise / run;
    Quotient(rise, run, a, x);
  }

  /** The result is the point on the line, rounded down. */
  lemma InterpolateIsExact(battMv: nat, above: Point, below: Point)
    requires below.mv <= battMv < above.mv < 0x1_0000 && below.pptt <= above.pptt < 0x1_0000
    ensures OnLine(battMv, above, below, Interpolate(battMv, above, below))
  {
    var a, x, run := above.pptt - below.pptt, battMv - below.mv, above.mv - below.mv;
    MachineQuotientIsExact(a, x, run);
    NoWrap(below.pptt + MachineQuotient(a, x, run));
  }

  /** The walk stays inside the curve, the divisor is never 0, and the level is right even
      where neighbouring points share a voltage. */
  method LevelPptt(battMv: nat, curve: seq<Point>) returns (level: nat)
    requires battMv < WORD && ValidCurve(curve)
    ensures IsLevel(battMv, curve, level)
  {
    var b := 0;
    if battMv >= curve[b].mv {
      assert LevelAt(battMv, curve, 0, curve[0].pptt);
      return curve[b].pptt;
    }
    while curve[b].pptt > 0 && battMv < curve[b].mv
      invariant b < |curve|
      invariant forall i :: 0 <= i < b ==> curve[i].pptt > 0 && battMv < curve[i].mv
      decreases |curve| - b
    {
      b := b + 1;
    }
    assert StopsAt(battMv, curve, b);
    if battMv < curve[b].mv {
      assert LevelAt(battMv, curve, b, curve[b].pptt);
      return curve[b].pptt;
    }
    InterpolateIsExact(battMv, curve[b - 1], curve[b]);
    level := Interpolate(battMv, curve[b - 1], curve[b]);
    assert LevelAt(battMv, curve, b, level);
  }

  // ---- What the level means -----------------------------------------------------------

  lemma StopIsUnique(battMv: nat, curve: seq<Point>, j: nat, k: nat)
    requires StopsAt(battMv, curve, j) && StopsAt(battMv, curve, k)
    ensures j == k
  {
    assert !(j < k) && !(k < j);
  }

  lemma LineBetween(battMv: nat, above: Point, below: Point, level: nat)
    requires below.mv <= battMv < above.mv && below.pptt <= above.pptt
    requires OnLine(battMv, above, below, level)
    ensures below.pptt <= level <= above.pptt
  {
    var a, x, run, q := above.pptt - below.pptt, battMv - below.mv, above.mv - below.mv, level - below.pptt;
    MulOrder(x, run, a);
    if q > a {
      MulOrder(a + 1, q, run);
    }
  }

  lemma LineMonotone(v: nat, w: nat, above: Point, below: Point, l: nat, m: nat)
    requires below.mv <= v <= w < above.mv && below.pptt <= above.pptt
    requires OnLine(v, above, below, l) && OnLine(w, above, below, m)
    ensures l <= m
  {
    var a, run := above.pptt - below.pptt, above.mv - below.mv;
    MulOrder(v - below.mv, w - below.mv, a);
    if l > m {
      MulOrder(m - below.pptt + 1, l - below.pptt, run);
    }
  }

  /** The level lies between those of the two neighbouring points of the curve. */
  lemma BetweenNeighbours(battMv: nat, curve: seq<Point>, level: nat, j: nat)
    requires ValidCurve(curve) && IsLevel(battMv, curve, level) && StopsAt(battMv, curve, j)
    ensures LevelAt(battMv, curve, j, level)
    ensures curve[j].pptt <= level
    ensures j > 0 ==> level <= curve[j - 1].pptt
    ensures j == 0 ==> level == curve[0].pptt
  {
    var k: nat :| LevelAt(battMv, curve, k, level);
    StopIsUnique(battMv, curve, j, k);
    if j > 0 && curve[j].mv <= battMv {
      LineBetween(battMv, curve[j - 1], curve[j], level);
    }
  }

  lemma StopsEarlier(curve: seq<Point>, v: nat, w: nat, j: nat, k: nat)
    requires StopsAt(v, curve, j) && StopsAt(w, curve, k) && v <= w
    ensures k <= j
  {
    assert !(j < k);
  }

  /** A higher voltage never reads as a lower level, across all segments and both caps. */
  lemma Monotone(curve: seq<Point>, v: nat, w: nat, l: nat, m: nat)
    requires ValidCurve(curve) && v <= w
    requires IsLevel(v, curve, l) && IsLevel(w, curve, m)
    ensures l <= m
  {
    var j: nat :| LevelAt(v, curve, j, l);
    var k: nat :| LevelAt(w, curve, k, m);
    StopsEarlier(curve, v, w, j, k);
    BetweenNeighbours(v, curve, l, j);
    BetweenNeighbours(w, curve, m, k);
    if k < j {
      assert k < j - 1 ==> curve[j - 1].pptt <= curve[k].pptt;
    } else if j > 0 && curve[j].mv <= v {
      LineMonotone(v, w, curve[j - 1], curve[j], l, m);
    }
  }

  /** The level determines itself: two readings of one voltage agree. */
  lemma LevelIsUnique(curve: seq<Point>, v: nat, l: nat, m: nat)
    requires ValidCurve(curve) && IsLevel(v, curve, l) && IsLevel(v, curve, m)
    ensures l == m
  {
    Monotone(curve, v, v, l, m);
    Monotone(curve, v, v, m, l);
  }

  /** At a point of the curve the level is that point's, exactly when no earlier point has
      the same voltage and a different level. */
  lemma ExactAtPoints(curve: seq<Point>, i: nat, level: nat)
    requires ValidCurve(curve) && i < |curve| && IsLevel(curve[i].mv, curve, level)
    ensures level == curve[i].pptt <==>
      forall k :: 0 <= k < i && curve[k].mv == curve[i].mv ==> curve[k].pptt == curve[i].pptt
  {
    var v := curve[i].mv;
    var j: nat :| LevelAt(v, curve, j, level);
    assert !(i < j);
    assert level == curve[j].pptt by {
      if j > 0 && curve[j].mv <= v {
        assert curve[j].mv == v;
        AtFoot(curve[j - 1], curve[j], level);
      }
    }
    if curve[j].mv == v {
      forall k | 0 <= k < i && curve[k].mv == v ensures curve[i].pptt <= curve[k].pptt <= curve[j].pptt {
        assert j <= k;
      }
    }
  }

  lemma AtFoot(above: Point, below: Point, level: nat)
    requires below.mv < above.mv && below.pptt <= above.pptt && OnLine(below.mv, above, below, level)
    ensures level == below.pptt
  {
    var q, run := level - below.pptt, above.mv - below.mv;
    if q >= 1 {
      MulOrder(1, q, run);
    }
  }
}
