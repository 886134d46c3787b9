/** Powers of two and the multiples of a stride inside a range of sequence numbers:
    the arithmetic behind the adaptive-stride backlog. */
module Multiples {

  predicate PowerOfTwo(n: nat) {
    n == 1 || (n >= 2 && n % 2 == 0 && PowerOfTwo(n / 2))
  }

  /** The multiples of `stride` in `lo <= n < hi`, in increasing order. */
  function MultiplesIn(stride: nat, lo: nat, hi: nat): seq<nat>
    requires stride > 0
  {
    if hi <= lo then []
    else MultiplesIn(stride, lo, hi - 1) + (if (hi - 1) % stride == 0 then [hi - 1] else [])
  }

  /** How many multiples of `stride` lie in `0 <= n < hi`. */
  function CountBelow(stride: nat, hi: nat): nat
    requires stride > 0
  {
    if hi == 0 then 0 else CountBelow(stride, hi - 1) + (if (hi - 1) % stride == 0 then 1 else 0)
  }

  lemma MulSandwich(s: nat, q: int, c: int)
    requires s > 0 && (c - 1) * s < q * s <= c * s
    ensures q == c
  {
    var d := q - c;
    assert d * s == q * s - c * s;
    assert (d + 1) * s > 0;
  }

  /** `CountBelow(stride, hi) * stride` is the least multiple of `stride` at or above `hi`. */
  lemma {:induction false} CountBelowBounds(stride: nat, hi: nat)
    requires stride > 0
    ensures hi <= CountBelow(stride, hi) * stride < hi + stride
  {
    if hi == 0 {
    } else {
      CountBelowBounds(stride, hi - 1);
      BoundStep(stride, hi - 1, CountBelow(stride, hi - 1));
    }
  }

  lemma BoundStep(s: nat, x: nat, c: nat)
    requires s > 0 && x <= c * s < x + s
    ensures x % s == 0 ==> c * s == x && (c + 1) * s == x + s
    ensures x % s != 0 ==> c * s != x
  {
    assert (c + 1) * s == c * s + s;
    if x % s == 0 {
      assert x == (x / s) * s;
      MulSandwich(s, x / s, c);
    } else {
      MultipleMod(c, s);
    }
  }

  lemma MultipleMod(k: int, s: nat)
    requires s > 0
    ensures (k * s) % s == 0
  {
    ModShift(0, k, s);
  }

  lemma SmallMultiple(d: int, s: int)
    requires s > 0 && d * s < s && d * s + s > 0
    ensures d == 0
  {
    if d >= 1 {
      MulOrder(1, d, s);
    } else if d <= -1 {
      MulOrder(d, -1, s);
    }
  }

  lemma MulOrder(a: int, b: int, s: int)
    requires a <= b && s >= 0
    ensures a * s <= b * s
  {
    assert (b - a) * s >= 0;
  }

  lemma ModUnique(x: int, q: int, r: int, s: nat)
    requires x == q * s + r && 0 <= r < s
    ensures x % s == r
  {
    var q', r' := x / s, x % s;
    assert x == q' * s + r';
    assert (q - q') * s == r' - r;
    SmallMultiple(q - q', s);
  }

  lemma ModShift(r: int, k: int, s: nat)
    requires s > 0
    ensures (r + k * s) % s == r % s
  {
    assert r == (r / s) * s + r % s;
    assert r + k * s == (r / s + k) * s + r % s;
    ModUnique(r + k * s, r / s + k, r % s, s);
  }

  /** A divisor of a divisor divides. */
  lemma DividesTrans(x: nat, s: nat, t: nat)
    requires s > 0 && t > 0 && x % s == 0 && s % t == 0
    ensures x % t == 0
  {
    var k, j := x / s, s / t;
    assert x == k * s && s == j * t;
    assert x == (k * j) * t;
    MultipleMod(k * j, t);
  }

  lemma {:induction false} PowersDivide(a: nat, b: nat)
    requires PowerOfTwo(a) && PowerOfTwo(b) && a <= b
    ensures b % a == 0
  {
    if a <= 1 {
    } else {
      PowersDivide(a / 2, b / 2);
      var k := (b / 2) / (a / 2);
      assert b / 2 == k * (a / 2);
      assert b == k * a;
      MultipleMod(k, a);
    }
  }

  lemma {:induction false} MultiplesAre(stride: nat, lo: nat, hi: nat)
    requires stride > 0
    ensures forall n :: n in MultiplesIn(stride, lo, hi) <==> lo <= n < hi && n % stride == 0
  {
    if hi <= lo {
    } else {
      MultiplesAre(stride, lo, hi - 1);
    }
  }

  lemma {:induction false} CountMultiples(stride: nat, lo: nat, hi: nat)
    requires stride > 0 && lo <= hi
    ensures |MultiplesIn(stride, lo, hi)| == CountBelow(stride, hi) - CountBelow(stride, lo)
  {
    if hi <= lo {
    } else {
      CountMultiples(stride, lo, hi - 1);
    }
  }

  lemma SplitPairs(h: int, r: int, s: int)
    ensures (2 * h + r) * s == h * (2 * s) + r * s
  {
  }

  /** The `c`-th multiple of `s` is a multiple of `2 * s` exactly when `c` is even. */
  lemma EvenMultiple(c: nat, s: nat)
    requires s > 0
    ensures (c * s) % (2 * s) == 0 <==> c % 2 == 0
  {
    var h, r := c / 2, c % 2;
    assert c == 2 * h + r;
    SplitPairs(h, r, s);
    if r == 0 {
      ModUnique(c * s, h, 0, 2 * s);
    } else {
      ModUnique(c * s, h, s, 2 * s);
    }
  }

  /** Every second multiple of `stride` is a multiple of `2 * stride`. */
  lemma {:induction false} CountBelowDouble(stride: nat, hi: nat)
    requires stride > 0
    ensures CountBelow(2 * stride, hi) == (CountBelow(stride, hi) + 1) / 2
  {
    if hi == 0 {
    } else {
      CountBelowDouble(stride, hi - 1);
      var double, c := 2 * stride, CountBelow(stride, hi - 1);
      assert (hi - 1) % double == 0 <==> (hi - 1) % stride == 0 && c % 2 == 0 by {
        CountBelowBounds(stride, hi - 1);
        DoubleMultiple(hi - 1, stride, c);
      }
    }
  }

  lemma DoubleMultiple(x: nat, s: nat, c: nat)
    requires s > 0 && x <= c * s < x + s
    ensures x % (2 * s) == 0 <==> x % s == 0 && c % 2 == 0
  {
    if x % s == 0 {
      MulSandwich(s, x / s, c);
      EvenMultiple(c, s);
    } else {
      NotDoubleMultiple(x, s);
    }
  }

  lemma NotDoubleMultiple(x: nat, s: nat)
    requires s > 0 && x % s != 0
    ensures x % (2 * s) != 0
  {
    if x % (2 * s) == 0 {
      MultipleMod(2, s);
      DividesTrans(x, 2 * s, s);
    }
  }

  /** Thinning to the doubled stride keeps half of the multiples, rounded up or down. */
  lemma HalvedCount(stride: nat, lo: nat, hi: nat)
    requires stride > 0 && lo <= hi
    ensures var c := |MultiplesIn(stride, lo, hi)|;
      c / 2 <= |MultiplesIn(2 * stride, lo, hi)| <= (c + 1) / 2
  {
    CountMultiples(stride, lo, hi);
    CountMultiples(2 * stride, lo, hi);
    CountBelowDouble(stride, lo);
    CountBelowDouble(stride, hi);
  }

  /** A range holding `c` multiples of `stride` spans more than `c - 1` strides. */
  lemma CountSpan(stride: nat, lo: nat, hi: nat)
    requires stride > 0 && lo <= hi
    ensures (|MultiplesIn(stride, lo, hi)| - 1) * stride < hi - lo
  {
    CountMultiples(stride, lo, hi);
    var a, b := CountBelow(stride, hi), CountBelow(stride, lo);
    assert lo <= b * stride by { CountBelowBounds(stride, lo); }
    assert a * stride < hi + stride by { CountBelowBounds(stride, hi); }
    Distribute(a, b, stride);
  }

  lemma Distribute(a: int, b: int, s: int)
    ensures (a - b - 1) * s == a * s - b * s - s
  {
    assert (a - b - 1) * s == (a - b) * s - s;
  }

  /** A coarser stride has at most as many multiples as a stride dividing it. */
  lemma {:induction false} CoarserIsFewer(coarse: nat, fine: nat, lo: nat, hi: nat)
    requires coarse > 0 && fine > 0 && coarse % fine == 0
    ensures |MultiplesIn(coarse, lo, hi)| <= |MultiplesIn(fine, lo, hi)|
  {
    if hi <= lo {
    } else {
      CoarserIsFewer(coarse, fine, lo, hi - 1);
      if (hi - 1) % coarse == 0 {
        DividesTrans(hi - 1, coarse, fine);
      }
    }
  }

  /** The range grows, so does the number of multiples. */
  lemma {:induction false} MultiplesGrow(stride: nat, lo: nat, mid: nat, hi: nat)
    requires stride > 0 && mid <= hi
    ensures MultiplesIn(stride, lo, mid) <= MultiplesIn(stride, lo, hi)
  {
    if mid >= hi {
    } else {
      MultiplesGrow(stride, lo, mid, hi - 1);
    }
  }

  /** Dropping the first multiple is the same as starting the range just past it. */
  lemma {:induction false} DropFirst(stride: nat, lo: nat, hi: nat)
    requires stride > 0 && MultiplesIn(stride, lo, hi) != []
    ensures var m := MultiplesIn(stride, lo, hi);
      lo <= m[0] < hi && MultiplesIn(stride, m[0] + 1, hi) == m[1..]
  {
    if MultiplesIn(stride, lo, hi - 1) != [] {
      DropFirst(stride, lo, hi - 1);
    } else {
      assert MultiplesIn(stride, lo, hi) == [hi - 1];
    }
  }

  /** Neighbouring multiples differ by exactly the stride, the first one is the least multiple
      from `lo` on, and the last one is the greatest below `hi`. */
  ghost predicate Spaced(m: seq<nat>, stride: nat, lo: nat, hi: nat) {
    && (forall i :: 0 <= i < |m| - 1 ==> m[i + 1] == m[i] + stride)
    && (m != [] ==> m[|m| - 1] < hi <= m[|m| - 1] + stride)
    && (m != [] ==> lo <= m[0] < lo + stride)
    && (m == [] && lo <= hi ==> hi < lo + stride)
  }

  lemma SpacedMore(m: seq<nat>, stride: nat, lo: nat, x: nat)
    requires stride > 0 && lo <= x && Spaced(m, stride, lo, x)
    requires m != [] ==> x == m[|m| - 1] + stride
    ensures Spaced(m + [x], stride, lo, x + 1)
  {
    var n := m + [x];
    forall i | 0 <= i < |n| - 1 ensures n[i + 1] == n[i] + stride {
      if i < |m| - 1 {
        assert m[i + 1] == m[i] + stride;
      }
    }
  }

  lemma {:induction false} EvenlySpaced(stride: nat, lo: nat, hi: nat)
    requires stride > 0
    ensures Spaced(MultiplesIn(stride, lo, hi), stride, lo, hi)
  {
    if hi <= lo {
    } else {
      EvenlySpaced(stride, lo, hi - 1);
      var p, x := MultiplesIn(stride, lo, hi - 1), hi - 1;
      if p != [] {
        LastIsMultiple(stride, lo, x);
        NextMultiple(p[|p| - 1], x, stride);
      }
      if x % stride == 0 {
        SpacedMore(p, stride, lo, x);
      } else if p == [] {
        NoMultiple(stride, lo, hi);
      }
    }
  }

  lemma LastIsMultiple(stride: nat, lo: nat, hi: nat)
    requires stride > 0 && MultiplesIn(stride, lo, hi) != []
    ensures var m := MultiplesIn(stride, lo, hi); m[|m| - 1] % stride == 0
  {
    var m := MultiplesIn(stride, lo, hi);
    MultiplesAre(stride, lo, hi);
    assert m[|m| - 1] in m;
  }

  lemma NoMultiple(stride: nat, lo: nat, hi: nat)
    requires stride > 0 && lo <= hi && MultiplesIn(stride, lo, hi) == []
    ensures hi < lo + stride
  {
    CountMultiples(stride, lo, hi);
    CountBelowBounds(stride, lo);
    CountBelowBounds(stride, hi);
  }

  lemma NextMultiple(last: nat, x: nat, s: nat)
    requires s > 0 && last % s == 0 && last < x <= last + s
    ensures x % s == 0 <==> x == last + s
  {
    assert last == (last / s) * s;
    if x == last + s {
      ModUnique(x, last / s + 1, 0, s);
    } else {
      ModUnique(x, last / s, x - last, s);
    }
  }
}
