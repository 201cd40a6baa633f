/** The percentile of a sorted, non-empty list, as the driver and as the summarizer compute it, over the reals. */
module Percentile {

  predicate Sorted(s: seq<real>) { forall i, j :: 0 <= i <= j < |s| ==> s[i] <= s[j] }

  /** Rounding up. */
  function Ceiling(x: real): int { -((-x).Floor) }

  /** The driver's. */
  function Driver(s: seq<real>, p: real): real
    requires s != [] && 0.0 <= p <= 1.0
  {
    if |s| == 1 then s[0]
    else
      PositionInRange(s, p);
      var pos := p * (|s| - 1) as real;
      var lo, hi := pos.Floor, Ceiling(pos);
      if lo == hi then s[lo]
      else
        var weight := pos - lo as real;
        s[lo] * (1.0 - weight) + s[hi] * weight
  }

  /** The summarizer's interpolation at a position. */
  function At(s: seq<real>, pos: real): real
    requires |s| > 1 && 0.0 <= pos && 0 <= pos.Floor < |s|
  {
    var lo := pos.Floor;
    var hi := if lo + 1 < |s| - 1 then lo + 1 else |s| - 1;
    var weight := pos - lo as real;
    s[lo] * (1.0 - weight) + s[hi] * weight
  }

  /** The summarizer's. */
  function Summarizer(s: seq<real>, p: real): real
    requires s != [] && 0.0 <= p <= 1.0
  {
    if |s| == 1 then s[0]
    else
      PositionInRange(s, p);
      At(s, p * (|s| - 1) as real)
  }

  lemma PositionInRange(s: seq<real>, p: real)
    requires s != [] && 0.0 <= p <= 1.0
    ensures var pos := p * (|s| - 1) as real;
            0.0 <= pos <= (|s| - 1) as real && 0 <= pos.Floor <= |s| - 1 && pos.Floor <= Ceiling(pos) <= |s| - 1
  {
    var n: nat := |s| - 1;
    ProductInRange(p, n as real);
    FloorInRange(p * n as real, n);
  }

  lemma ProductInRange(p: real, n: real)
    requires 0.0 <= p <= 1.0 && 0.0 <= n
    ensures 0.0 <= p * n <= n
  {
    NotNegative(p, n);
    NotNegative(1.0 - p, n);
    assert (1.0 - p) * n == n - p * n;
  }

  lemma FloorInRange(x: real, n: nat)
    requires 0.0 <= x <= n as real
    ensures 0 <= x.Floor <= n && x.Floor <= Ceiling(x) <= n
  {
  }

  lemma NotNegative(x: real, y: real)
    requires 0.0 <= x && 0.0 <= y
    ensures 0.0 <= x * y
  {
  }

  /** Interpolation is a step from the lower neighbour. */
  lemma StepFrom(a: real, b: real, w: real)
    ensures a * (1.0 - w) + b * w == a + (b - a) * w
  {
    assert a * (1.0 - w) == a - a * w;
    assert (b - a) * w == b * w - a * w;
  }

  /** A point between two neighbours. */
  lemma Between(a: real, b: real, w: real)
    requires a <= b && 0.0 <= w <= 1.0
    ensures a <= a * (1.0 - w) + b * w <= b
  {
    StepFrom(a, b, w);
    NotNegative(b - a, w);
    NotNegative(b - a, 1.0 - w);
    assert (b - a) * (1.0 - w) == (b - a) - (b - a) * w;
  }

  lemma FurtherBetween(a: real, b: real, w: real, w': real)
    requires a <= b && w <= w'
    ensures a * (1.0 - w) + b * w <= a * (1.0 - w') + b * w'
  {
    StepFrom(a, b, w);
    StepFrom(a, b, w');
    NotNegative(b - a, w' - w);
    assert (b - a) * (w' - w) == (b - a) * w' - (b - a) * w;
  }

  /** The two agree on every non-empty list and every share. */
  lemma TheyAgree(s: seq<real>, p: real)
    requires s != [] && 0.0 <= p <= 1.0
    ensures Driver(s, p) == Summarizer(s, p)
  {
    PositionInRange(s, p);
    var pos := p * (|s| - 1) as real;
    var lo := pos.Floor;
    if pos == lo as real {
      assert Ceiling(pos) == lo;
    } else {
      assert Ceiling(pos) == lo + 1;
    }
  }

  /** The neighbour above. */
  function Upper(s: seq<real>, lo: nat): nat
    requires lo < |s|
  {
    if lo + 1 < |s| - 1 then lo + 1 else |s| - 1
  }

  lemma AtIsBetween(s: seq<real>, x: real)
    requires |s| > 1 && Sorted(s) && 0.0 <= x && 0 <= x.Floor < |s|
    ensures s[x.Floor] <= At(s, x) <= s[Upper(s, x.Floor)]
  {
    Between(s[x.Floor], s[Upper(s, x.Floor)], x - x.Floor as real);
  }

  /** The result lies between the least and the greatest sample. */
  lemma IsBounded(s: seq<real>, p: real)
    requires s != [] && Sorted(s) && 0.0 <= p <= 1.0
    ensures s[0] <= Summarizer(s, p) <= s[|s| - 1]
  {
    if |s| > 1 {
      PositionInRange(s, p);
      AtIsBetween(s, p * (|s| - 1) as real);
    }
  }

  lemma AtIsMonotone(s: seq<real>, x: real, y: real)
    requires |s| > 1 && Sorted(s) && 0.0 <= x <= y && 0 <= x.Floor && y.Floor < |s|
    ensures At(s, x) <= At(s, y)
  {
    if x.Floor == y.Floor {
      var lo := x.Floor;
      FurtherBetween(s[lo], s[Upper(s, lo)], x - lo as real, y - lo as real);
    } else {
      AtIsBetween(s, x);
      AtIsBetween(s, y);
      assert s[Upper(s, x.Floor)] <= s[y.Floor];
    }
  }

  /** And it grows with the share. */
  lemma IsMonotone(s: seq<real>, p: real, q: real)
    requires s != [] && Sorted(s) && 0.0 <= p <= q <= 1.0
    ensures Summarizer(s, p) <= Summarizer(s, q)
  {
    if |s| > 1 {
      PositionInRange(s, p);
      PositionInRange(s, q);
      ProductsInOrder(p, q, (|s| - 1) as real);
      AtIsMonotone(s, p * (|s| - 1) as real, q * (|s| - 1) as real);
    }
  }

  lemma ProductsInOrder(p: real, q: real, n: real)
    requires p <= q && n >= 0.0
    ensures p * n <= q * n
  {
    NotNegative(q - p, n);
    assert (q - p) * n == q * n - p * n;
  }

  /** At a rank the result is the sample of that rank, and between two ranks it moves evenly from one to the other. */
  lemma IsInterpolation(s: seq<real>, p: real, k: nat, w: real)
    requires k + 1 < |s| && 0.0 <= p <= 1.0 && 0.0 <= w <= 1.0
    requires p * (|s| - 1) as real == k as real + w
    ensures Driver(s, p) == s[k] + (s[k + 1] - s[k]) * w
    ensures w == 0.0 ==> Driver(s, p) == s[k]
    ensures w == 1.0 ==> Driver(s, p) == s[k + 1]
  {
    PositionInRange(s, p);
    var pos := p * (|s| - 1) as real;
    StepFrom(s[k], s[k + 1], w);
    if w == 0.0 {
      assert pos.Floor == k && Ceiling(pos) == k;
    } else if w == 1.0 {
      assert pos.Floor == k + 1 && Ceiling(pos) == k + 1;
    } else {
      assert pos.Floor == k && Ceiling(pos) == k + 1;
    }
  }
}
