/** How much of a phase lies in a window of time, from the phase's start and end markers.  Times are integer nanoseconds.
*/
module PhaseIntervals {

  /** `start` up to but not including `end`. */
  datatype Interval = Interval(start: int, end: int)

  /** A phase's whole history: its intervals, one strictly after another.  A phase that has not ended is one whose last
      end is still to come.
  */
  ghost predicate Ordered(h: seq<Interval>) {
    && (forall i :: 0 <= i < |h| ==> h[i].start < h[i].end)
    && forall i, j :: 0 <= i < j < |h| ==> h[i].end < h[j].start
  }

  function Max(a: int, b: int): int { if a < b then b else a }

  function Min(a: int, b: int): int { if a < b then a else b }

  function Clip(i: Interval, a: int, b: int): nat {
    Max(0, Min(i.end, b) - Max(i.start, a))
  }

  function Overlap(h: seq<Interval>, a: int, b: int): nat {
    if h == [] then 0 else Overlap(h[..|h| - 1], a, b) + Clip(h[|h| - 1], a, b)
  }

  lemma OverlapSnoc(h: seq<Interval>, i: Interval, a: int, b: int)
    ensures Overlap(h + [i], a, b) == Overlap(h, a, b) + Clip(i, a, b)
  {
    assert (h + [i])[..|h|] == h;
  }

  /** Adjacent windows add up. */
  lemma {:induction false} OverlapSplits(h: seq<Interval>, a: int, b: int, c: int)
    requires a <= b <= c && forall i :: 0 <= i < |h| ==> h[i].start <= h[i].end
    ensures Overlap(h, a, b) + Overlap(h, b, c) == Overlap(h, a, c)
  {
    if h != [] { OverlapSplits(h[..|h| - 1], a, b, c); }
  }

  lemma {:induction false} OverlapOfNothing(h: seq<Interval>, a: int, b: int)
    requires forall i :: 0 <= i < |h| ==> h[i].start >= b
    ensures Overlap(h, a, b) == 0
  {
    if h != [] { OverlapOfNothing(h[..|h| - 1], a, b); }
  }

  lemma {:induction false} OverlapAppend(h: seq<Interval>, g: seq<Interval>, a: int, b: int)
    ensures Overlap(h + g, a, b) == Overlap(h, a, b) + Overlap(g, a, b)
    decreases |g|
  {
    if g == [] {
      assert h + g == h;
    } else {
      OverlapAppend(h, g[..|g| - 1], a, b);
      assert (h + g)[..|h + g| - 1] == h + g[..|g| - 1];
    }
  }

  // ----- what has been read of a history -----

  datatype Known = Known(done: seq<Interval>, open: Open)

  datatype Open = Since(start: int) | Closed

  /** Markers alternate: number `2 * i` starts interval `i` and number `2 * i + 1` ends it. */
  function Stamp(h: seq<Interval>, n: nat): int
    requires n < 2 * |h|
  {
    if n % 2 == 0 then h[n / 2].start else h[n / 2].end
  }

  /** What the first `n` markers tell. */
  function KnownAt(h: seq<Interval>, n: nat): Known
    requires n <= 2 * |h|
  {
    Known(h[..n / 2], if n % 2 == 0 then Closed else Since(h[n / 2].start))
  }

  /** One marker: a start opens an interval, an end closes the open one. */
  function Learn(k: Known, starts: bool, stamp: int): Known {
    if starts then k.(open := Since(stamp))
    else if k.open.Since? && stamp >= k.open.start then Known(k.done + [Interval(k.open.start, stamp)], Closed)
    else k.(open := Closed)
  }

  lemma LearnsNext(h: seq<Interval>, n: nat)
    requires Ordered(h) && n < 2 * |h|
    ensures Learn(KnownAt(h, n), n % 2 == 0, Stamp(h, n)) == KnownAt(h, n + 1)
  {
    if n % 2 == 1 {
      assert (n + 1) / 2 == n / 2 + 1;
      assert h[..n / 2] + [h[n / 2]] == h[..n / 2 + 1];
    }
  }

  /** The sampler's overlap of a window ending now: an open interval counts up to the end of the window. */
  function KnownOverlap(k: Known, a: int, b: int): nat {
    Overlap(k.done, a, b) + if k.open.Since? then Max(0, b - Max(k.open.start, a)) else 0
  }

  /** Every marker stamped up to `t` is among the first `n`. */
  ghost predicate SeenUpTo(h: seq<Interval>, n: nat, t: int) {
    n <= 2 * |h| && forall m: nat :: n <= m < 2 * |h| ==> Stamp(h, m) > t
  }

  lemma OverlapAt(h: seq<Interval>, i: nat, a: int, b: int)
    requires i < |h|
    ensures Overlap(h, a, b) == Overlap(h[..i], a, b) + Clip(h[i], a, b) + Overlap(h[i + 1..], a, b)
  {
    assert h == h[..i + 1] + h[i + 1..];
    assert h[..i + 1] == h[..i] + [h[i]];
    OverlapAppend(h[..i + 1], h[i + 1..], a, b);
    OverlapSnoc(h[..i], h[i], a, b);
  }

  /** What has been read up to the end of a window is enough to measure it. */
  lemma KnownIsEnough(h: seq<Interval>, n: nat, a: int, b: int)
    requires Ordered(h) && SeenUpTo(h, n, b)
    ensures KnownOverlap(KnownAt(h, n), a, b) == Overlap(h, a, b)
  {
    var i := n / 2;
    if n % 2 == 1 {
      OverlapAt(h, i, a, b);
      assert Stamp(h, n) > b;
      LaterThan(h, n, i + 1, a, b);
    } else {
      assert h == h[..i] + h[i..];
      OverlapAppend(h[..i], h[i..], a, b);
      LaterThan(h, n, i, a, b);
    }
  }

  lemma LaterThan(h: seq<Interval>, n: nat, i: nat, a: int, b: int)
    requires SeenUpTo(h, n, b) && n <= 2 * i && i <= |h|
    ensures Overlap(h[i..], a, b) == 0
  {
    forall j | 0 <= j < |h[i..]|
      ensures h[i..][j].start >= b
    {
      assert Stamp(h, 2 * (i + j)) > b;
    }
    OverlapOfNothing(h[i..], a, b);
  }

  // ----- instants -----

  ghost function Range(a: int, b: int): (r: set<int>)
    ensures |r| == Max(0, b - a) && forall x :: x in r <==> a <= x < b
    decreases b - a
  {
    if a >= b then {} else Range(a, b - 1) + {b - 1}
  }

  predicate Within(i: Interval, x: int) { i.start <= x < i.end }

  ghost predicate Inside(h: seq<Interval>, x: int) {
    exists i :: 0 <= i < |h| && Within(h[i], x)
  }

  /** The instants of a window at which the phase is running. */
  ghost function Instants(h: seq<Interval>, a: int, b: int): set<int> {
    set x | x in Range(a, b) && Inside(h, x)
  }

  lemma InsideSnoc(h: seq<Interval>, last: Interval, x: int)
    ensures Inside(h + [last], x) <==> Inside(h, x) || Within(last, x)
  {
    var all := h + [last];
    if Inside(h, x) {
      var i :| 0 <= i < |h| && Within(h[i], x);
      assert Within(all[i], x);
    }
    if Within(last, x) { assert Within(all[|h|], x); }
  }

  lemma OneInterval(h: seq<Interval>, x: int)
    requires Ordered(h) && h != [] && Inside(h[..|h| - 1], x)
    ensures !Within(h[|h| - 1], x)
  {
    var i :| 0 <= i < |h| - 1 && Within(h[..|h| - 1][i], x);
    assert Within(h[i], x);
  }

  ghost function Piece(i: Interval, a: int, b: int): (r: set<int>)
    ensures |r| == Clip(i, a, b)
    ensures forall x :: x in r <==> x in Range(a, b) && Within(i, x)
  {
    Range(Max(i.start, a), Min(i.end, b))
  }

  lemma InstantsSnoc(before: seq<Interval>, last: Interval, a: int, b: int)
    requires Ordered(before + [last])
    ensures Instants(before + [last], a, b) == Instants(before, a, b) + Piece(last, a, b)
    ensures Instants(before, a, b) !! Piece(last, a, b)
  {
    forall x
      ensures Inside(before + [last], x) <==> Inside(before, x) || Within(last, x)
      ensures Inside(before, x) ==> !Within(last, x)
    {
      InsideSnoc(before, last, x);
      assert (before + [last])[..|before|] == before;
      if Inside(before, x) { OneInterval(before + [last], x); }
    }
  }

  lemma InstantsSize(before: seq<Interval>, last: Interval, a: int, b: int)
    requires Ordered(before + [last])
    ensures |Instants(before + [last], a, b)| == |Instants(before, a, b)| + Clip(last, a, b)
  {
    InstantsSnoc(before, last, a, b);
  }

  lemma PrefixIsOrdered(h: seq<Interval>, n: nat)
    requires Ordered(h) && n <= |h|
    ensures Ordered(h[..n])
  {
  }

  /** The overlap is the number of instants. */
  lemma {:induction false} OverlapIsMeasure(h: seq<Interval>, a: int, b: int)
    requires Ordered(h)
    ensures Overlap(h, a, b) == |Instants(h, a, b)|
  {
    if h == [] {
      assert Instants(h, a, b) == {};
    } else {
      var before, last := h[..|h| - 1], h[|h| - 1];
      assert h == before + [last];
      PrefixIsOrdered(h, |h| - 1);
      OverlapIsMeasure(before, a, b);
      InstantsSize(before, last, a, b);
    }
  }
}
