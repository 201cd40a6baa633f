/** `cachetag_purgemap_select`: quickselect in place, with Hoare's partition. */
module Select {

  /** Everything before `left` is no greater, and everything after `right` no smaller, than the part in between. */
  ghost predicate Split(v: seq<nat>, left: nat, right: nat)
    requires left <= right < |v|
  {
    && (forall k, m :: 0 <= k < left <= m < |v| ==> v[k] <= v[m])
    && (forall k, m :: 0 <= k <= right < m < |v| ==> v[k] <= v[m])
  }

  /** `while (values[i] < pivot) i++`, stopped by some element no smaller than the pivot. */
  method ScanUp(values: array<nat>, from: nat, pivot: nat, ghost stop: nat) returns (i: nat)
    requires from <= stop < values.Length && values[stop] >= pivot
    ensures from <= i <= stop && values[i] >= pivot
    ensures forall k :: from <= k < i ==> values[k] < pivot
  {
    i := from;
    while values[i] < pivot
      invariant from <= i <= stop
      invariant forall k :: from <= k < i ==> values[k] < pivot
      decreases stop - i
    {
      i := i + 1;
    }
  }

  /** `while (values[j] > pivot) j--`, stopped by some element no greater than the pivot. */
  method ScanDown(values: array<nat>, from: nat, pivot: nat, ghost stop: nat) returns (j: nat)
    requires stop <= from < values.Length && values[stop] <= pivot
    ensures stop <= j <= from && values[j] <= pivot
    ensures forall k :: j < k <= from ==> values[k] > pivot
  {
    j := from;
    while values[j] > pivot
      invariant stop <= j <= from
      invariant forall k :: j < k <= from ==> values[k] > pivot
      decreases j
    {
      j := j - 1;
    }
  }

  method Swap(values: array<nat>, i: nat, j: nat, ghost left: nat, ghost right: nat)
    requires left <= i < j <= right < values.Length && Split(values[..], left, right)
    modifies values
    ensures values[..] == old(values[..])[i := old(values[j])][j := old(values[i])]
    ensures multiset(values[..]) == old(multiset(values[..]))
    ensures Split(values[..], left, right)
  {
    values[i], values[j] := values[j], values[i];
  }

  lemma SplitAt(v: seq<nat>, left: nat, right: nat, i: nat, j: nat, pivot: nat)
    requires left <= j < right < |v| && j <= i && Split(v, left, right)
    requires forall k :: left <= k < i && k <= right ==> v[k] <= pivot
    requires v[j] <= pivot
    requires forall k :: j < k <= right ==> v[k] >= pivot
    ensures Split(v, left, j) && Split(v, j + 1, right)
  {
  }

  /** Both scans have stopped: everything before `i` is no greater than the pivot, everything after `j` no smaller. */
  ghost predicate Scanned(v: seq<nat>, left: nat, right: nat, i: nat, j: nat, pivot: nat) {
    && left <= i <= right < |v| && left <= j <= right && i <= j + 1
    && (i >= j ==> j < right)
    && (forall k :: left <= k < i ==> v[k] <= pivot)
    && (forall k :: j < k <= right ==> v[k] >= pivot)
    && v[i] >= pivot && v[j] <= pivot
  }

  /** One round of the partition: exchange the two stopped elements and scan on. */
  method Round(values: array<nat>, left: nat, right: nat, i0: nat, j0: nat, pivot: nat) returns (i: nat, j: nat)
    requires i0 < j0 && Scanned(values[..], left, right, i0, j0, pivot) && Split(values[..], left, right)
    modifies values
    ensures Scanned(values[..], left, right, i, j, pivot) && Split(values[..], left, right)
    ensures i0 < i && j < j0
    ensures multiset(values[..]) == old(multiset(values[..]))
  {
    Swap(values, i0, j0, left, right);
    i := ScanUp(values, i0 + 1, pivot, j0);
    j := ScanDown(values, j0 - 1, pivot, i0);
    ghost var next := values[if j < right then j + 1 else j];
  }

  /** One Hoare partition of `values[left..right]` around the middle element. */
  method Partition(values: array<nat>, left: nat, right: nat) returns (j: nat)
    requires left < right < values.Length
    requires Split(values[..], left, right)
    modifies values
    ensures left <= j < right
    ensures Split(values[..], left, j) && Split(values[..], j + 1, right)
    ensures multiset(values[..]) == old(multiset(values[..]))
  {
    var mid := left + (right - left) / 2;
    var pivot := values[mid];
    var i: nat := ScanUp(values, left, pivot, mid);
    j := ScanDown(values, right, pivot, mid);
    while i < j
      invariant Scanned(values[..], left, right, i, j, pivot) && Split(values[..], left, right)
      invariant multiset(values[..]) == old(multiset(values[..]))
      decreases j - i
    {
      i, j := Round(values, left, right, i, j, pivot);
    }
    SplitAt(values[..], left, right, i, j, pivot);
  }

  /** The result has rank `kth`: `kth` elements are no greater and the rest no smaller. */
  method Kth(values: array<nat>, kth: nat) returns (r: nat)
    requires kth < values.Length
    modifies values
    ensures multiset(values[..]) == old(multiset(values[..]))
    ensures r == values[kth]
    ensures forall k :: 0 <= k < kth ==> values[k] <= r
    ensures forall k :: kth < k < values.Length ==> values[k] >= r
  {
    var left, right := 0, values.Length - 1;
    while left != right
      invariant left <= kth <= right < values.Length
      invariant Split(values[..], left, right)
      invariant multiset(values[..]) == old(multiset(values[..]))
      decreases right - left
    {
      var j := Partition(values, left, right);
      if kth <= j { right := j; } else { left := j + 1; }
    }
    r := values[left];
  }

  // ----- what rank means -----

  ghost function CountUpTo(v: seq<nat>, c: nat): nat {
    if v == [] then 0 else CountUpTo(v[..|v| - 1], c) + if v[|v| - 1] <= c then 1 else 0
  }

  lemma CountSnoc(v: seq<nat>, x: nat, c: nat)
    ensures CountUpTo(v + [x], c) == CountUpTo(v, c) + if x <= c then 1 else 0
  {
    assert (v + [x])[..|v|] == v;
  }

  lemma {:induction false} CountAppend(a: seq<nat>, b: seq<nat>, c: nat)
    ensures CountUpTo(a + b, c) == CountUpTo(a, c) + CountUpTo(b, c)
    decreases |b|
  {
    if b == [] {
      assert a + b == a;
    } else {
      var b', x := b[..|b| - 1], b[|b| - 1];
      assert a + b == (a + b') + [x] && b == b' + [x];
      CountSnoc(a + b', x, c);
      CountSnoc(b', x, c);
      CountAppend(a, b', c);
    }
  }

  lemma RemoveOne(w: seq<nat>, i: nat, c: nat)
    requires i < |w|
    ensures CountUpTo(w, c) == CountUpTo(w[..i] + w[i + 1..], c) + if w[i] <= c then 1 else 0
    ensures multiset(w[..i] + w[i + 1..]) == multiset(w) - multiset{w[i]}
  {
    assert w == w[..i] + [w[i]] + w[i + 1..];
    CountAppend(w[..i] + [w[i]], w[i + 1..], c);
    CountSnoc(w[..i], w[i], c);
    CountAppend(w[..i], w[i + 1..], c);
  }

  /** Counting does not depend on the order. */
  lemma {:induction false} CountOfPermutation(v: seq<nat>, w: seq<nat>, c: nat)
    requires multiset(v) == multiset(w)
    ensures CountUpTo(v, c) == CountUpTo(w, c)
    decreases |v|
  {
    assert |v| == |multiset(v)| == |multiset(w)| == |w|;
    if v != [] {
      var n := |v| - 1;
      assert v[n] in multiset(w);
      var i :| 0 <= i < |w| && w[i] == v[n];
      RemoveOne(v, n, c);
      RemoveOne(w, i, c);
      CountOfPermutation(v[..n] + v[n + 1..], w[..i] + w[i + 1..], c);
    }
  }

  lemma {:induction false} CountAll(v: seq<nat>, c: nat)
    ensures (forall k :: 0 <= k < |v| ==> v[k] <= c) ==> CountUpTo(v, c) == |v|
    ensures (forall k :: 0 <= k < |v| ==> v[k] > c) ==> CountUpTo(v, c) == 0
  {
    if v != [] {
      CountAll(v[..|v| - 1], c);
    }
  }

  lemma CountIsBounded(v: seq<nat>, c: nat)
    ensures CountUpTo(v, c) <= |v|
  {
  }

  lemma RankCountsUpTo(v: seq<nat>, kth: nat)
    requires kth < |v|
    requires forall k :: 0 <= k < kth ==> v[k] <= v[kth]
    ensures CountUpTo(v, v[kth]) > kth
  {
    assert v == v[..kth + 1] + v[kth + 1..];
    CountAppend(v[..kth + 1], v[kth + 1..], v[kth]);
    CountAll(v[..kth + 1], v[kth]);
  }

  lemma RankCountsBelow(v: seq<nat>, kth: nat, c: nat)
    requires kth < |v| && c < v[kth]
    requires forall k :: kth < k < |v| ==> v[k] >= v[kth]
    ensures CountUpTo(v, c) <= kth
  {
    assert v == v[..kth] + v[kth..];
    CountAppend(v[..kth], v[kth..], c);
    CountAll(v[kth..], c);
    CountIsBounded(v[..kth], c);
  }

  /** The loop that counts what a cutoff removes. */
  method CountAtMost(values: array<nat>, c: nat) returns (count: nat)
    ensures count == CountUpTo(values[..], c)
  {
    count := 0;
    for u := 0 to values.Length
      invariant count == CountUpTo(values[..u], c)
    {
      assert values[..u + 1] == values[..u] + [values[u]];
      CountSnoc(values[..u], values[u], c);
      if values[u] <= c { count := count + 1; }
    }
    assert values[..values.Length] == values[..];
  }
}
