/** The fixture's histograms, as the loader's counters build them, and the double counting that ties them together. */
module FixtureMetrics {
  import opened FixtureCodec
  import opened Text

  // ----- counters -----

  function Count<T(==)>(xs: seq<T>, x: T): nat {
    multiset(xs)[x]
  }

  ghost predicate NoRepeats<T(!new)>(ks: seq<T>) {
    forall i, j :: 0 <= i < j < |ks| ==> ks[i] != ks[j]
  }

  /** `ks` lists what occurs in `xs`, once each, in some order. */
  ghost predicate Enumerates<T(!new)>(ks: seq<T>, xs: seq<T>) {
    NoRepeats(ks) && forall x :: x in ks <==> x in xs
  }

  /** The order in which a counter holds its keys: first occurrences. */
  function Keys<T(==)>(xs: seq<T>): seq<T> {
    if xs == [] then []
    else if xs[|xs| - 1] in xs[..|xs| - 1] then Keys(xs[..|xs| - 1])
    else Keys(xs[..|xs| - 1]) + [xs[|xs| - 1]]
  }

  /** A counter's values, in key order. */
  function Values<T(==)>(xs: seq<T>): seq<nat> { CountsOf(Keys(xs), xs) }

  function CountsOf<T(==)>(ks: seq<T>, xs: seq<T>): seq<nat> {
    seq(|ks|, i requires 0 <= i < |ks| => Count(xs, ks[i]))
  }

  lemma {:induction false} KeysEnumerate<T(!new)>(xs: seq<T>)
    ensures Enumerates(Keys(xs), xs)
  {
    if xs != [] {
      var before, last := xs[..|xs| - 1], xs[|xs| - 1];
      KeysEnumerate(before);
      assert xs == before + [last];
    }
  }

  // ----- sums -----

  ghost function Sum(ns: seq<nat>): nat {
    if ns == [] then 0 else Sum(ns[..|ns| - 1]) + ns[|ns| - 1]
  }

  /** `weight(k)` for every occurrence in `xs`. */
  ghost function SumOver<T>(xs: seq<T>, weight: T -> nat): nat {
    if xs == [] then 0 else SumOver(xs[..|xs| - 1], weight) + weight(xs[|xs| - 1])
  }

  /** `weight(k)` times the count of `k`, for every key. */
  ghost function Weighted<T>(ks: seq<T>, xs: seq<T>, weight: T -> nat): nat {
    if ks == [] then 0
    else Weighted(ks[..|ks| - 1], xs, weight) + weight(ks[|ks| - 1]) * Count(xs, ks[|ks| - 1])
  }

  lemma CountSnoc<T>(xs: seq<T>, x: T, k: T)
    ensures Count(xs + [x], k) == Count(xs, k) + if k == x then 1 else 0
  {
  }

  /** One more occurrence of `x` adds its weight once. */
  lemma {:induction false} WeightedSnoc<T(!new)>(ks: seq<T>, xs: seq<T>, x: T, weight: T -> nat)
    requires NoRepeats(ks)
    ensures Weighted(ks, xs + [x], weight) == Weighted(ks, xs, weight) + if x in ks then weight(x) else 0
    decreases |ks|
  {
    if ks != [] {
      var before, k := ks[..|ks| - 1], ks[|ks| - 1];
      WeightedSnoc(before, xs, x, weight);
      CountSnoc(xs, x, k);
      assert ks == before + [k];
      assert k == x ==> x !in before;
      assert weight(k) * (Count(xs, k) + 1) == weight(k) * Count(xs, k) + weight(k);
    }
  }

  lemma {:induction false} WeightedOfNothing<T>(ks: seq<T>, weight: T -> nat)
    ensures Weighted(ks, [], weight) == 0
  {
    if ks != [] { WeightedOfNothing(ks[..|ks| - 1], weight); }
  }

  /** Double counting: adding up over the keys with their counts is adding up over the occurrences, in whatever order the
      keys are listed.
  */
  lemma {:induction false} GroupedSum<T(!new)>(ks: seq<T>, xs: seq<T>, weight: T -> nat)
    requires NoRepeats(ks) && forall x :: x in xs ==> x in ks
    ensures Weighted(ks, xs, weight) == SumOver(xs, weight)
    decreases |xs|
  {
    if xs == [] {
      WeightedOfNothing(ks, weight);
    } else {
      var before, last := xs[..|xs| - 1], xs[|xs| - 1];
      assert xs == before + [last];
      GroupedSum(ks, before, weight);
      WeightedSnoc(ks, before, last, weight);
    }
  }

  lemma {:induction false} SumOfOnes<T>(xs: seq<T>, weight: T -> nat)
    requires forall x :: weight(x) == 1
    ensures SumOver(xs, weight) == |xs|
  {
    if xs != [] { SumOfOnes(xs[..|xs| - 1], weight); }
  }

  lemma {:induction false} SumOfSelf(ns: seq<nat>, weight: nat -> nat)
    requires forall n :: weight(n) == n
    ensures SumOver(ns, weight) == Sum(ns)
  {
    if ns != [] { SumOfSelf(ns[..|ns| - 1], weight); }
  }

  /** The values of a counter add up to the number of occurrences. */
  lemma ValuesAddUp<T(!new)>(xs: seq<T>)
    ensures Sum(Values(xs)) == |xs|
  {
    var one := (x: T) => 1;
    KeysEnumerate(xs);
    GroupedSum(Keys(xs), xs, one);
    SumOfOnes(xs, one);
    ValuesAreWeighted(Keys(xs), xs, one);
  }

  lemma {:induction false} ValuesAreWeighted<T>(ks: seq<T>, xs: seq<T>, one: T -> nat)
    requires forall x :: one(x) == 1
    ensures Sum(CountsOf(ks, xs)) == Weighted(ks, xs, one)
    decreases |ks|
  {
    if ks != [] {
      ValuesAreWeighted(ks[..|ks| - 1], xs, one);
      assert CountsOf(ks, xs)[..|ks| - 1] == CountsOf(ks[..|ks| - 1], xs);
    }
  }

  // ----- the fixture's histograms -----

  function AllTags(records: seq<Record>): seq<string> {
    if records == [] then [] else AllTags(records[..|records| - 1]) + records[|records| - 1].tags
  }

  function TagCounts(records: seq<Record>): seq<nat> {
    seq(|records|, i requires 0 <= i < |records| => |records[i].tags|)
  }

  /** The stored header value of each record. */
  function HeaderValues(records: seq<Record>): seq<string> {
    seq(|records|, i requires 0 <= i < |records| => Join(records[i].tags, SPACE))
  }

  ghost function Id(): nat -> nat { (n: nat) => n }

  ghost function One(): nat -> nat { (n: nat) => 1 }

  lemma {:induction false} TagCountsAddUp(records: seq<Record>)
    ensures Sum(TagCounts(records)) == |AllTags(records)|
  {
    if records != [] {
      var before := records[..|records| - 1];
      TagCountsAddUp(before);
      assert TagCounts(records)[..|records| - 1] == TagCounts(before);
    }
  }

  /** Any listing of a histogram's keys gives its two totals: the values' sum and how many there are. */
  lemma HistogramTotals(ks: seq<nat>, values: seq<nat>)
    requires Enumerates(ks, values)
    ensures Weighted(ks, values, Id()) == Sum(values) && Weighted(ks, values, One()) == |values|
  {
    GroupedSum(ks, values, Id());
    GroupedSum(ks, values, One());
    SumOfSelf(values, Id());
    SumOfOnes(values, One());
  }

  /** The tags-per-object histogram, weighted by its keys, counts the relationships; and its counts, the objects. */
  lemma TagsPerObjectBalances(records: seq<Record>, ks: seq<nat>)
    requires Enumerates(ks, TagCounts(records))
    ensures Weighted(ks, TagCounts(records), Id()) == |AllTags(records)|
    ensures Weighted(ks, TagCounts(records), One()) == |records|
  {
    HistogramTotals(ks, TagCounts(records));
    TagCountsAddUp(records);
  }

  /** The fan-out histogram, weighted by its keys, counts the relationships; and its counts, the tag universe. */
  lemma FanoutBalances(records: seq<Record>, ks: seq<nat>)
    requires Enumerates(ks, Values(AllTags(records)))
    ensures Weighted(ks, Values(AllTags(records)), Id()) == |AllTags(records)|
    ensures Weighted(ks, Values(AllTags(records)), One()) == |set t | t in AllTags(records)|
  {
    HistogramTotals(ks, Values(AllTags(records)));
    ValuesAddUp(AllTags(records));
    KeysEnumerate(AllTags(records));
    EnumerationSize(Keys(AllTags(records)), AllTags(records));
  }

  /** The set-reuse histogram, weighted by its keys, counts the objects; and its counts, the exact tag sets. */
  lemma SetReuseBalances(records: seq<Record>, ks: seq<nat>)
    requires Enumerates(ks, Values(HeaderValues(records)))
    ensures Weighted(ks, Values(HeaderValues(records)), Id()) == |records|
    ensures Weighted(ks, Values(HeaderValues(records)), One()) == |set v | v in HeaderValues(records)|
  {
    HistogramTotals(ks, Values(HeaderValues(records)));
    ValuesAddUp(HeaderValues(records));
    KeysEnumerate(HeaderValues(records));
    EnumerationSize(Keys(HeaderValues(records)), HeaderValues(records));
  }

  lemma EnumerationSize<T(!new)>(ks: seq<T>, xs: seq<T>)
    requires Enumerates(ks, xs)
    ensures |ks| == |set x | x in xs|
  {
    NoRepeatsSize(ks);
    assert (set x | x in ks) == set x | x in xs;
  }

  lemma {:induction false} NoRepeatsSize<T(!new)>(ks: seq<T>)
    requires NoRepeats(ks)
    ensures |set k | k in ks| == |ks|
  {
    if ks != [] {
      var before, last := ks[..|ks| - 1], ks[|ks| - 1];
      NoRepeatsSize(before);
      assert ks == before + [last] && last !in before;
      assert (set k | k in ks) == (set k | k in before) + {last};
    }
  }
}
