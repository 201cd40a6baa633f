/** The workload driver's uniform-tags profile: object `obj` carries the `perObject` consecutive virtual positions from
    `obj * perObject` on, each position reduced modulo the tag universe.

    The driver never scans objects for this profile: it computes membership, counts and samples in closed form.  Here
    each closed form is proved to agree with the generated tag lists, on both sides of `perObject >= universe`.
*/
module UniformTags {
  import opened Division

  /** The fields of the driver's configuration that this profile reads; any of them may be zero or negative. */
  datatype Config = Config(objects: int, perObject: int, universe: int, purgeValidate: int) {
    predicate Positive() { objects > 0 && perObject > 0 && universe > 0 }
  }

  /** The tag numbers of one object, in order. */
  function TagsOf(c: Config, obj: nat): seq<nat> {
    if c.perObject <= 0 || c.universe <= 0 then []
    else seq(c.perObject, n requires 0 <= n => (obj * c.perObject + n) % c.universe)
  }

  ghost predicate Carries(c: Config, obj: nat, key: nat) {
    key in TagsOf(c, obj)
  }

  /** `tagsFor` for this profile. */
  method TagsFor(c: Config, obj: nat) returns (tags: seq<nat>)
    requires c.universe > 0
    ensures tags == TagsOf(c, obj)
  {
    tags := [];
    var n := 0;
    while n < c.perObject
      invariant n == |tags| && (c.perObject > 0 ==> n <= c.perObject) && (c.perObject <= 0 ==> n == 0)
      invariant forall k :: 0 <= k < n ==> tags[k] == (obj * c.perObject + k) % c.universe
    {
      tags := tags + [(obj * c.perObject + n) % c.universe];
      n := n + 1;
    }
  }

  // ----- the closed forms -----

  /** `uniformExpectedCount` */
  function ExpectedCount(c: Config, key: nat): int {
    if c.objects <= 0 || c.perObject <= 0 || c.universe <= 0 then 0
    else if c.perObject >= c.universe then c.objects
    else
      var total := c.objects * c.perObject;
      if key >= total then 0 else (total - 1 - key) / c.universe + 1
  }

  /** `uniformObjectHasKey` */
  predicate ObjectHasKey(c: Config, obj: int, key: nat) {
    if obj < 0 || obj >= c.objects || c.perObject <= 0 || c.universe <= 0 then false
    else if c.perObject >= c.universe then true
    else
      var start := obj * c.perObject;
      var pos := if key < start then key + (start - key + c.universe - 1) / c.universe * c.universe else key;
      pos < start + c.perObject
  }

  datatype Match = Match(obj: int, ok: bool)

  /** `uniformMatchingObjectForSample` */
  function MatchingObject(c: Config, key: nat, sample: nat, samples: int): Match {
    var samples := if samples < 1 then 1 else samples;
    var count := ExpectedCount(c, key);
    if count < 1 then Match(0, false)
    else
      var spread := sample * count / samples;
      var target := if spread >= count then count - 1 else spread;
      if c.perObject >= c.universe then Match(target, target < c.objects)
      else
        var obj := (key + target * c.universe) / c.perObject;
        Match(obj, obj < c.objects)
  }

  // ----- membership -----

  /** Position `p` is one of the object's positions and has the key's remainder. */
  lemma PositionCarries(c: Config, obj: nat, key: nat, p: int)
    requires c.Positive() && obj * c.perObject <= p < obj * c.perObject + c.perObject && p % c.universe == key
    ensures Carries(c, obj, key)
  {
    assert TagsOf(c, obj)[p - obj * c.perObject] == key;
  }

  lemma CarriesHasPosition(c: Config, obj: nat, key: nat) returns (p: nat)
    requires c.Positive() && Carries(c, obj, key)
    ensures obj * c.perObject <= p < obj * c.perObject + c.perObject && p % c.universe == key
  {
    var n :| 0 <= n < |TagsOf(c, obj)| && TagsOf(c, obj)[n] == key;
    MulOrder(0, obj, c.perObject);
    p := obj * c.perObject + n;
  }

  /** With at least as many tags as the universe holds, every object carries every key. */
  lemma EveryObjectCarries(c: Config, obj: nat, key: nat)
    requires c.Positive() && key < c.universe <= c.perObject
    ensures Carries(c, obj, key)
  {
    var start := obj * c.perObject;
    var n := ResidueAfter(start, key, c.universe);
    PositionCarries(c, obj, key, start + n);
  }

  /** Positions with the key's remainder are `key`, `key + universe`, and so on. */
  lemma PositionOfKey(c: Config, key: nat, p: nat) returns (t: nat)
    requires c.Positive() && key < c.universe && p % c.universe == key
    ensures p == key + t * c.universe
  {
    t := p / c.universe;
  }

  lemma NextPosition(start: nat, u: nat, key: nat, pos: int)
    requires key < u && pos == if key < start then key + (start - key + u - 1) / u * u else key
    ensures pos >= start && pos % u == key
    ensures forall t: nat :: key + t * u >= start ==> key + t * u >= pos
  {
    QuotientIs(key, u, 0, key);
    if key < start {
      var steps := (start - key + u - 1) / u;
      CeilingSteps(start - key, u);
      RemainderOfSum(key, steps, u);
      forall t: nat | key + t * u >= start
        ensures key + t * u >= pos
      {
        CeilingIsLeast(start - key, u, t);
      }
    } else {
      forall t: nat
        ensures key + t * u >= key
      {
        MulOrder(0, t, u);
      }
    }
  }

  /** The membership test is exact. */
  lemma HasKeyIsCarries(c: Config, obj: int, key: nat)
    requires key < c.universe
    ensures ObjectHasKey(c, obj, key) <==> 0 <= obj < c.objects && Carries(c, obj, key)
  {
    if 0 <= obj < c.objects && c.Positive() {
      if c.perObject >= c.universe {
        EveryObjectCarries(c, obj, key);
      } else {
        var start := obj * c.perObject;
        var pos := if key < start then key + (start - key + c.universe - 1) / c.universe * c.universe else key;
        NextPosition(start, c.universe, key, pos);
        if pos < start + c.perObject { PositionCarries(c, obj, key, pos); }
        if Carries(c, obj, key) {
          var p := CarriesHasPosition(c, obj, key);
          var t := PositionOfKey(c, key, p);
        }
      }
    }
  }

  // ----- counting -----

  ghost predicate IsCarrier(c: Config, obj: nat, key: nat) {
    obj < c.objects && Carries(c, obj, key)
  }

  /** The objects that carry the key, by brute force. */
  ghost function Carriers(c: Config, key: nat): set<nat> {
    set obj: nat | obj < c.objects && IsCarrier(c, obj, key)
  }

  /** In the sparse case the carriers are, in order, the objects at positions `key`, `key + universe`, ... */
  function CarrierAt(c: Config, key: nat, t: nat): (obj: nat)
    requires c.Positive()
  {
    (key + t * c.universe) / c.perObject
  }

  lemma CarrierInRange(c: Config, key: nat, t: nat)
    requires c.Positive() && key < c.universe && c.perObject < c.universe
    ensures t < ExpectedCount(c, key) <==> CarrierAt(c, key, t) < c.objects
  {
    var total := c.objects * c.perObject;
    var p := key + t * c.universe;
    QuotientAtLeast(p, c.perObject, c.objects);
    MulOrder(0, t, c.universe);
    if key < total { QuotientAtLeast(total - 1 - key, c.universe, t); }
  }

  lemma CarrierCarries(c: Config, key: nat, t: nat)
    requires c.Positive() && key < c.universe && c.perObject < c.universe
    ensures Carries(c, CarrierAt(c, key, t), key)
  {
    var p := key + t * c.universe;
    QuotientIs(p, c.universe, t, key);
    assert p == p / c.perObject * c.perObject + p % c.perObject;
    PositionCarries(c, CarrierAt(c, key, t), key, p);
  }

  lemma CarriersAreEnumerated(c: Config, key: nat, obj: nat) returns (t: nat)
    requires c.Positive() && key < c.universe && c.perObject < c.universe && Carries(c, obj, key)
    ensures CarrierAt(c, key, t) == obj
  {
    var p := CarriesHasPosition(c, obj, key);
    t := PositionOfKey(c, key, p);
    QuotientIs(p, c.perObject, obj, p - obj * c.perObject);
  }

  lemma CarriersIncrease(c: Config, key: nat, t: nat, t': nat)
    requires c.Positive() && c.perObject < c.universe && t < t'
    ensures CarrierAt(c, key, t) < CarrierAt(c, key, t')
  {
    MulOrder(t + 1, t', c.universe);
    assert (t + 1) * c.universe == t * c.universe + c.universe;
    QuotientStep(key + t * c.universe, key + t' * c.universe, c.perObject);
  }

  /** The closed-form count is the number of objects whose generated list holds the key. */
  lemma ExpectedCountIsExact(c: Config, key: nat)
    requires key < c.universe
    ensures ExpectedCount(c, key) == |Carriers(c, key)|
  {
    if !c.Positive() {
      assert Carriers(c, key) == {};
    } else if c.perObject >= c.universe {
      forall obj: nat | obj < c.objects
        ensures IsCarrier(c, obj, key)
      {
        EveryObjectCarries(c, obj, key);
      }
      assert Carriers(c, key) == Below(c.objects);
    } else {
      SparseCount(c, key);
    }
  }

  lemma SparseCount(c: Config, key: nat)
    requires c.Positive() && key < c.universe && c.perObject < c.universe
    ensures 0 <= ExpectedCount(c, key) == |Carriers(c, key)|
  {
    var count := ExpectedCount(c, key);
    if key < c.objects * c.perObject { QuotientAtLeast(c.objects * c.perObject - 1 - key, c.universe, 0); }
    var f := (t: nat) => CarrierAt(c, key, t);
    forall i: nat, j: nat | i < j < count
      ensures f(i) < f(j)
    {
      CarriersIncrease(c, key, i, j);
    }
    ImageSize(f, count);
    forall obj: nat
      ensures obj in Image(f, count) ==> IsCarrier(c, obj, key)
      ensures IsCarrier(c, obj, key) ==> obj in Image(f, count)
    {
      if obj in Image(f, count) {
        var t: nat :| t < count && f(t) == obj;
        CarrierInRange(c, key, t);
        CarrierCarries(c, key, t);
      }
      if IsCarrier(c, obj, key) {
        var t := CarriersAreEnumerated(c, key, obj);
        CarrierInRange(c, key, t);
        assert f(t) == obj;
      }
    }
    assert Carriers(c, key) == Image(f, count);
  }

  // ----- sampling -----

  /** Spreading `samples` picks over at least as many places never leaves the range and never repeats one. */
  lemma SpreadIncreases(n: nat, n': nat, count: nat, samples: nat)
    requires n < n' < samples <= count
    ensures n * count / samples < n' * count / samples < count
  {
    MulOrder(n + 1, n', count);
    assert (n + 1) * count == n * count + count;
    QuotientStep(n * count, n' * count, samples);
    MulOrder(n' + 1, samples, count);
    assert (n' + 1) * count == n' * count + count && samples * count == count * samples;
    QuotientAtLeast(n' * count, samples, count);
  }

  lemma SpreadInRange(n: nat, count: nat, samples: nat)
    requires n < samples <= count
    ensures 0 <= n * count / samples < count
  {
    MulOrder(0, n, count);
    QuotientAtLeast(n * count, samples, 0);
    MulOrder(n + 1, samples, count);
    assert (n + 1) * count == n * count + count && samples * count == count * samples;
    QuotientAtLeast(n * count, samples, count);
  }

  /** Every pick succeeds, without the clamp, on an object that carries the key. */
  lemma SampleCarries(c: Config, key: nat, n: nat, samples: nat)
    requires c.Positive() && key < c.universe && n < samples <= ExpectedCount(c, key)
    ensures MatchingObject(c, key, n, samples).ok
    ensures 0 <= MatchingObject(c, key, n, samples).obj
    ensures IsCarrier(c, MatchingObject(c, key, n, samples).obj, key)
  {
    SpreadInRange(n, ExpectedCount(c, key), samples);
    var target: nat := n * ExpectedCount(c, key) / samples;
    if c.perObject >= c.universe {
      EveryObjectCarries(c, target, key);
    } else {
      CarrierInRange(c, key, target);
      CarrierCarries(c, key, target);
    }
  }

  /** Later picks give later objects. */
  lemma SamplesIncrease(c: Config, key: nat, n: nat, n': nat, samples: nat)
    requires c.Positive() && key < c.universe && n < n' < samples <= ExpectedCount(c, key)
    ensures MatchingObject(c, key, n, samples).obj < MatchingObject(c, key, n', samples).obj
  {
    var count := ExpectedCount(c, key);
    SpreadIncreases(n, n', count, samples);
    SpreadInRange(n, count, samples);
    if c.perObject < c.universe { CarriersIncrease(c, key, n * count / samples, n' * count / samples); }
  }

  /** The objects below `bound` that carry the key. */
  ghost function CarriersBelow(c: Config, key: nat, bound: int): set<nat> {
    set obj: nat | obj < bound && obj < c.objects && IsCarrier(c, obj, key)
  }

  /** Before carrier number `t` there are `t` carriers. */
  lemma CarriersBeforeCarrier(c: Config, key: nat, t: nat)
    requires c.Positive() && key < c.universe && c.perObject < c.universe && t < ExpectedCount(c, key)
    ensures |CarriersBelow(c, key, CarrierAt(c, key, t))| == t
  {
    CarrierInRange(c, key, t);
    var bound := CarrierAt(c, key, t);
    var f := (i: nat) => CarrierAt(c, key, i);
    forall i: nat, j: nat | i < j < t
      ensures f(i) != f(j)
    {
      CarriersIncrease(c, key, i, j);
    }
    ImageSize(f, t);
    forall obj: nat
      ensures obj in Image(f, t) <==> obj in CarriersBelow(c, key, bound)
    {
      if obj in Image(f, t) {
        var i: nat :| i < t && f(i) == obj;
        CarriersIncrease(c, key, i, t);
        CarrierCarries(c, key, i);
      }
      if obj in CarriersBelow(c, key, bound) {
        var i := CarriersAreEnumerated(c, key, obj);
        if t < i { CarriersIncrease(c, key, t, i); }
        assert f(i) == obj;
      }
    }
    assert Image(f, t) == CarriersBelow(c, key, bound);
  }

  lemma SpreadIsShare(n: nat, count: nat, samples: nat)
    requires n < samples <= count
    ensures var target := n * count / samples; target * samples <= n * count < (target + 1) * samples
  {
    QuotientAtLeast(n * count, samples, n * count / samples);
    QuotientAtLeast(n * count, samples, n * count / samples + 1);
  }

  /** With every object a carrier, there are as many carriers below a bound as objects. */
  lemma AllBelow(c: Config, key: nat, bound: nat)
    requires c.Positive() && key < c.universe <= c.perObject && bound <= c.objects
    ensures |CarriersBelow(c, key, bound)| == bound
  {
    forall obj: nat | obj < bound
      ensures IsCarrier(c, obj, key)
    {
      EveryObjectCarries(c, obj, key);
    }
    assert CarriersBelow(c, key, bound) == Below(bound);
  }

  /** Before a pick lie as many carriers as the spread says. */
  lemma CarriersBeforePick(c: Config, key: nat, n: nat, samples: nat)
    requires c.Positive() && key < c.universe && n < samples <= ExpectedCount(c, key)
    ensures |CarriersBelow(c, key, MatchingObject(c, key, n, samples).obj)| == n * ExpectedCount(c, key) / samples
  {
    SpreadInRange(n, ExpectedCount(c, key), samples);
    var target: nat := n * ExpectedCount(c, key) / samples;
    if c.perObject >= c.universe {
      AllBelow(c, key, target);
    } else {
      CarriersBeforeCarrier(c, key, target);
    }
  }

  /** The picks are spread evenly: before pick number `n` lies that share of all carriers, rounded down. */
  lemma SampleIsSpread(c: Config, key: nat, n: nat, samples: nat)
    requires c.Positive() && key < c.universe && n < samples <= ExpectedCount(c, key)
    ensures var before := |CarriersBelow(c, key, MatchingObject(c, key, n, samples).obj)|;
            before * samples <= n * |Carriers(c, key)| < (before + 1) * samples
  {
    ExpectedCountIsExact(c, key);
    CarriersBeforePick(c, key, n, samples);
    SpreadIsShare(n, |Carriers(c, key)|, samples);
  }

  function Min(a: int, b: int): int { if a < b then a else b }

  /** `sampledObjectsForKey` for a key of the universe: as many objects as asked for and available, all different, all
      carrying the key, and spread evenly over all that do.  The not-found result and the duplicate test never drop one.
  */
  method SampledObjects(c: Config, key: nat) returns (probes: seq<int>)
    requires key < c.universe
    ensures |probes| == if c.purgeValidate < 1 then 0 else Min(c.purgeValidate, |Carriers(c, key)|)
    ensures forall i :: 0 <= i < |probes| ==> probes[i] >= 0 && IsCarrier(c, probes[i], key)
    ensures forall i, j :: 0 <= i < j < |probes| ==> probes[i] < probes[j]
    ensures forall n :: 0 <= n < |probes| ==>
              var before := |CarriersBelow(c, key, probes[n])|;
              before * |probes| <= n * |Carriers(c, key)| < (before + 1) * |probes|
  {
    var expected := ExpectedCount(c, key);
    ExpectedCountIsExact(c, key);
    var samples := if c.purgeValidate > expected then expected else c.purgeValidate;
    if samples < 1 { return []; }
    var seen: set<int> := {};
    probes := [];
    for n := 0 to samples
      invariant |probes| == n && seen == (set o | o in probes)
      invariant forall i :: 0 <= i < n ==> probes[i] == MatchingObject(c, key, i, samples).obj
      invariant forall i :: 0 <= i < n ==> probes[i] >= 0 && IsCarrier(c, probes[i], key)
      invariant forall i, j :: 0 <= i < j < n ==> probes[i] < probes[j]
    {
      var m := MatchingObject(c, key, n, samples);
      SampleCarries(c, key, n, samples);
      forall i | 0 <= i < n
        ensures probes[i] < m.obj
      {
        SamplesIncrease(c, key, i, n, samples);
      }
      if m.ok && m.obj !in seen {
        seen := seen + {m.obj};
        probes := probes + [m.obj];
      }
    }
    forall n | 0 <= n < |probes|
      ensures var before := |CarriersBelow(c, key, probes[n])|;
              before * |probes| <= n * |Carriers(c, key)| < (before + 1) * |probes|
    {
      SampleIsSpread(c, key, n, samples);
    }
  }
}
