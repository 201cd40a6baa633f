/** How many objects of a generated fixture share a tag, scenario by scenario.

    In the mostly-unique scenario nothing is shared; in the mostly-shared one everything is; in the hot-set one a single
    tag is on every object, and each tail tag on a number of objects given in closed form; and in the cyclic ones every
    tag has the same fan-out.
*/
module FixtureFanout {
  import opened Division
  import opened Text
  import opened Numerals
  import opened FixtureCodec
  import opened FixtureGenerator
  import FixtureMetrics

  /** The rows that hold a tag. */
  ghost function Holding(rows: seq<Record>, tag: string): set<nat> {
    set i: nat | i < |rows| && tag in rows[i].tags
  }

  ghost function AllTags(rows: seq<Record>): set<string> {
    set i: nat, t | i < |rows| && t in rows[i].tags :: t
  }

  // ----- mostly unique -----

  lemma {:induction false} DigitsHaveNoDash(n: nat)
    ensures '-' !in Digits(n, 10)
  {
    if n < 10 {
      assert Digits(n, 10) == [DIGITS[n]] && DIGITS[n] != '-';
    } else {
      DigitsHaveNoDash(n / 10);
      assert DIGITS[n % 10] != '-';
    }
  }

  lemma {:induction false} PadHasNoDash(s: string, width: nat)
    requires '-' !in s
    ensures '-' !in Pad(s, width)
    decreases width - |s|
  {
    if |s| < width { PadHasNoDash(['0'] + s, width); }
  }

  lemma PaddedHasNoDash(n: nat, width: nat)
    ensures '-' !in Padded(n, 10, width)
  {
    DigitsHaveNoDash(n);
    PadHasNoDash(Digits(n, 10), width);
  }

  /** What precedes the first dash after a common beginning tells texts apart. */
  lemma DashedDiffer(prefix: string, p: string, q: string, a: string, b: string)
    requires '-' !in p && '-' !in q && p != q
    ensures prefix + p + ['-'] + a != prefix + q + ['-'] + b
  {
    SplitOnce(p, '-', a);
    SplitOnce(q, '-', b);
    AfterPrefix(prefix, p, a);
    AfterPrefix(prefix, q, b);
  }

  lemma AfterPrefix(prefix: string, p: string, a: string)
    ensures (prefix + p + ['-'] + a)[|prefix|..] == p + ['-'] + a
  {
    assert prefix + p + ['-'] + a == prefix + (p + ['-'] + a);
  }

  /** A text with a numeral up to its first dash tells the numeral's number. */
  lemma NumeralsBeforeDashDiffer(prefix: string, n: nat, m: nat, width: nat, a: string, b: string)
    requires n != m
    ensures prefix + Padded(n, 10, width) + ['-'] + a != prefix + Padded(m, 10, width) + ['-'] + b
  {
    PaddedHasNoDash(n, width);
    PaddedHasNoDash(m, width);
    PaddedDiffer(n, m, 10, width);
    DashedDiffer(prefix, Padded(n, 10, width), Padded(m, 10, width), a, b);
  }

  /** Unique tags of different objects differ, whatever the slots. */
  lemma ObjectsDiffer(i: nat, j: nat, slot: nat, slot': nat, perObject: nat, lengthClass: LengthClass)
    requires i < j && slot < perObject && slot' < perObject
    ensures BoundTag(true, i, slot, perObject, lengthClass) != BoundTag(true, j, slot', perObject, lengthClass)
  {
    BoundShapeIsValid(true, i, lengthClass);
    BoundShapeIsValid(true, j, lengthClass);
    var a, b := BoundShape(true, i, lengthClass), BoundShape(true, j, lengthClass);
    if lengthClass == Short {
      MulOrder(i + 1, j, perObject);
      assert (i + 1) * perObject == i * perObject + perObject;
      TagsDiffer(a, i * perObject + slot, j * perObject + slot');
    } else {
      var prefix := if lengthClass == Long then "benchmark-long-cachetag-unique-object-" else "bench-default-unique-object-";
      var s, s' := Padded(slot, 10, 2) + a.suffix, Padded(slot', 10, 2) + b.suffix;
      NumeralsBeforeDashDiffer(prefix, i, j, 10, "slot-" + s, "slot-" + s');
      DashedTag(prefix, Padded(i, 10, 10), Padded(slot, 10, 2), a.suffix);
      DashedTag(prefix, Padded(j, 10, 10), Padded(slot', 10, 2), b.suffix);
    }
  }

  lemma DashedTag(prefix: string, n: string, slot: string, suffix: string)
    ensures prefix + n + "-slot-" + slot + suffix == prefix + n + ['-'] + ("slot-" + (slot + suffix))
  {
    assert "-slot-" == ['-'] + "slot-";
  }

  lemma UniqueRow(objects: nat, perObject: nat, lengthClass: LengthClass, obj: nat)
    requires obj < objects
    ensures var tags := Rows(MostlyUnique, objects, perObject, lengthClass)[obj].tags;
            |tags| == perObject && forall slot: nat :: slot < perObject ==> tags[slot] == BoundTag(true, obj, slot, perObject, lengthClass)
  {
  }

  /** In the mostly-unique scenario no two rows have a tag in common, ... */
  lemma UniqueRowsAreDisjoint(objects: nat, perObject: nat, lengthClass: LengthClass, i: nat, j: nat, tag: string)
    requires i < j < objects
    ensures var rows := Rows(MostlyUnique, objects, perObject, lengthClass);
            tag in rows[i].tags ==> tag !in rows[j].tags
  {
    var rows := Rows(MostlyUnique, objects, perObject, lengthClass);
    UniqueRow(objects, perObject, lengthClass, i);
    UniqueRow(objects, perObject, lengthClass, j);
    if tag in rows[i].tags && tag in rows[j].tags {
      var slot: nat :| slot < perObject && rows[i].tags[slot] == tag;
      var slot': nat :| slot' < perObject && rows[j].tags[slot'] == tag;
      ObjectsDiffer(i, j, slot, slot', perObject, lengthClass);
    }
  }

  /** ... so that every tag has fan-out one ... */
  lemma UniqueFanout(objects: nat, perObject: nat, lengthClass: LengthClass, obj: nat, tag: string)
    requires obj < objects && tag in Rows(MostlyUnique, objects, perObject, lengthClass)[obj].tags
    ensures Holding(Rows(MostlyUnique, objects, perObject, lengthClass), tag) == {obj}
  {
    forall i: nat | i < objects && i != obj
      ensures tag !in Rows(MostlyUnique, objects, perObject, lengthClass)[i].tags
    {
      if i < obj {
        UniqueRowsAreDisjoint(objects, perObject, lengthClass, i, obj, tag);
      } else {
        UniqueRowsAreDisjoint(objects, perObject, lengthClass, obj, i, tag);
      }
    }
  }

  /** The unique tag with a running number, object by object and slot by slot. */
  function NthUnique(perObject: nat, lengthClass: LengthClass, n: nat): string
    requires perObject > 0
  {
    BoundTag(true, n / perObject, n % perObject, perObject, lengthClass)
  }

  lemma SlotsDiffer(i: nat, slot: nat, slot': nat, perObject: nat, lengthClass: LengthClass)
    requires slot != slot'
    ensures BoundTag(true, i, slot, perObject, lengthClass) != BoundTag(true, i, slot', perObject, lengthClass)
  {
    BoundShapeIsValid(true, i, lengthClass);
    var shape, first := BoundShape(true, i, lengthClass), if lengthClass == Short then i * perObject else 0;
    MulOrder(0, i, perObject);
    TagsDiffer(shape, first + slot, first + slot');
  }

  lemma NumberTellsPlace(n: nat, m: nat, perObject: nat)
    requires perObject > 0 && n < m
    ensures n / perObject < m / perObject || (n / perObject == m / perObject && n % perObject != m % perObject)
  {
    assert n == n / perObject * perObject + n % perObject && m == m / perObject * perObject + m % perObject;
    QuotientAtLeast(m, perObject, n / perObject);
  }

  lemma PlacesDiffer(i: nat, j: nat, slot: nat, slot': nat, perObject: nat, lengthClass: LengthClass)
    requires slot < perObject && slot' < perObject && (i < j || (i == j && slot != slot'))
    ensures BoundTag(true, i, slot, perObject, lengthClass) != BoundTag(true, j, slot', perObject, lengthClass)
  {
    if i < j {
      ObjectsDiffer(i, j, slot, slot', perObject, lengthClass);
    } else {
      SlotsDiffer(i, slot, slot', perObject, lengthClass);
    }
  }

  lemma NthUniqueDiffer(perObject: nat, lengthClass: LengthClass, n: nat, m: nat)
    requires perObject > 0 && n < m
    ensures NthUnique(perObject, lengthClass, n) != NthUnique(perObject, lengthClass, m)
  {
    NumberTellsPlace(n, m, perObject);
    PlacesDiffer(n / perObject, m / perObject, n % perObject, m % perObject, perObject, lengthClass);
  }

  /** ... and there are objects times tags-per-object tags. */
  lemma UniqueUniverse(objects: nat, perObject: nat, lengthClass: LengthClass)
    ensures |AllTags(Rows(MostlyUnique, objects, perObject, lengthClass))| == objects * perObject
  {
    var rows := Rows(MostlyUnique, objects, perObject, lengthClass);
    if perObject == 0 {
      assert AllTags(rows) == {};
    } else {
      MulOrder(0, objects, perObject);
      var total: nat := objects * perObject;
      var f := (n: nat) => NthUnique(perObject, lengthClass, n);
      forall i: nat, j: nat | i < j < total
        ensures f(i) != f(j)
      {
        NthUniqueDiffer(perObject, lengthClass, i, j);
      }
      ImageSize(f, total);
      forall tag
        ensures tag in Image(f, total) <==> tag in AllTags(rows)
      {
        if tag in AllTags(rows) {
          var n := UniqueTagHasNumber(objects, perObject, lengthClass, tag);
          assert f(n) == tag;
        }
        if tag in Image(f, total) {
          var n: nat :| n < total && f(n) == tag;
          NumberHasUniqueTag(objects, perObject, lengthClass, n);
        }
      }
      assert Image(f, total) == AllTags(rows);
    }
  }

  lemma UniqueTagHasNumber(objects: nat, perObject: nat, lengthClass: LengthClass, tag: string) returns (n: nat)
    requires perObject > 0 && tag in AllTags(Rows(MostlyUnique, objects, perObject, lengthClass))
    ensures n < objects * perObject && NthUnique(perObject, lengthClass, n) == tag
  {
    var rows := Rows(MostlyUnique, objects, perObject, lengthClass);
    var i: nat :| i < objects && tag in rows[i].tags;
    UniqueRow(objects, perObject, lengthClass, i);
    var slot: nat :| slot < perObject && rows[i].tags[slot] == tag;
    n := Numbered(objects, perObject, i, slot);
  }

  lemma Numbered(objects: nat, perObject: nat, i: nat, slot: nat) returns (n: nat)
    requires i < objects && slot < perObject
    ensures n < objects * perObject && n / perObject == i && n % perObject == slot
  {
    MulOrder(0, i, perObject);
    MulOrder(i + 1, objects, perObject);
    assert (i + 1) * perObject == i * perObject + perObject;
    n := i * perObject + slot;
    QuotientIs(n, perObject, i, slot);
  }

  lemma NumberHasUniqueTag(objects: nat, perObject: nat, lengthClass: LengthClass, n: nat)
    requires perObject > 0 && n < objects * perObject
    ensures NthUnique(perObject, lengthClass, n) in AllTags(Rows(MostlyUnique, objects, perObject, lengthClass))
  {
    var rows, i: nat, slot: nat := Rows(MostlyUnique, objects, perObject, lengthClass), n / perObject, n % perObject;
    QuotientAtLeast(n, perObject, objects);
    UniqueRow(objects, perObject, lengthClass, i);
    assert rows[i].tags[slot] == NthUnique(perObject, lengthClass, n);
    assert i < |rows| && NthUnique(perObject, lengthClass, n) in rows[i].tags;
  }

  // ----- mostly shared -----

  /** In the mostly-shared scenario all rows have one list, so that every tag is on every object ... */
  lemma SharedFanout(objects: nat, perObject: nat, lengthClass: LengthClass, obj: nat)
    requires obj < objects
    ensures var rows := Rows(MostlyShared, objects, perObject, lengthClass);
            && |rows[obj].tags| == perObject && rows[obj].tags == rows[0].tags
            && forall tag :: tag in rows[obj].tags ==> |Holding(rows, tag)| == objects
  {
    var rows := Rows(MostlyShared, objects, perObject, lengthClass);
    SharedRow(objects, perObject, lengthClass, obj);
    forall tag | tag in rows[obj].tags
      ensures |Holding(rows, tag)| == objects
    {
      forall i: nat | i < objects
        ensures tag in rows[i].tags
      {
        SharedRow(objects, perObject, lengthClass, i);
      }
      assert Holding(rows, tag) == Below(objects);
    }
  }

  /** A list without repetition has as many elements as places. */
  lemma {:induction false} DistinctSize(tags: seq<string>)
    requires forall i, j :: 0 <= i < j < |tags| ==> tags[i] != tags[j]
    ensures |set t | t in tags| == |tags|
    decreases |tags|
  {
    if tags == [] {
      assert (set t | t in tags) == {};
    } else {
      DistinctSize(tags[1..]);
      assert (set t | t in tags) == (set t | t in tags[1..]) + {tags[0]};
    }
  }

  /** ... and there are as many tags as each object has. */
  lemma SharedTagCount(objects: nat, perObject: nat, lengthClass: LengthClass)
    requires objects > 0 && perObject > 0
    ensures |AllTags(Rows(MostlyShared, objects, perObject, lengthClass))| == perObject
  {
    var rows := Rows(MostlyShared, objects, perObject, lengthClass);
    ScenarioTagsAreTags(MostlyShared, objects, perObject, lengthClass, 0);
    SharedRow(objects, perObject, lengthClass, 0);
    DistinctSize(rows[0].tags);
    forall tag
      ensures tag in AllTags(rows) <==> tag in rows[0].tags
    {
      if i: nat :| i < objects && tag in rows[i].tags { SharedRow(objects, perObject, lengthClass, i); }
    }
    assert AllTags(rows) == set t | t in rows[0].tags;
  }

  lemma SharedRow(objects: nat, perObject: nat, lengthClass: LengthClass, obj: nat)
    requires obj < objects
    ensures var rows := Rows(MostlyShared, objects, perObject, lengthClass);
            |rows[obj].tags| == perObject && rows[obj].tags == rows[0].tags
  {
    var rows := Rows(MostlyShared, objects, perObject, lengthClass);
    forall slot: nat | slot < perObject
      ensures rows[obj].tags[slot] == rows[0].tags[slot]
    {
      assert BoundShape(false, obj, lengthClass) == BoundShape(false, 0, lengthClass);
    }
  }

  // ----- hot set -----

  /** In the hot-set scenario one tag is on every object. */
  lemma HotTagIsEverywhere(objects: nat, perObject: nat, lengthClass: LengthClass)
    ensures |Holding(Rows(HotSet, objects, perObject, lengthClass), "hot:0")| == objects
  {
    var rows := Rows(HotSet, objects, perObject, lengthClass);
    forall i: nat | i < objects
      ensures "hot:0" in rows[i].tags
    {
      assert rows[i].tags[0] == "hot:0";
    }
    assert Holding(rows, "hot:0") == Below(objects);
  }

  function TailTag(t: nat): string {
    ShapesAreValid();
    HotTail.Tag(t)
  }

  /** One of the `slots` numbers after `obj`, reduced, is `t`. */
  ghost predicate TailHas(universe: nat, slots: nat, obj: nat, t: nat)
    requires universe > 0
  {
    exists slot: nat :: 0 < slot <= slots && NumberAt(universe, obj, slot) == t
  }

  lemma TailRow(objects: nat, perObject: nat, lengthClass: LengthClass, obj: nat)
    requires perObject > 0 && obj < objects
    ensures var tags, u := Rows(HotSet, objects, perObject, lengthClass)[obj].tags, SharedUniverse(objects, perObject);
            && |tags| == perObject && tags[0] == "hot:0"
            && forall slot: nat :: 0 < slot < perObject ==> tags[slot] == TailTag(NumberAt(u, obj, slot))
  {
    var tags, u := Rows(HotSet, objects, perObject, lengthClass)[obj].tags, SharedUniverse(objects, perObject);
    ShapesAreValid();
    forall slot: nat | 0 < slot < perObject
      ensures tags[slot] == TailTag(NumberAt(u, obj, slot))
    {
      assert tags[slot] == HotTail.Tag((obj + (slot - 1) + 1) % u);
    }
  }

  lemma TailTagsDiffer(t: nat, u: nat)
    ensures TailTag(t) == TailTag(u) <==> t == u
    ensures TailTag(t) != "hot:0"
  {
    ShapesAreValid();
    if t != u { TagsDiffer(HotTail, t, u); }
    assert TailTag(t)[3] == '-';
  }

  /** What the tags of a row say of a tail tag, for any list of this form. */
  lemma TailMeansNumber(tags: seq<string>, universe: nat, perObject: nat, obj: nat, t: nat)
    requires universe > 0 && |tags| == perObject && perObject > 0 && tags[0] == "hot:0"
    requires forall slot: nat :: 0 < slot < perObject ==> tags[slot] == TailTag(NumberAt(universe, obj, slot))
    ensures TailTag(t) in tags <==> TailHas(universe, perObject - 1, obj, t)
  {
    TailTagsDiffer(t, t);
    if TailTag(t) in tags {
      var slot: nat :| slot < perObject && tags[slot] == TailTag(t);
      TailTagsDiffer(NumberAt(universe, obj, slot), t);
      assert NumberAt(universe, obj, slot) == t;
    }
    if slot: nat :| 0 < slot <= perObject - 1 && NumberAt(universe, obj, slot) == t {
      assert tags[slot] == TailTag(t);
    }
  }

  /** The places of a round whose objects carry tail tag `t`: the `slots` places before `t`, going round. */
  predicate InWindow(universe: nat, slots: nat, t: nat, place: nat) {
    t - slots <= place < t || place >= universe - slots + t
  }

  lemma NumberIs(universe: nat, obj: nat, slot: nat)
    requires 0 < slot < universe
    ensures var place := obj % universe;
            NumberAt(universe, obj, slot) == if place + slot < universe then place + slot else place + slot - universe
  {
    var q, place := obj / universe, obj % universe;
    assert obj == q * universe + place;
    if place + slot < universe {
      QuotientIs(obj + slot, universe, q, place + slot);
    } else {
      assert (q + 1) * universe == q * universe + universe;
      QuotientIs(obj + slot, universe, q + 1, place + slot - universe);
    }
  }

  lemma TailHasIff(universe: nat, slots: nat, obj: nat, t: nat)
    requires slots < universe && t < universe
    ensures TailHas(universe, slots, obj, t) <==> InWindow(universe, slots, t, obj % universe)
  {
    var place := obj % universe;
    if slot: nat :| 0 < slot <= slots && NumberAt(universe, obj, slot) == t { NumberIs(universe, obj, slot); }
    if t - slots <= place < t {
      NumberIs(universe, obj, t - place);
      assert NumberAt(universe, obj, t - place) == t;
    } else if place >= universe - slots + t {
      NumberIs(universe, obj, t + universe - place);
      assert NumberAt(universe, obj, t + universe - place) == t;
    }
  }

  /** How many of the first `places` places of a round are in the window. */
  function InRound(universe: nat, slots: nat, t: nat, places: nat): int {
    Min(t, places) - Min(if t > slots then t - slots else 0, places)
    + if places > universe - slots + t then places - (universe - slots + t) else 0
  }

  /** The fan-out of tail tag `t`: the whole rounds, and what the rest of a round comes to. */
  function TailFanout(universe: nat, slots: nat, t: nat, objects: nat): int
    requires universe > 0
  {
    slots * (objects / universe) + InRound(universe, slots, t, objects % universe)
  }

  ghost function TailCarriers(universe: nat, slots: nat, t: nat, objects: nat): set<nat>
    requires universe > 0
  {
    set obj: nat | obj < objects && TailHas(universe, slots, obj, t)
  }

  lemma {:induction false} TailFanoutIsExact(universe: nat, slots: nat, t: nat, objects: nat)
    requires slots < universe && t < universe
    ensures |TailCarriers(universe, slots, t, objects)| == TailFanout(universe, slots, t, objects)
    decreases objects
  {
    if objects == 0 {
      assert TailCarriers(universe, slots, t, objects) == {};
    } else {
      var last := objects - 1;
      TailFanoutIsExact(universe, slots, t, last);
      TailHasIff(universe, slots, last, t);
      RoundGrows(universe, slots, t, last);
      var before := TailCarriers(universe, slots, t, last);
      assert TailCarriers(universe, slots, t, objects)
          == if TailHas(universe, slots, last, t) then before + {last} else before;
    }
  }

  lemma RoundGrows(universe: nat, slots: nat, t: nat, n: nat)
    requires slots < universe && t < universe
    ensures TailFanout(universe, slots, t, n + 1) ==
            TailFanout(universe, slots, t, n) + if InWindow(universe, slots, t, n % universe) then 1 else 0
  {
    var q, r := n / universe, n % universe;
    assert n == q * universe + r;
    if r + 1 < universe {
      QuotientIs(n + 1, universe, q, r + 1);
    } else {
      assert (q + 1) * universe == q * universe + universe;
      QuotientIs(n + 1, universe, q + 1, 0);
      assert slots * (q + 1) == slots * q + slots;
    }
  }

  /** Each tail tag is on exactly that many objects. */
  lemma HotTailFanout(objects: nat, perObject: nat, lengthClass: LengthClass, t: nat)
    requires perObject > 0 && t < SharedUniverse(objects, perObject)
    ensures |Holding(Rows(HotSet, objects, perObject, lengthClass), TailTag(t))|
            == TailFanout(SharedUniverse(objects, perObject), perObject - 1, t, objects)
  {
    var u := SharedUniverse(objects, perObject);
    forall obj: nat | obj < objects
      ensures TailTag(t) in Rows(HotSet, objects, perObject, lengthClass)[obj].tags <==> TailHas(u, perObject - 1, obj, t)
    {
      TailRow(objects, perObject, lengthClass, obj);
      TailMeansNumber(Rows(HotSet, objects, perObject, lengthClass)[obj].tags, u, perObject, obj, t);
    }
    assert Holding(Rows(HotSet, objects, perObject, lengthClass), TailTag(t)) == TailCarriers(u, perObject - 1, t, objects);
    TailFanoutIsExact(u, perObject - 1, t, objects);
  }

  /** Over whole rounds of the universe every tail tag has the same fan-out. */
  lemma HotTailIsEven(objects: nat, perObject: nat, lengthClass: LengthClass, t: nat)
    requires perObject > 0 && t < SharedUniverse(objects, perObject) && objects % SharedUniverse(objects, perObject) == 0
    ensures |Holding(Rows(HotSet, objects, perObject, lengthClass), TailTag(t))| * SharedUniverse(objects, perObject)
            == (perObject - 1) * objects
  {
    HotTailFanout(objects, perObject, lengthClass, t);
    WholeRounds(SharedUniverse(objects, perObject), perObject - 1, t, objects);
  }

  lemma WholeRounds(universe: nat, slots: nat, t: nat, objects: nat)
    requires slots < universe && t < universe && objects % universe == 0
    ensures TailFanout(universe, slots, t, objects) * universe == slots * objects
  {
    var q := objects / universe;
    assert objects == q * universe && InRound(universe, slots, t, 0) == 0;
    assert slots * q * universe == slots * (q * universe);
  }

  // ----- cyclic -----

  lemma CyclicRow(scenario: Scenario, objects: nat, perObject: nat, lengthClass: LengthClass, obj: nat)
    requires (scenario == UniformCyclic || scenario == OrdinaryBody) && obj < objects
    ensures Rows(scenario, objects, perObject, lengthClass)[obj].tags == CyclicTags(objects, perObject, obj)
  {
  }

  /** The other scenarios give every tag the fan-out min(objects, tags per object), ... */
  lemma CyclicRowsFanout(scenario: Scenario, objects: nat, perObject: nat, lengthClass: LengthClass, t: nat)
    requires scenario == UniformCyclic || scenario == OrdinaryBody
    requires objects > 0 && perObject > 0 && t < Max(objects, perObject)
    ensures |Holding(Rows(scenario, objects, perObject, lengthClass), UniformTag(t))| == Min(objects, perObject)
  {
    CyclicFanout(objects, perObject, t);
    forall obj: nat | obj < objects
      ensures Rows(scenario, objects, perObject, lengthClass)[obj].tags == CyclicTags(objects, perObject, obj)
    {
      CyclicRow(scenario, objects, perObject, lengthClass, obj);
    }
    assert Holding(Rows(scenario, objects, perObject, lengthClass), UniformTag(t))
        == CarriersOf(objects, perObject, UniformTag(t));
  }

  /** ... and there are max(objects, tags per object) tags. */
  lemma CyclicRowsUniverse(scenario: Scenario, objects: nat, perObject: nat, lengthClass: LengthClass)
    requires scenario == UniformCyclic || scenario == OrdinaryBody
    requires objects > 0 && perObject > 0
    ensures |AllTags(Rows(scenario, objects, perObject, lengthClass))| == Max(objects, perObject)
  {
    CyclicUniverse(objects, perObject);
    forall obj: nat | obj < objects
      ensures Rows(scenario, objects, perObject, lengthClass)[obj].tags == CyclicTags(objects, perObject, obj)
    {
      CyclicRow(scenario, objects, perObject, lengthClass, obj);
    }
    assert AllTags(Rows(scenario, objects, perObject, lengthClass)) == TagUniverse(objects, perObject);
  }

  // ----- the loader's fan-out counter -----

  lemma {:induction false} CountOfDistinct(tags: seq<string>, tag: string)
    requires Distinct(tags)
    ensures multiset(tags)[tag] == if tag in tags then 1 else 0
    decreases |tags|
  {
    if tags != [] {
      var before, last := tags[..|tags| - 1], tags[|tags| - 1];
      assert tags == before + [last];
      CountOfDistinct(before, tag);
      assert last !in before;
    }
  }

  lemma HoldingSnoc(before: seq<Record>, r: Record, tag: string)
    ensures |Holding(before + [r], tag)| == |Holding(before, tag)| + if tag in r.tags then 1 else 0
  {
    var all := before + [r];
    assert forall i :: 0 <= i < |before| ==> all[i] == before[i];
    assert Holding(all, tag) == if tag in r.tags then Holding(before, tag) + {|before|} else Holding(before, tag);
  }

  lemma CountOfSum(a: seq<string>, b: seq<string>, tag: string)
    ensures FixtureMetrics.Count(a + b, tag) == FixtureMetrics.Count(a, tag) + multiset(b)[tag]
  {
  }

  /** The counter of a tag over all occurrences is the number of records that hold it, when no record repeats a tag. */
  lemma {:induction false} CounterIsFanout(records: seq<Record>, tag: string)
    requires forall r :: r in records ==> Distinct(r.tags)
    ensures FixtureMetrics.Count(FixtureMetrics.AllTags(records), tag) == |Holding(records, tag)|
    decreases |records|
  {
    if records == [] {
      assert Holding(records, tag) == {};
    } else {
      var before, last := records[..|records| - 1], records[|records| - 1];
      assert records == before + [last];
      CounterIsFanout(before, tag);
      CountOfDistinct(last.tags, tag);
      CountOfSum(FixtureMetrics.AllTags(before), last.tags, tag);
      HoldingSnoc(before, last, tag);
    }
  }

  lemma {:induction false} OccursMeansHeld(records: seq<Record>, tag: string) returns (i: nat)
    requires tag in FixtureMetrics.AllTags(records)
    ensures i < |records| && tag in records[i].tags
    decreases |records|
  {
    var last := |records| - 1;
    if tag in records[last].tags { i := last; } else { i := OccursMeansHeld(records[..last], tag); }
  }

  /** Hence where every tag is held by `n` records, the fan-out histogram has the one key `n`. */
  lemma EvenFanoutHistogram(records: seq<Record>, n: nat, v: nat)
    requires forall r :: r in records ==> Distinct(r.tags)
    requires forall i: nat, tag :: i < |records| && tag in records[i].tags ==> |Holding(records, tag)| == n
    requires v in FixtureMetrics.Values(FixtureMetrics.AllTags(records))
    ensures v == n
  {
    var tags := FixtureMetrics.AllTags(records);
    var k :| 0 <= k < |FixtureMetrics.Keys(tags)| && v == FixtureMetrics.Count(tags, FixtureMetrics.Keys(tags)[k]);
    var tag := FixtureMetrics.Keys(tags)[k];
    FixtureMetrics.KeysEnumerate(tags);
    var i := OccursMeansHeld(records, tag);
    CounterIsFanout(records, tag);
  }
}
