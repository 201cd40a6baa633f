/** The synthetic fixture generator: the tags each scenario gives each object, as text.

    Whatever the scenario, every generated record passes the loader's check; and in the cyclic scenarios every tag has
    the same, exact fan-out.
*/
module FixtureGenerator {
  import opened Division
  import opened Text
  import opened FixtureCodec
  import opened Numerals

  // ----- a numeral inside a tag -----

  /** A tag made of fixed text around one numeral. */
  datatype Shape = Shape(prefix: string, base: nat, width: nat, suffix: string) {
    predicate Valid() { 2 <= base <= 16 && prefix != [] && Blankless(prefix) && Blankless(suffix) }

    function Tag(n: nat): string
      requires Valid()
    {
      prefix + Padded(n, base, width) + suffix
    }
  }

  lemma Middle(prefix: string, s: string, suffix: string)
    ensures var all := prefix + s + suffix; all[|prefix|..|all| - |suffix|] == s
  {
  }

  lemma TagsDiffer(shape: Shape, n: nat, m: nat)
    requires shape.Valid() && n != m
    ensures shape.Tag(n) != shape.Tag(m)
  {
    PaddedDiffer(n, m, shape.base, shape.width);
    Middle(shape.prefix, Padded(n, shape.base, shape.width), shape.suffix);
    Middle(shape.prefix, Padded(m, shape.base, shape.width), shape.suffix);
  }

  lemma TagIsToken(shape: Shape, n: nat)
    requires shape.Valid()
    ensures IsToken(shape.Tag(n))
  {
    PaddedBlankless(n, shape.base, shape.width);
  }

  function Tags(shape: Shape, numbers: seq<nat>): seq<string>
    requires shape.Valid()
  {
    seq(|numbers|, i requires 0 <= i < |numbers| => shape.Tag(numbers[i]))
  }

  lemma ShapedTagsAreTags(shape: Shape, numbers: seq<nat>)
    requires shape.Valid() && numbers != []
    requires forall i, j :: 0 <= i < j < |numbers| ==> numbers[i] != numbers[j]
    ensures AreTags(Tags(shape, numbers))
  {
    var tags := Tags(shape, numbers);
    forall i | 0 <= i < |tags|
      ensures IsToken(tags[i])
    {
      TagIsToken(shape, numbers[i]);
    }
    forall i, j | 0 <= i < j < |tags|
      ensures tags[i] != tags[j]
    {
      TagsDiffer(shape, numbers[i], numbers[j]);
    }
  }

  // ----- the scenarios -----

  datatype Scenario = MostlyUnique | MostlyShared | UniformCyclic | HotSet | OrdinaryBody

  datatype LengthClass = Short | Default | Long

  function Max(a: nat, b: nat): nat { if a < b then b else a }

  function Min(a: nat, b: nat): nat { if a < b then a else b }

  function SharedUniverse(objects: nat, perObject: nat): nat {
    Max(perObject, Min(64, Max(1, objects / 8)))
  }

  /** The text of `bound_tag` around its last numeral. */
  function BoundShape(unique: bool, obj: nat, lengthClass: LengthClass): Shape {
    match (lengthClass, unique)
    case (Short, true) => Shape("u", 16, 1, "")
    case (Short, false) => Shape("s", 16, 1, "")
    case (Long, true) => Shape("benchmark-long-cachetag-unique-object-" + Padded(obj, 10, 10) + "-slot-", 10, 2, "-edge")
    case (Long, false) => Shape("benchmark-long-cachetag-shared-slot-", 10, 2, "-global-edge")
    case (Default, true) => Shape("bench-default-unique-object-" + Padded(obj, 10, 10) + "-slot-", 10, 2, "")
    case (Default, false) => Shape("bench-default-shared-slot-", 10, 2, "-global")
  }

  /** Printable ASCII has no white space. */
  predicate Printable(s: string) { forall i :: 0 <= i < |s| ==> '!' <= s[i] <= '~' }

  lemma PrintableIsBlankless(s: string)
    requires Printable(s)
    ensures Blankless(s)
  {
  }

  lemma LongPrefixesArePrintable()
    ensures Printable("benchmark-long-cachetag-unique-object-")
    ensures Printable("benchmark-long-cachetag-shared-slot-")
  {
  }

  lemma PrefixesArePrintable()
    ensures Printable("bench-default-unique-object-")
    ensures Printable("bench-default-shared-slot-")
  {
  }

  lemma SuffixesArePrintable()
    ensures Printable("u") && Printable("s") && Printable("-slot-") && Printable("-edge") && Printable("-global-edge")
    ensures Printable("-global") && Printable("")
  {
  }

  lemma BlanklessParts(a: string, b: string, c: string)
    requires Printable(a) && Blankless(b) && Printable(c)
    ensures Blankless(a + b + c)
  {
    PrintableIsBlankless(a);
    PrintableIsBlankless(c);
  }

  lemma BoundShapeIsValid(unique: bool, obj: nat, lengthClass: LengthClass)
    ensures BoundShape(unique, obj, lengthClass).Valid()
  {
    LongPrefixesArePrintable();
    PrefixesArePrintable();
    SuffixesArePrintable();
    PaddedBlankless(obj, 10, 10);
    if unique {
      if lengthClass == Long {
        BlanklessParts("benchmark-long-cachetag-unique-object-", Padded(obj, 10, 10), "-slot-");
      } else {
        BlanklessParts("bench-default-unique-object-", Padded(obj, 10, 10), "-slot-");
      }
    } else {
      PrintableIsBlankless(BoundShape(unique, obj, lengthClass).prefix);
    }
    PrintableIsBlankless(BoundShape(unique, obj, lengthClass).suffix);
    PrintableIsBlankless("u");
  }

  /** `bound_tag` */
  function BoundTag(unique: bool, obj: nat, slot: nat, perObject: nat, lengthClass: LengthClass): string {
    BoundShapeIsValid(unique, obj, lengthClass);
    BoundShape(unique, obj, lengthClass).Tag(if unique && lengthClass == Short then obj * perObject + slot else slot)
  }

  const Uniform := Shape("uniform:", 10, 1, "")

  const HotTail := Shape("hot-tail:", 10, 1, "")

  const ObjectId := Shape("object:", 10, 8, "")

  lemma ShapesAreValid()
    ensures Uniform.Valid() && HotTail.Valid() && ObjectId.Valid() && IsToken("hot:0")
  {
    PrintableIsBlankless("uniform:");
    PrintableIsBlankless("hot-tail:");
    PrintableIsBlankless("object:");
    PrintableIsBlankless("hot:0");
  }

  /** The tags `records_for` gives one object. */
  function TagsFor(scenario: Scenario, objects: nat, perObject: nat, lengthClass: LengthClass, obj: nat): seq<string> {
    ShapesAreValid();
    BoundShapeIsValid(true, obj, lengthClass);
    BoundShapeIsValid(false, obj, lengthClass);
    match scenario
    case MostlyUnique => seq(perObject, slot requires 0 <= slot => BoundTag(true, obj, slot, perObject, lengthClass))
    case MostlyShared =>
      seq(perObject, slot requires 0 <= slot =>
        BoundTag(false, obj, slot % SharedUniverse(objects, perObject), perObject, lengthClass))
    case HotSet =>
      ["hot:0"] + seq(if perObject == 0 then 0 else perObject - 1, i requires 0 <= i =>
        HotTail.Tag((obj + i + 1) % SharedUniverse(objects, perObject)))
    case _ => CyclicTags(objects, perObject, obj)
  }

  function UniformTag(n: nat): string {
    ShapesAreValid();
    Uniform.Tag(n)
  }

  /** The number of the tag in a slot, in a universe of `universe` tags. */
  function NumberAt(universe: nat, obj: nat, slot: nat): (n: nat)
    requires universe > 0
    ensures n < universe
  {
    (obj + slot) % universe
  }

  function CyclicTags(objects: nat, perObject: nat, obj: nat): seq<string> {
    if Max(objects, perObject) == 0 then []
    else seq(perObject, slot requires 0 <= slot => UniformTag(NumberAt(Max(objects, perObject), obj, slot)))
  }

  /** One record for each object, in order. */
  function Rows(scenario: Scenario, objects: nat, perObject: nat, lengthClass: LengthClass): seq<Record> {
    ShapesAreValid();
    seq(objects, obj requires 0 <= obj => Record(ObjectId.Tag(obj), TagsFor(scenario, objects, perObject, lengthClass, obj)))
  }

  /** `records_for` */
  method RecordsFor(scenario: Scenario, objects: nat, perObject: nat, lengthClass: LengthClass) returns (rows: seq<Record>)
    ensures rows == Rows(scenario, objects, perObject, lengthClass)
    ensures perObject > 0 ==> forall r :: r in rows ==> IsRecord(r)
    ensures forall i, j :: 0 <= i < j < |rows| ==> rows[i].id != rows[j].id
  {
    rows := [];
    ShapesAreValid();
    for obj := 0 to objects
      invariant |rows| == obj
      invariant forall i :: 0 <= i < obj ==>
                  rows[i] == Record(ObjectId.Tag(i), TagsFor(scenario, objects, perObject, lengthClass, i))
    {
      rows := rows + [Record(ObjectId.Tag(obj), TagsFor(scenario, objects, perObject, lengthClass, obj))];
    }
    forall i | 0 <= i < |rows| && perObject > 0
      ensures IsRecord(rows[i])
    {
      TagIsToken(ObjectId, i);
      ScenarioTagsAreTags(scenario, objects, perObject, lengthClass, i);
    }
    forall i, j | 0 <= i < j < |rows|
      ensures rows[i].id != rows[j].id
    {
      TagsDiffer(ObjectId, i, j);
    }
  }

  // ----- every scenario is accepted -----

  /** Consecutive numbers, fewer than the modulus, stay different modulo it. */
  lemma ConsecutiveDiffer(from: nat, count: nat, modulus: nat) returns (numbers: seq<nat>)
    requires 0 < count <= modulus
    ensures numbers == seq(count, i requires 0 <= i => (from + i) % modulus)
    ensures forall i, j :: 0 <= i < j < count ==> numbers[i] != numbers[j]
  {
    numbers := seq(count, i requires 0 <= i => (from + i) % modulus);
    forall i, j | 0 <= i < j < count
      ensures numbers[i] != numbers[j]
    {
      RemaindersDiffer(from + i, from + j, modulus);
    }
  }

  lemma CyclicTagsAreTags(objects: nat, perObject: nat, obj: nat)
    requires perObject > 0
    ensures AreTags(CyclicTags(objects, perObject, obj))
  {
    ShapesAreValid();
    var numbers := ConsecutiveDiffer(obj, perObject, Max(objects, perObject));
    ShapedTagsAreTags(Uniform, numbers);
    var tags := CyclicTags(objects, perObject, obj);
    forall slot | 0 <= slot < perObject
      ensures tags[slot] == Uniform.Tag(numbers[slot])
    {
    }
    assert tags == Tags(Uniform, numbers);
  }

  lemma HotTagsAreTags(objects: nat, perObject: nat, lengthClass: LengthClass, obj: nat)
    requires perObject > 0
    ensures AreTags(TagsFor(HotSet, objects, perObject, lengthClass, obj))
  {
    ShapesAreValid();
    var tags := TagsFor(HotSet, objects, perObject, lengthClass, obj);
    if perObject == 1 {
      assert tags == ["hot:0"];
    } else {
      var numbers := ConsecutiveDiffer(obj + 1, perObject - 1, SharedUniverse(objects, perObject));
      ShapedTagsAreTags(HotTail, numbers);
      var tail := Tags(HotTail, numbers);
      assert tags == ["hot:0"] + tail;
      forall t | t in tail
        ensures t != "hot:0"
      {
        assert t[3] == '-';
      }
      forall i, j | 0 <= i < j < |tags|
        ensures tags[i] != tags[j]
      {
        assert tags[j] == tail[j - 1] && (i > 0 ==> tags[i] == tail[i - 1]);
      }
    }
  }

  lemma BoundTagsAreTags(unique: bool, objects: nat, perObject: nat, lengthClass: LengthClass, obj: nat)
    requires perObject > 0
    ensures AreTags(TagsFor(if unique then MostlyUnique else MostlyShared, objects, perObject, lengthClass, obj))
  {
    BoundShapeIsValid(unique, obj, lengthClass);
    var shape, first := BoundShape(unique, obj, lengthClass), if unique && lengthClass == Short then obj * perObject else 0;
    MulOrder(0, obj, perObject);
    var numbers: seq<nat> := seq(perObject, slot requires 0 <= slot => first + slot);
    ShapedTagsAreTags(shape, numbers);
    var tags := TagsFor(if unique then MostlyUnique else MostlyShared, objects, perObject, lengthClass, obj);
    forall slot: nat | slot < perObject
      ensures tags[slot] == shape.Tag(numbers[slot])
    {
      QuotientIs(slot, SharedUniverse(objects, perObject), 0, slot);
      assert tags[slot] == BoundTag(unique, obj, slot, perObject, lengthClass);
    }
    assert tags == Tags(shape, numbers);
  }

  /** Whatever the scenario and the sizes, the generated tags are distinct tokens. */
  lemma ScenarioTagsAreTags(scenario: Scenario, objects: nat, perObject: nat, lengthClass: LengthClass, obj: nat)
    requires perObject > 0
    ensures AreTags(TagsFor(scenario, objects, perObject, lengthClass, obj))
  {
    match scenario
    case MostlyUnique => BoundTagsAreTags(true, objects, perObject, lengthClass, obj);
    case MostlyShared => BoundTagsAreTags(false, objects, perObject, lengthClass, obj);
    case HotSet => HotTagsAreTags(objects, perObject, lengthClass, obj);
    case _ => CyclicTagsAreTags(objects, perObject, obj);
  }

  // ----- the cyclic fan-out -----

  /** The objects that carry a tag. */
  ghost function CarriersOf(objects: nat, perObject: nat, tag: string): set<nat> {
    set obj: nat | obj < objects && tag in CyclicTags(objects, perObject, obj)
  }

  /** Tag `t` is on object `obj` when some slot of the object comes to `t`. */
  ghost predicate HasNumber(universe: nat, perObject: nat, obj: nat, t: nat)
    requires universe > 0
  {
    exists slot: nat :: slot < perObject && NumberAt(universe, obj, slot) == t
  }

  lemma UniformTagsDiffer(n: nat, m: nat)
    ensures UniformTag(n) == UniformTag(m) <==> n == m
  {
    ShapesAreValid();
    if n != m { TagsDiffer(Uniform, n, m); }
  }

  lemma TagMeansNumber(objects: nat, perObject: nat, obj: nat, t: nat)
    requires Max(objects, perObject) > 0
    ensures UniformTag(t) in CyclicTags(objects, perObject, obj) <==> HasNumber(Max(objects, perObject), perObject, obj, t)
  {
    var tags, u := CyclicTags(objects, perObject, obj), Max(objects, perObject);
    assert forall slot: nat :: slot < perObject ==> tags[slot] == UniformTag(NumberAt(u, obj, slot));
    if UniformTag(t) in tags {
      var slot: nat :| slot < perObject && tags[slot] == UniformTag(t);
      UniformTagsDiffer(NumberAt(u, obj, slot), t);
    }
  }

  /** The object whose slot `slot` comes to `t`. */
  function Owner(objects: nat, t: nat, slot: nat): (obj: nat)
    requires objects > 0
    ensures obj < objects
  {
    (t - slot) % objects
  }

  lemma OwnerOwns(objects: nat, t: nat, slot: nat)
    requires t < objects
    ensures NumberAt(objects, Owner(objects, t, slot), slot) == t
  {
    var q := (t - slot) / objects;
    assert t - slot == q * objects + Owner(objects, t, slot);
    RemainderOfSum(t, -q, objects);
    QuotientIs(t, objects, 0, t);
    assert Owner(objects, t, slot) + slot == t + (-q) * objects;
  }

  /** A tag's only owner through a slot. */
  lemma OwnerIsUnique(objects: nat, t: nat, slot: nat, obj: nat)
    requires t < objects && obj < objects && NumberAt(objects, obj, slot) == t
    ensures obj == Owner(objects, t, slot)
  {
    OwnerOwns(objects, t, slot);
    var o := Owner(objects, t, slot);
    if obj < o { RemaindersDiffer(obj + slot, o + slot, objects); }
    if o < obj { RemaindersDiffer(o + slot, obj + slot, objects); }
  }

  /** Different slots have different owners. */
  lemma OwnersDiffer(objects: nat, t: nat, i: nat, j: nat)
    requires t < objects && i < j && j - i < objects
    ensures Owner(objects, t, i) != Owner(objects, t, j)
  {
    OwnerOwns(objects, t, i);
    OwnerOwns(objects, t, j);
    RemaindersDiffer(Owner(objects, t, i) + i, Owner(objects, t, i) + j, objects);
  }

  /** Every tag of the cyclic universe is on exactly min(objects, tags per object) objects. */
  lemma CyclicFanout(objects: nat, perObject: nat, t: nat)
    requires objects > 0 && perObject > 0 && t < Max(objects, perObject)
    ensures |CarriersOf(objects, perObject, UniformTag(t))| == Min(objects, perObject)
  {
    if objects <= perObject {
      forall obj: nat | obj < objects
        ensures UniformTag(t) in CyclicTags(objects, perObject, obj)
      {
        var slot := ResidueAfter(obj, t, perObject);
        assert NumberAt(perObject, obj, slot) == t;
        TagMeansNumber(objects, perObject, obj, t);
      }
      assert CarriersOf(objects, perObject, UniformTag(t)) == Below(objects);
    } else {
      SparseFanout(objects, perObject, t);
    }
  }

  lemma OwnersCarry(objects: nat, perObject: nat, t: nat, obj: nat)
    requires perObject < objects && t < objects
    ensures obj < objects && UniformTag(t) in CyclicTags(objects, perObject, obj) <==>
            exists slot: nat :: slot < perObject && Owner(objects, t, slot) == obj
  {
    TagMeansNumber(objects, perObject, obj, t);
    if obj < objects && HasNumber(objects, perObject, obj, t) {
      var slot: nat :| slot < perObject && NumberAt(objects, obj, slot) == t;
      OwnerIsUnique(objects, t, slot, obj);
    }
    if slot: nat :| slot < perObject && Owner(objects, t, slot) == obj {
      OwnerOwns(objects, t, slot);
    }
  }

  lemma SparseFanout(objects: nat, perObject: nat, t: nat)
    requires perObject < objects && t < objects
    ensures |CarriersOf(objects, perObject, UniformTag(t))| == perObject
  {
    var f := (slot: nat) => Owner(objects, t, slot);
    forall i: nat, j: nat | i < j < perObject
      ensures f(i) != f(j)
    {
      OwnersDiffer(objects, t, i, j);
    }
    ImageSize(f, perObject);
    forall obj: nat
      ensures obj in Image(f, perObject) <==> obj in CarriersOf(objects, perObject, UniformTag(t))
    {
      OwnersCarry(objects, perObject, t, obj);
      if slot: nat :| slot < perObject && Owner(objects, t, slot) == obj { assert f(slot) == obj; }
    }
    assert Image(f, perObject) == CarriersOf(objects, perObject, UniformTag(t));
  }

  /** All the tags of the fixture. */
  ghost function TagUniverse(objects: nat, perObject: nat): set<string> {
    set obj: nat, t | obj < objects && t in CyclicTags(objects, perObject, obj) :: t
  }

  /** There are exactly max(objects, tags per object) of them. */
  lemma CyclicUniverse(objects: nat, perObject: nat)
    requires objects > 0 && perObject > 0
    ensures |TagUniverse(objects, perObject)| == Max(objects, perObject)
  {
    var u := Max(objects, perObject);
    var f := (t: nat) => UniformTag(t);
    forall i: nat, j: nat | i < j < u
      ensures f(i) != f(j)
    {
      UniformTagsDiffer(i, j);
    }
    ImageSize(f, u);
    forall tag
      ensures tag in Image(f, u) ==> tag in TagUniverse(objects, perObject)
      ensures tag in TagUniverse(objects, perObject) ==> tag in Image(f, u)
    {
      if tag in Image(f, u) {
        var t: nat :| t < u && f(t) == tag;
        EveryTagIsUsed(objects, perObject, t);
      }
      if tag in TagUniverse(objects, perObject) {
        var obj: nat :| obj < objects && tag in CyclicTags(objects, perObject, obj);
        var slot: nat :| slot < perObject && CyclicTags(objects, perObject, obj)[slot] == tag;
        assert f(NumberAt(u, obj, slot)) == tag;
      }
    }
    assert TagUniverse(objects, perObject) == Image(f, u);
  }

  lemma EveryTagIsUsed(objects: nat, perObject: nat, t: nat)
    requires objects > 0 && perObject > 0 && t < Max(objects, perObject)
    ensures UniformTag(t) in TagUniverse(objects, perObject)
  {
    CyclicFanout(objects, perObject, t);
    if CarriersOf(objects, perObject, UniformTag(t)) == {} { assert false; }
    var obj: nat :| obj in CarriersOf(objects, perObject, UniformTag(t));
  }
}
