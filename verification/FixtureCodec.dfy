/** The fixture loader's record check and the byte stream its fingerprint hashes.

    A stream of accepted records is uniquely decodable as characters, and characters as bytes, so equal bytes mean equal
    fixtures.
*/
module FixtureCodec {
  import opened Text
  import LittleEndian
  import Utf8

  const TAB := '\t'
  const SPACE := ' '
  const NEWLINE := '\n'

  // ----- checking a parsed JSON value -----

  datatype Json = Text(text: string) | Array(items: seq<Json>) | Object(fields: map<string, Json>) | Scalar

  datatype Record = Record(id: string, tags: seq<string>)

  datatype Error = TagsNotAnArray | BadTag | DuplicateTag(tag: string) | WrongFields | BadId

  datatype Result<T> = Accepted(value: T) | Rejected(error: Error)

  datatype Option<T> = Some(value: T) | None

  /** A non-empty string without white space. */
  predicate IsToken(s: string) { s != [] && Blankless(s) }

  predicate Distinct(tags: seq<string>) { forall i, j :: 0 <= i < j < |tags| ==> tags[i] != tags[j] }

  predicate AreTags(tags: seq<string>) {
    tags != [] && (forall t :: t in tags ==> IsToken(t)) && Distinct(tags)
  }

  predicate IsRecord(r: Record) { IsToken(r.id) && AreTags(r.tags) }

  function Texts(tags: seq<string>): seq<Json> {
    seq(|tags|, i requires 0 <= i < |tags| => Text(tags[i]))
  }

  predicate IsTextToken(j: Json) { j.Text? && IsToken(j.text) }

  /** The first `n` items are distinct tokens. */
  ghost predicate GoodUpTo(items: seq<Json>, n: nat)
    requires n <= |items|
  {
    && (forall i :: 0 <= i < n ==> IsTextToken(items[i]))
    && forall i, j :: 0 <= i < j < n ==> items[i] != items[j]
  }

  /** What is to be said of a list of tags: the tags in their own order if they are distinct tokens, and otherwise what is
      wrong with the first that spoils it.
  */
  ghost predicate TagsVerdict(raw: Json, r: Result<seq<string>>) {
    if !raw.Array? || raw.items == [] then r == Rejected(TagsNotAnArray)
    else
      match r
      case Accepted(tags) => AreTags(tags) && raw.items == Texts(tags)
      case Rejected(BadTag) => exists i: nat :: i < |raw.items| && GoodUpTo(raw.items, i) && !IsTextToken(raw.items[i])
      case Rejected(DuplicateTag(tag)) =>
        exists i: nat :: i < |raw.items| && GoodUpTo(raw.items, i) && raw.items[i] == Text(tag) && Text(tag) in raw.items[..i]
      case _ => false
  }

  /** Item `n` is no token, or repeats an earlier one. */
  predicate Spoils(items: seq<Json>, n: nat)
    requires n < |items|
  {
    !IsTextToken(items[n]) || items[n] in items[..n]
  }

  function FaultAt(items: seq<Json>, n: nat): Error
    requires n < |items|
  {
    if IsTextToken(items[n]) then DuplicateTag(items[n].text) else BadTag
  }

  lemma GoodEndsWhereSpoiled(items: seq<Json>, n: nat, m: nat)
    requires n < |items| && m <= |items| && Spoils(items, n) && GoodUpTo(items, m)
    ensures m <= n
  {
    if IsTextToken(items[n]) {
      var k :| 0 <= k < n && items[k] == items[n];
    }
  }

  /** How far a verdict says that the list is good. */
  lemma GoodPart(items: seq<Json>, r: Result<seq<string>>) returns (n: nat)
    requires items != [] && TagsVerdict(Array(items), r)
    ensures n <= |items| && GoodUpTo(items, n) && (r.Accepted? <==> n == |items|) && (n < |items| ==> Spoils(items, n))
    ensures r.Accepted? ==> items == Texts(r.value)
    ensures r.Rejected? ==> r.error == FaultAt(items, n)
  {
    match r {
      case Accepted(tags) =>
        n := |items|;
        TextsAreGood(tags);
      case Rejected(BadTag) =>
        n :| n < |items| && GoodUpTo(items, n) && !IsTextToken(items[n]);
      case Rejected(DuplicateTag(tag)) =>
        n :| n < |items| && GoodUpTo(items, n) && items[n] == Text(tag) && Text(tag) in items[..n];
    }
  }

  lemma TextsAreGood(tags: seq<string>)
    requires AreTags(tags)
    ensures GoodUpTo(Texts(tags), |tags|)
  {
    forall i | 0 <= i < |tags|
      ensures IsTextToken(Texts(tags)[i])
    {
      assert tags[i] in tags;
    }
  }

  lemma OneGoodPart(items: seq<Json>, n: nat, m: nat)
    requires n <= |items| && GoodUpTo(items, n) && (n < |items| ==> Spoils(items, n))
    requires m <= |items| && GoodUpTo(items, m) && (m < |items| ==> Spoils(items, m))
    ensures n == m
  {
    if n < |items| { GoodEndsWhereSpoiled(items, n, m); }
    if m < |items| { GoodEndsWhereSpoiled(items, m, n); }
  }

  /** There is only one thing to be said of it. */
  lemma OneTagsVerdict(raw: Json, r: Result<seq<string>>, r': Result<seq<string>>)
    requires TagsVerdict(raw, r) && TagsVerdict(raw, r')
    ensures r == r'
  {
    if raw.Array? && raw.items != [] { OneListVerdict(raw.items, r, r'); }
  }

  lemma OneListVerdict(items: seq<Json>, r: Result<seq<string>>, r': Result<seq<string>>)
    requires items != [] && TagsVerdict(Array(items), r) && TagsVerdict(Array(items), r')
    ensures r == r'
  {
    var n := GoodPart(items, r);
    var n' := GoodPart(items, r');
    OneGoodPart(items, n, n');
    if r.Accepted? { TextsAreInjective(r.value, r'.value); }
  }

  /** `canonicalize_tags` */
  method CanonicalizeTags(raw: Json) returns (r: Result<seq<string>>)
    ensures TagsVerdict(raw, r)
  {
    if !raw.Array? || raw.items == [] { return Rejected(TagsNotAnArray); }
    var normalized: seq<string> := [];
    var seen: set<string> := {};
    for i := 0 to |raw.items|
      invariant |normalized| == i && (forall k :: 0 <= k < i ==> raw.items[k] == Text(normalized[k]))
      invariant (forall t :: t in normalized ==> IsToken(t)) && Distinct(normalized)
      invariant forall t :: t in seen <==> t in normalized
      invariant GoodUpTo(raw.items, i)
    {
      var item := raw.items[i];
      if !item.Text? || item.text == [] || HasSpace(item.text) { return Rejected(BadTag); }
      var tag := item.text;
      if tag in seen {
        var k :| 0 <= k < i && normalized[k] == tag;
        assert raw.items[..i][k] == Text(tag);
        return Rejected(DuplicateTag(tag));
      }
      seen := seen + {tag};
      normalized := normalized + [tag];
    }
    assert raw.items == Texts(normalized);
    return Accepted(normalized);
  }

  lemma TextsAreInjective(a: seq<string>, b: seq<string>)
    requires Texts(a) == Texts(b)
    ensures a == b
  {
    assert |Texts(a)| == |Texts(b)|;
    forall i | 0 <= i < |a|
      ensures a[i] == b[i]
    {
      assert Texts(a)[i] == Texts(b)[i];
    }
  }

  predicate HasSpace(s: string) { exists c :: c in s && IsSpace(c) }

  /** What is to be said of a record: exactly an id and tags, the id a token, and then what is to be said of the tags. */
  ghost predicate RecordVerdict(raw: Json, r: Result<Record>) {
    if !raw.Object? || raw.fields.Keys != {"id", "tags"} then r == Rejected(WrongFields)
    else if !IsTextToken(raw.fields["id"]) then r == Rejected(BadId)
    else
      match r
      case Accepted(record) => Text(record.id) == raw.fields["id"] && TagsVerdict(raw.fields["tags"], Accepted(record.tags))
      case Rejected(error) => TagsVerdict(raw.fields["tags"], Rejected(error))
  }

  /** Accepted are exactly the objects with a token for an id and a list of distinct tokens for tags. */
  lemma AcceptedIff(raw: Json, r: Result<Record>, record: Record)
    requires RecordVerdict(raw, r)
    ensures r == Accepted(record) <==> IsRecord(record) && raw == Rendered(record)
  {
    if r == Accepted(record) {
      assert raw.fields["tags"] == Array(Texts(record.tags));
      assert raw.fields == map["id" := Text(record.id), "tags" := Array(Texts(record.tags))];
    }
    if IsRecord(record) && raw == Rendered(record) {
      assert raw.fields.Keys == {"id", "tags"} && "id" != "tags" by { assert |"id"| == 2 && |"tags"| == 4; }
      var tags := if r.Accepted? then Accepted(r.value.tags) else Rejected(r.error);
      OneTagsVerdict(raw.fields["tags"], tags, Accepted(record.tags));
    }
  }

  /** `parse_record` */
  method ParseRecord(raw: Json) returns (r: Result<Record>)
    ensures RecordVerdict(raw, r)
  {
    if !raw.Object? || raw.fields.Keys != {"id", "tags"} { return Rejected(WrongFields); }
    var id := raw.fields["id"];
    if !id.Text? || id.text == [] || HasSpace(id.text) { return Rejected(BadId); }
    var tags := CanonicalizeTags(raw.fields["tags"]);
    if tags.Rejected? { return Rejected(tags.error); }
    return Accepted(Record(id.text, tags.value));
  }

  function Rendered(r: Record): Json {
    Object(map["id" := Text(r.id), "tags" := Array(Texts(r.tags))])
  }

  // ----- a whole file -----

  /** A line of the file, as the JSON decoder has it. */
  datatype Parsed = Blank | NotJson | Value(json: Json)

  datatype LoadError = BlankRecord(line: nat) | InvalidJson(line: nat) | Refused(error: Error) | DuplicateId(line: nat, id: string) | NoRecords

  datatype Loaded = Fixture(records: seq<Record>) | Unusable(error: LoadError)

  /** The lines are these records, whose ids differ. */
  ghost predicate AreLines(lines: seq<Parsed>, records: seq<Record>) {
    && |records| == |lines|
    && (forall i :: 0 <= i < |lines| ==> IsRecord(records[i]) && lines[i] == Value(Rendered(records[i])))
    && forall i, j :: 0 <= i < j < |records| ==> records[i].id != records[j].id
  }

  /** After the good lines before it, line `n` (counted from 0) is unusable in this way. */
  ghost predicate FailsAt(lines: seq<Parsed>, records: seq<Record>, n: nat, error: LoadError)
    requires n < |lines|
  {
    AreLines(lines[..n], records) &&
    match error
    case BlankRecord(line) => line == n + 1 && lines[n].Blank?
    case InvalidJson(line) => line == n + 1 && lines[n].NotJson?
    case Refused(e) => lines[n].Value? && RecordVerdict(lines[n].json, Rejected(e))
    case DuplicateId(line, id) =>
      && line == n + 1 && (exists i :: 0 <= i < n && records[i].id == id)
      && exists record :: IsRecord(record) && record.id == id && lines[n] == Value(Rendered(record))
    case NoRecords => false
  }

  lemma RenderedDiffer(a: Record, b: Record)
    requires Rendered(a) == Rendered(b)
    ensures a == b
  {
    assert |"id"| == 2 && |"tags"| == 4;
    assert Rendered(a).fields["id"] == Rendered(b).fields["id"] && Rendered(a).fields["tags"] == Rendered(b).fields["tags"];
    TextsAreInjective(a.tags, b.tags);
  }

  /** An unusable line stays one: then the whole file is no fixture. */
  lemma FailingFails(lines: seq<Parsed>, before: seq<Record>, n: nat, error: LoadError, records: seq<Record>)
    requires n < |lines| && FailsAt(lines, before, n, error)
    ensures !AreLines(lines, records)
  {
    if AreLines(lines, records) {
      match error {
        case Refused(e) => AcceptedIff(lines[n].json, Rejected(e), records[n]);
        case DuplicateId(_, id) =>
          var i :| 0 <= i < n && before[i].id == id;
          var record :| IsRecord(record) && record.id == id && lines[n] == Value(Rendered(record));
          assert lines[..n][i] == lines[i];
          RenderedDiffer(before[i], records[i]);
          RenderedDiffer(record, records[n]);
        case _ =>
      }
    }
  }

  /** `load_jsonl`: exactly the files with a record on every line and at least one, no id twice; otherwise what is wrong with
      the first line that is unusable.
  */
  method Load(lines: seq<Parsed>) returns (r: Loaded)
    ensures r.Fixture? ==> lines != [] && AreLines(lines, r.records)
    ensures r.Unusable? && lines == [] ==> r.error == NoRecords
    ensures r.Unusable? && lines != [] ==> exists n: nat, records :: n < |lines| && FailsAt(lines, records, n, r.error)
    ensures r.Unusable? ==> lines == [] || forall records :: !AreLines(lines, records)
  {
    var records: seq<Record> := [];
    var ids: set<string> := {};
    for n := 0 to |lines|
      invariant AreLines(lines[..n], records) && ids == (set record | record in records :: record.id)
    {
      var record, error := LoadLine(lines[n], n, records, ids);
      if error.Some? {
        assert FailsAt(lines, records, n, error.value);
        forall others
          ensures !AreLines(lines, others)
        {
          FailingFails(lines, records, n, error.value, others);
        }
        return Unusable(error.value);
      }
      assert lines[..n + 1] == lines[..n] + [lines[n]];
      ids := ids + {record.id};
      records := records + [record];
    }
    assert lines[..|lines|] == lines;
    r := if records == [] then Unusable(NoRecords) else Fixture(records);
  }

  /** One line, after those of `records`. */
  method LoadLine(line: Parsed, n: nat, ghost records: seq<Record>, ids: set<string>) returns (record: Record, error: Option<LoadError>)
    requires ids == (set record | record in records :: record.id)
    ensures error.None? ==> IsRecord(record) && line == Value(Rendered(record)) && record.id !in ids
    ensures error.Some? ==>
              match error.value
              case BlankRecord(k) => k == n + 1 && line.Blank?
              case InvalidJson(k) => k == n + 1 && line.NotJson?
              case Refused(e) => line.Value? && RecordVerdict(line.json, Rejected(e))
              case DuplicateId(k, id) =>
                k == n + 1 && id in ids && exists other :: IsRecord(other) && other.id == id && line == Value(Rendered(other))
              case NoRecords => false
  {
    record, error := Record("", []), None;
    match line
    case Blank => error := Some(BlankRecord(n + 1));
    case NotJson => error := Some(InvalidJson(n + 1));
    case Value(json) =>
      var r := ParseRecord(json);
      if r.Rejected? { return record, Some(Refused(r.error)); }
      record := r.value;
      AcceptedIff(json, r, record);
      if record.id in ids { error := Some(DuplicateId(n + 1, record.id)); }
  }

  // ----- the fingerprint's stream -----

  function Line(r: Record): string
  {
    r.id + [TAB] + Join(r.tags, SPACE)
  }

  function Serial(records: seq<Record>): string
    decreases |records|
  {
    if records == [] then [] else Line(records[0]) + [NEWLINE] + Serial(records[1..])
  }

  /** One record's updates encode its line. */
  lemma LineIsEncoded(r: Record)
    ensures Utf8.Encode(r.id) + [9] + Utf8.Encode(Join(r.tags, SPACE)) + [10] == Utf8.Encode(Line(r) + [NEWLINE])
  {
    assert Utf8.Encode([TAB]) == [9] && Utf8.Encode([NEWLINE]) == [10] by {
      assert [TAB][1..] == [] && [NEWLINE][1..] == [];
    }
    Utf8.EncodeAppend(r.id, [TAB]);
    Utf8.EncodeAppend(r.id + [TAB], Join(r.tags, SPACE));
    Utf8.EncodeAppend(Line(r), [NEWLINE]);
  }

  lemma Regrouped<T>(s: seq<T>, a: seq<T>, b: seq<T>, c: seq<T>, d: seq<T>)
    ensures s + a + b + c + d == s + (a + b + c + d)
  {
  }

  /** The updates of `fixture_fingerprint` for one record: id, a tab, the tags and a newline, in bytes. */
  method Update(stream: seq<LittleEndian.Byte>, r: Record) returns (stream': seq<LittleEndian.Byte>)
    ensures stream' == stream + Utf8.Encode(Line(r) + [NEWLINE])
  {
    var id, tags := Utf8.Encode(r.id), Utf8.Encode(Join(r.tags, SPACE));
    stream' := stream + id;
    stream' := stream' + [9];
    stream' := stream' + tags;
    stream' := stream' + [10];
    LineIsEncoded(r);
    Regrouped(stream, id, [9], tags, [10]);
  }

  /** The bytes from record `i` on. */
  ghost function Rest(records: seq<Record>, i: nat): seq<LittleEndian.Byte>
    requires i <= |records|
  {
    Utf8.Encode(Serial(records[i..]))
  }

  lemma RestSplits(records: seq<Record>, i: nat)
    requires i < |records|
    ensures Rest(records, i) == Utf8.Encode(Line(records[i]) + [NEWLINE]) + Rest(records, i + 1)
  {
    assert records[i..][0] == records[i] && records[i..][1..] == records[i + 1..];
    Utf8.EncodeAppend(Line(records[i]) + [NEWLINE], Serial(records[i + 1..]));
  }

  lemma RestEnds(records: seq<Record>)
    ensures Rest(records, 0) == Utf8.Encode(Serial(records)) && Rest(records, |records|) == []
  {
    assert records[0..] == records && records[|records|..] == [];
  }

  /** `fixture_fingerprint`, up to the hash. */
  method Serialize(records: seq<Record>) returns (stream: seq<LittleEndian.Byte>)
    ensures stream == Utf8.Encode(Serial(records))
  {
    RestEnds(records);
    stream := [];
    for i := 0 to |records|
      invariant Rest(records, 0) == stream + Rest(records, i)
    {
      RestSplits(records, i);
      stream := Update(stream, records[i]);
    }
  }

  function ParseLine(line: string): Option<Record> {
    if TAB !in line then None
    else Some(Record(line[..IndexOf(line, TAB)], Split(line[IndexOf(line, TAB) + 1..], SPACE)))
  }

  /** Reading a stream back: lines, then the id and the tags of each. */
  function Decode(stream: string): Option<seq<Record>>
    decreases |stream|
  {
    if stream == [] then Some([])
    else if NEWLINE !in stream then None
    else
      var n := IndexOf(stream, NEWLINE);
      var first, rest := ParseLine(stream[..n]), Decode(stream[n + 1..]);
      if first.None? || rest.None? then None else Some([first.value] + rest.value)
  }

  lemma TokenIsFree(s: string)
    requires Blankless(s)
    ensures TAB !in s && SPACE !in s && NEWLINE !in s
  {
    assert IsSpace(TAB) && IsSpace(SPACE) && IsSpace(NEWLINE);
  }

  lemma LineRoundTrip(r: Record)
    requires IsRecord(r)
    ensures NEWLINE !in Line(r) && ParseLine(Line(r)) == Some(r)
  {
    TokenIsFree(r.id);
    forall t | t in r.tags
      ensures SPACE !in t && NEWLINE !in t
    {
      TokenIsFree(t);
    }
    SplitOnce(r.id, TAB, Join(r.tags, SPACE));
    SplitOfJoin(r.tags, SPACE);
    JoinFree(r.tags, SPACE, NEWLINE);
  }

  lemma DecodeFirst(line: string, rest: string)
    requires NEWLINE !in line && ParseLine(line).Some? && Decode(rest).Some?
    ensures Decode(line + [NEWLINE] + rest) == Some([ParseLine(line).value] + Decode(rest).value)
  {
    SplitOnce(line, NEWLINE, rest);
  }

  predicate Readable(r: Record) { NEWLINE !in Line(r) && ParseLine(Line(r)) == Some(r) }

  lemma {:induction false} DecodeReadable(records: seq<Record>)
    requires forall r :: r in records ==> Readable(r)
    ensures Decode(Serial(records)) == Some(records)
    decreases |records|
  {
    if records != [] {
      var first, rest := records[0], records[1..];
      assert records == [first] + rest && Readable(first);
      DecodeReadable(rest);
      DecodeFirst(Line(first), Serial(rest));
    }
  }

  /** Decoding inverts serialising, for every list of accepted records. */
  lemma RoundTrip(records: seq<Record>)
    requires forall r :: r in records ==> IsRecord(r)
    ensures Decode(Serial(records)) == Some(records)
  {
    forall r | r in records
      ensures Readable(r)
    {
      LineRoundTrip(r);
    }
    DecodeReadable(records);
  }

  /** Accepted fixtures with the same stream are the same. */
  lemma StreamsAreUnique(a: seq<Record>, b: seq<Record>)
    requires (forall r :: r in a ==> IsRecord(r)) && forall r :: r in b ==> IsRecord(r)
    requires Serial(a) == Serial(b)
    ensures a == b
  {
    RoundTrip(a);
    RoundTrip(b);
  }

  /** Accepted fixtures that feed the hash the same bytes are the same. */
  lemma BytesAreUnique(a: seq<Record>, b: seq<Record>)
    requires (forall r :: r in a ==> IsRecord(r)) && forall r :: r in b ==> IsRecord(r)
    requires Utf8.Encode(Serial(a)) == Utf8.Encode(Serial(b))
    ensures a == b
  {
    Utf8.BytesAreUnique(Serial(a), Serial(b));
    StreamsAreUnique(a, b);
  }

  /** The check is what makes it so: with a blank inside a tag, two different fixtures have one stream. */
  lemma UncheckedStreamsCollide() returns (a: Record, b: Record)
    ensures a != b && !IsRecord(a) && IsRecord(b) && Serial([a]) == Serial([b])
  {
    a, b := Record("x", ["p q"]), Record("x", ["p", "q"]);
    assert "p q"[1] == ' ' && IsSpace(' ') && !Blankless("p q");
    assert |a.tags| != |b.tags|;
    assert !IsToken(a.tags[0]) && a.tags[0] in a.tags;
    assert "p"[0] != "q"[0] && b.tags[0] != b.tags[1];
    assert IsToken("x") && IsToken("p") && IsToken("q");
    assert b.tags[1..] == ["q"];
    assert Join(b.tags, SPACE) == "p" + [SPACE] + "q" == "p q" == Join(a.tags, SPACE);
    assert Line(a) == Line(b);
  }
}
