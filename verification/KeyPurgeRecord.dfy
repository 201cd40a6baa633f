/** The purge records of the write-ahead log: one key in 32 bytes, or a batch of keys under one sequence. */
module KeyPurgeRecord {
  import opened LittleEndian
  import opened PurgeHistory
  import PurgeMap

  datatype Key = Key(hi: nat, lo: nat)

  predicate IsKey(k: Key) { k.hi <= MAX64 && k.lo <= MAX64 }

  datatype Record = Record(key: Key, mode: Mode, sequence: nat)

  datatype Batch = Batch(keys: seq<Key>, mode: Mode, sequence: nat)

  datatype Decoded<T> = Accepted(value: T) | Invalid

  /** The sequences a record may carry. */
  predicate IsSequence(q: nat) { 0 < q < MAX64 }

  function ModeByte(mode: Mode): Byte { if mode == Hard then 1 else 2 }

  const Zeros5: seq<Byte> := [0, 0, 0, 0, 0]

  // ----- one key -----

  /** Where the parts of a record lie. */
  function Layout(version: seq<Byte>, mode: Byte, hi: seq<Byte>, lo: seq<Byte>, q: seq<Byte>): seq<Byte> {
    version + [mode] + Zeros5 + hi + lo + q
  }

  lemma LayoutParts(version: seq<Byte>, mode: Byte, hi: seq<Byte>, lo: seq<Byte>, q: seq<Byte>)
    requires |version| == 2 && |hi| == |lo| == |q| == 8
    ensures var p := Layout(version, mode, hi, lo, q);
            && |p| == 32 && p[0..2] == version && p[2] == mode && p[3..8] == Zeros5
            && p[8..16] == hi && p[16..24] == lo && p[24..32] == q
  {
  }

  /** The 32 bytes: version 2, mode, five reserved bytes, digest and sequence. */
  function Payload(r: Record): seq<Byte> {
    Layout(Bytes(2, 2), ModeByte(r.mode), Bytes(r.key.hi, 8), Bytes(r.key.lo, 8), Bytes(r.sequence, 8))
  }

  /** `cachetag_persist_key_purge_digest`, up to the log append. */
  method Encode(r: Record) returns (payload: array<Byte>)
    ensures fresh(payload) && payload[..] == Payload(r)
  {
    payload := new Byte[32];
    Enc16(payload, 0, 2);
    payload[2] := ModeByte(r.mode);
    payload[3] := 0;
    for i := 4 to 8
      invariant payload[..2] == Bytes(2, 2) && payload[2] == ModeByte(r.mode)
      invariant forall k :: 3 <= k < i ==> payload[k] == 0
    {
      payload[i] := 0;
    }
    assert payload[3..8] == Zeros5;
    ghost var head := payload[..8];
    assert head == Bytes(2, 2) + [ModeByte(r.mode)] + Zeros5;
    Enc(payload, 8, r.key.hi, 8);
    assert payload[..16] == head + Bytes(r.key.hi, 8);
    Enc(payload, 16, r.key.lo, 8);
    assert payload[..24] == head + Bytes(r.key.hi, 8) + Bytes(r.key.lo, 8);
    Enc(payload, 24, r.sequence, 8);
    assert payload[..] == head + Bytes(r.key.hi, 8) + Bytes(r.key.lo, 8) + Bytes(r.sequence, 8);
  }

  /** What decoding a payload means. */
  function Decoding(p: seq<Byte>): Decoded<Record> {
    if |p| != 32 || Value(p[0..2]) != 2 then Invalid
    else
      var q := Value(p[24..32]);
      if q == 0 || q == MAX64 then Invalid
      else if p[2] == 1 then Accepted(Record(Key(Value(p[8..16]), Value(p[16..24])), Hard, q))
      else if p[2] == 2 then Accepted(Record(Key(Value(p[8..16]), Value(p[16..24])), Soft, q))
      else Invalid
  }

  /** `cachetag_decode_key_purge_record` */
  method Decode(p: array<Byte>) returns (r: Decoded<Record>)
    ensures r == Decoding(p[..])
  {
    if p.Length != 32 { return Invalid; }
    assert p[..][0..2] == p[0..2] && p[..][8..16] == p[8..16] && p[..][16..24] == p[16..24] && p[..][24..32] == p[24..32];
    var version := Dec16(p, 0);
    if version != 2 { return Invalid; }
    var hi := Dec(p, 8, 8);
    var lo := Dec(p, 16, 8);
    var q := Dec(p, 24, 8);
    if q == 0 || q == MAX64 { return Invalid; }
    if p[2] == 1 { return Accepted(Record(Key(hi, lo), Hard, q)); }
    if p[2] == 2 { return Accepted(Record(Key(hi, lo), Soft, q)); }
    return Invalid;
  }

  lemma PayloadParts(r: Record)
    ensures var p := Payload(r);
            && |p| == 32 && p[0..2] == Bytes(2, 2) && p[2] == ModeByte(r.mode) && p[3..8] == Zeros5
            && p[8..16] == Bytes(r.key.hi, 8) && p[16..24] == Bytes(r.key.lo, 8) && p[24..32] == Bytes(r.sequence, 8)
  {
    LayoutParts(Bytes(2, 2), ModeByte(r.mode), Bytes(r.key.hi, 8), Bytes(r.key.lo, 8), Bytes(r.sequence, 8));
  }

  /** A record survives the log exactly when its sequence is neither zero nor the maximum. */
  lemma RecordRoundTrip(r: Record)
    requires IsKey(r.key) && r.sequence <= MAX64
    ensures Decoding(Payload(r)) == if IsSequence(r.sequence) then Accepted(r) else Invalid
  {
    EightBytesAreSixtyFourBits();
    PayloadParts(r);
    DecodeOfEncode(2, 2);
    DecodeOfEncode(r.key.hi, 8);
    DecodeOfEncode(r.key.lo, 8);
    DecodeOfEncode(r.sequence, 8);
  }

  /** A purge is accepted while the sequence before it is below the maximum, so the last one accepted has the maximum
      itself.  Its record alone is refused when it is read back.
  */
  lemma RecordOfPurge(key: Key, mode: Mode, before: nat)
    requires IsKey(key) && before < PurgeMap.MAX_SEQUENCE
    ensures Decoding(Payload(Record(key, mode, before + 1))).Accepted? <==> before + 1 < PurgeMap.MAX_SEQUENCE
  {
    RecordRoundTrip(Record(key, mode, before + 1));
  }

  /** Parts cut from a payload make it up again exactly when its reserved bytes are zero. */
  lemma Reassembled(p: seq<Byte>, version: seq<Byte>, hi: seq<Byte>, lo: seq<Byte>, q: seq<Byte>)
    requires |p| == 32 && version == p[0..2] && hi == p[8..16] && lo == p[16..24] && q == p[24..32]
    ensures Layout(version, p[2], hi, lo, q) == p <==> p[3..8] == Zeros5
  {
    LayoutParts(version, p[2], hi, lo, q);
    assert p == p[0..2] + [p[2]] + p[3..8] + p[8..16] + p[16..24] + p[24..32];
  }

  /** An accepted payload is the one its record encodes to exactly when its reserved bytes are zero: the decoder does not
      look at them.
  */
  lemma PayloadRoundTrip(p: seq<Byte>)
    requires Decoding(p).Accepted?
    ensures Payload(Decoding(p).value) == p <==> p[3..8] == Zeros5
  {
    EncodeOfDecode(p[0..2]);
    EncodeOfDecode(p[8..16]);
    EncodeOfDecode(p[16..24]);
    EncodeOfDecode(p[24..32]);
    Reassembled(p, p[0..2], p[8..16], p[16..24], p[24..32]);
  }

  /** A payload with a reserved byte set is accepted, and is not what its record encodes to. */
  lemma ReservedIsIgnored() returns (p: seq<Byte>)
    ensures |p| == 32 && p[3..8] != Zeros5 && Decoding(p) == Accepted(Record(Key(1, 2), Hard, 3))
    ensures Payload(Record(Key(1, 2), Hard, 3)) != p
  {
    var r := Record(Key(1, 2), Hard, 3);
    var q := Payload(r);
    RecordRoundTrip(r);
    PayloadParts(r);
    p := q[3 := 1];
    assert p[3..8][0] == 1;
    assert p[0..2] == q[0..2] && p[8..16] == q[8..16] && p[16..24] == q[16..24] && p[24..32] == q[24..32];
    PayloadRoundTrip(p);
  }

  // ----- a batch -----

  /** A key's sixteen bytes. */
  function KeyPair(k: Key): (s: seq<Byte>)
    ensures |s| == 16
  {
    Bytes(k.hi, 8) + Bytes(k.lo, 8)
  }

  function Flat(parts: seq<seq<Byte>>): seq<Byte>
    decreases |parts|
  {
    if parts == [] then [] else parts[0] + Flat(parts[1..])
  }

  function Pairs(keys: seq<Key>): seq<seq<Byte>> {
    seq(|keys|, i requires 0 <= i < |keys| => KeyPair(keys[i]))
  }

  /** Key after key. */
  function KeyBytes(keys: seq<Key>): seq<Byte> { Flat(Pairs(keys)) }

  lemma {:induction false} FlatSnoc(parts: seq<seq<Byte>>, last: seq<Byte>)
    ensures Flat(parts + [last]) == Flat(parts) + last
    decreases |parts|
  {
    if parts == [] {
      assert parts + [last] == [last] && [last][1..] == [];
    } else {
      FlatSnoc(parts[1..], last);
      assert (parts + [last])[1..] == parts[1..] + [last];
    }
  }

  lemma {:induction false} FlatSize(parts: seq<seq<Byte>>, size: nat)
    requires forall p :: p in parts ==> |p| == size
    ensures |Flat(parts)| == size * |parts|
    decreases |parts|
  {
    if parts != [] {
      FlatSize(parts[1..], size);
      assert size * |parts| == size * (|parts| - 1) + size;
    }
  }

  function BatchPayload(b: Batch): seq<Byte> {
    BatchHead(b) + KeyBytes(b.keys)
  }

  /** The keys of a payload's tail, in its order. */
  function KeysOf(p: seq<Byte>): seq<Key>
    decreases |p|
  {
    if |p| < 16 then [] else [Key(Value(p[..8]), Value(p[8..16]))] + KeysOf(p[16..])
  }

  lemma KeyBytesCons(keys: seq<Key>)
    requires keys != []
    ensures KeyBytes(keys) == KeyPair(keys[0]) + KeyBytes(keys[1..])
  {
    assert Pairs(keys)[1..] == Pairs(keys[1..]);
  }

  lemma {:induction false} KeysRoundTrip(keys: seq<Key>)
    requires forall k :: k in keys ==> IsKey(k)
    ensures KeysOf(KeyBytes(keys)) == keys
    decreases |keys|
  {
    if keys != [] {
      var first, rest := keys[0], keys[1..];
      assert keys == [first] + rest;
      assert IsKey(first) && forall k :: k in rest ==> k in keys;
      KeysRoundTrip(rest);
      KeyBytesCons(keys);
      FirstKey(first, KeyBytes(rest));
    }
  }

  lemma FirstKey(k: Key, rest: seq<Byte>)
    requires IsKey(k)
    ensures KeysOf(KeyPair(k) + rest) == [k] + KeysOf(rest)
  {
    var p := KeyPair(k) + rest;
    EightBytesAreSixtyFourBits();
    DecodeOfEncode(k.hi, 8);
    DecodeOfEncode(k.lo, 8);
    assert p[..8] == Bytes(k.hi, 8) && p[8..16] == Bytes(k.lo, 8) && p[16..] == rest;
  }

  lemma KeyBytesSnoc(keys: seq<Key>, k: Key)
    ensures KeyBytes(keys + [k]) == KeyBytes(keys) + KeyPair(k)
  {
    FlatSnoc(Pairs(keys), KeyPair(k));
    assert Pairs(keys + [k]) == Pairs(keys) + [KeyPair(k)];
  }

  function BatchHead(b: Batch): (s: seq<Byte>)
    ensures |s| == 24
  {
    Bytes(1, 2) + [ModeByte(b.mode)] + Zeros5 + Bytes(|b.keys|, 8) + Bytes(b.sequence, 8)
  }

  method EncodeHead(payload: array<Byte>, b: Batch)
    requires payload.Length >= 24 && forall i :: 0 <= i < payload.Length ==> payload[i] == 0
    modifies payload
    ensures payload[..24] == BatchHead(b)
  {
    Enc16(payload, 0, 1);
    payload[2] := ModeByte(b.mode);
    ghost var head := payload[..8];
    assert head == Bytes(1, 2) + [ModeByte(b.mode)] + Zeros5;
    Enc(payload, 8, |b.keys|, 8);
    assert payload[..16] == head + Bytes(|b.keys|, 8);
    Enc(payload, 16, b.sequence, 8);
    assert payload[..24] == head + Bytes(|b.keys|, 8) + Bytes(b.sequence, 8);
  }

  method EncodeKey(payload: array<Byte>, at: nat, k: Key) returns (ghost two: seq<Byte>)
    requires at + 16 <= payload.Length
    modifies payload
    ensures two == KeyPair(k)
    ensures payload[..at + 16] == old(payload[..at]) + two
  {
    ghost var done := payload[..at];
    Enc(payload, at, k.hi, 8);
    assert payload[..at + 8] == done + Bytes(k.hi, 8);
    Enc(payload, at + 8, k.lo, 8);
    two := KeyPair(k);
    assert payload[..at + 16] == done + Bytes(k.hi, 8) + Bytes(k.lo, 8);
  }

  lemma Associative(a: seq<Byte>, b: seq<Byte>, c: seq<Byte>)
    ensures a + b + c == a + (b + c)
  {
  }

  lemma NextKeyBytes(head: seq<Byte>, keys: seq<Key>, u: nat, two: seq<Byte>)
    requires u < |keys| && two == KeyPair(keys[u])
    ensures head + KeyBytes(keys[..u + 1]) == head + KeyBytes(keys[..u]) + two
  {
    var before, k := keys[..u], keys[u];
    KeyBytesSnoc(before, k);
    Associative(head, KeyBytes(before), two);
    assert keys[..u + 1] == before + [k];
  }

  method EncodeKeys(payload: array<Byte>, keys: seq<Key>)
    requires payload.Length == 24 + 16 * |keys|
    modifies payload
    ensures payload[..] == old(payload[..24]) + KeyBytes(keys)
  {
    ghost var head := payload[..24];
    var at := 24;
    for u := 0 to |keys|
      invariant at == 24 + 16 * u && payload[..at] == head + KeyBytes(keys[..u])
    {
      ghost var two := EncodeKey(payload, at, keys[u]);
      NextKeyBytes(head, keys, u, two);
      at := at + 16;
    }
    assert keys[..|keys|] == keys && payload[..] == payload[..at];
  }

  /** `cachetag_persist_key_purge_batch`, for two keys or more and up to the log append. */
  method EncodeBatch(b: Batch) returns (payload: array<Byte>)
    ensures fresh(payload) && payload[..] == BatchPayload(b)
  {
    payload := new Byte[24 + 16 * |b.keys|](_ => 0);
    EncodeHead(payload, b);
    EncodeKeys(payload, b.keys);
  }

  // ----- sorting, to find repeated keys -----

  /** `cachetag_purge_key_compare` below zero. */
  predicate Less(a: Key, b: Key) { a.hi < b.hi || (a.hi == b.hi && a.lo < b.lo) }

  predicate Sorted(keys: seq<Key>) { forall i, j :: 0 <= i < j < |keys| ==> !Less(keys[j], keys[i]) }

  ghost predicate NoRepeats(keys: seq<Key>) { forall i, j :: 0 <= i < j < |keys| ==> keys[i] != keys[j] }

  /** In a sorted list a repeated key stands next to itself. */
  lemma RepeatsAreAdjacent(keys: seq<Key>)
    requires Sorted(keys) && forall u :: 1 <= u < |keys| ==> keys[u - 1] != keys[u]
    ensures NoRepeats(keys)
  {
    forall i, j | 0 <= i < j < |keys|
      ensures keys[i] != keys[j]
    {
      assert keys[i] != keys[i + 1] && !Less(keys[i + 1], keys[i]);
      if i + 1 < j { assert !Less(keys[j], keys[i + 1]); }
    }
  }

  /** Repeats do not depend on the order. */
  lemma {:induction false} RepeatsAreCounted(keys: seq<Key>)
    ensures NoRepeats(keys) <==> forall k :: multiset(keys)[k] <= 1
  {
    if keys != [] {
      var before, last := keys[..|keys| - 1], keys[|keys| - 1];
      assert keys == before + [last];
      RepeatsAreCounted(before);
      if NoRepeats(keys) {
        assert NoRepeats(before) && last !in before;
      }
      if forall k :: multiset(keys)[k] <= 1 {
        assert forall k :: multiset(before)[k] <= multiset(keys)[k];
        assert multiset(keys)[last] == multiset(before)[last] + 1;
        assert last !in before;
      }
    }
  }

  /** A key put where it belongs; the library sort is any such arrangement. */
  method Insert(sorted: seq<Key>, k: Key) returns (r: seq<Key>)
    requires Sorted(sorted)
    ensures Sorted(r) && multiset(r) == multiset(sorted) + multiset{k}
  {
    var i := 0;
    while i < |sorted| && Less(sorted[i], k)
      invariant i <= |sorted| && forall j :: 0 <= j < i ==> Less(sorted[j], k)
    {
      i := i + 1;
    }
    r := sorted[..i] + [k] + sorted[i..];
    InsertedIsSorted(sorted, k, i);
  }

  lemma InsertedIsSorted(sorted: seq<Key>, k: Key, i: nat)
    requires Sorted(sorted) && i <= |sorted|
    requires (forall j :: 0 <= j < i ==> Less(sorted[j], k)) && (i < |sorted| ==> !Less(sorted[i], k))
    ensures Sorted(sorted[..i] + [k] + sorted[i..])
    ensures multiset(sorted[..i] + [k] + sorted[i..]) == multiset(sorted) + multiset{k}
  {
    var r := sorted[..i] + [k] + sorted[i..];
    forall x, y | 0 <= x < y < |r|
      ensures !Less(r[y], r[x])
    {
      InsertedPair(sorted, k, i, x, y);
    }
    assert sorted == sorted[..i] + sorted[i..];
  }

  lemma InsertedPair(sorted: seq<Key>, k: Key, i: nat, x: nat, y: nat)
    requires Sorted(sorted) && i <= |sorted| && x < y <= |sorted|
    requires (forall j :: 0 <= j < i ==> Less(sorted[j], k)) && (i < |sorted| ==> !Less(sorted[i], k))
    ensures var r := sorted[..i] + [k] + sorted[i..]; !Less(r[y], r[x])
  {
    var a := if x < i then sorted[x] else if x == i then k else sorted[x - 1];
    var b := if y < i then sorted[y] else if y == i then k else sorted[y - 1];
    if x == i && y - 1 > i { assert !Less(sorted[y - 1], sorted[i]); }
    assert !Less(b, a);
  }

  method Sort(keys: seq<Key>) returns (r: seq<Key>)
    ensures Sorted(r) && multiset(r) == multiset(keys)
  {
    r := [];
    for u := 0 to |keys|
      invariant Sorted(r) && multiset(r) == multiset(keys[..u])
    {
      assert keys[..u + 1] == keys[..u] + [keys[u]];
      r := Insert(r, keys[u]);
    }
    assert keys[..|keys|] == keys;
  }

  /** The decoder accepts a list of keys, sorted, exactly when none is repeated. */
  method SortDistinct(keys: seq<Key>) returns (ok: bool, sorted: seq<Key>)
    ensures ok <==> NoRepeats(keys)
    ensures ok ==> Sorted(sorted) && multiset(sorted) == multiset(keys)
  {
    sorted := Sort(keys);
    RepeatsAreCounted(keys);
    RepeatsAreCounted(sorted);
    var u := 1;
    while u < |sorted|
      invariant u >= 1 && forall k :: 1 <= k < u && k < |sorted| ==> sorted[k - 1] != sorted[k]
    {
      if sorted[u - 1] == sorted[u] { return false, sorted; }
      u := u + 1;
    }
    RepeatsAreAdjacent(sorted);
    ok := true;
  }

  const MAX_UNSIGNED: nat := 0xFFFF_FFFF

  /** A payload the log may carry, whatever its reserved bytes. */
  ghost predicate BatchDecodes(p: seq<Byte>) {
    && |p| >= 24 && Value(p[0..2]) == 1 && (p[2] == 1 || p[2] == 2)
    && 2 <= Value(p[8..16]) <= MAX_UNSIGNED && |p| == 24 + 16 * Value(p[8..16])
    && IsSequence(Value(p[16..24])) && NoRepeats(KeysOf(p[24..]))
  }

  /** What such a payload says, its keys in its own order. */
  function BatchIn(p: seq<Byte>): Batch
    requires |p| >= 24
  {
    Batch(KeysOf(p[24..]), if p[2] == 1 then Hard else Soft, Value(p[16..24]))
  }

  /** `cachetag_decode_key_purge_batch_record`, with memory for the keys. */
  method DecodeBatch(p: seq<Byte>) returns (r: Decoded<Batch>)
    ensures r.Accepted? <==> BatchDecodes(p)
    ensures r.Accepted? ==>
              && r.value.mode == BatchIn(p).mode && r.value.sequence == BatchIn(p).sequence
              && Sorted(r.value.keys) && multiset(r.value.keys) == multiset(BatchIn(p).keys)
  {
    if |p| < 24 || Value(p[0..2]) != 1 { return Invalid; }
    var n := Value(p[8..16]);
    if n < 2 || n > MAX_UNSIGNED || |p| != 24 + n * 16 { return Invalid; }
    var q := Value(p[16..24]);
    if q == 0 || q == MAX64 { return Invalid; }
    if p[2] != 1 && p[2] != 2 { return Invalid; }
    ValueFits(p[16..24]);
    EightBytesAreSixtyFourBits();
    var ok, sorted := SortDistinct(KeysOf(p[24..]));
    if !ok { return Invalid; }
    return Accepted(Batch(sorted, if p[2] == 1 then Hard else Soft, q));
  }

  /** A batch survives the log exactly when the log can carry it. */
  lemma BatchRoundTrip(b: Batch)
    requires AreKeys(b)
    ensures BatchDecodes(BatchPayload(b)) <==> IsBatch(b)
    ensures BatchIn(BatchPayload(b)) == b
  {
    BatchPayloadParts(b);
  }

  lemma FirstPair(tail: seq<Byte>)
    requires |tail| >= 16
    ensures KeyPair(Key(Value(tail[..8]), Value(tail[8..16]))) == tail[..16]
  {
    EncodeOfDecode(tail[..8]);
    EncodeOfDecode(tail[8..16]);
    assert tail[..16] == tail[..8] + tail[8..16];
  }

  lemma {:induction false} KeyBytesOfKeys(tail: seq<Byte>)
    requires |tail| % 16 == 0
    ensures KeyBytes(KeysOf(tail)) == tail
    decreases |tail|
  {
    if tail != [] {
      var keys, rest := KeysOf(tail), tail[16..];
      KeyBytesOfKeys(rest);
      FirstPair(tail);
      assert keys[1..] == KeysOf(rest);
      KeyBytesCons(keys);
      assert tail == tail[..16] + rest;
    }
  }

  lemma {:induction false} KeysOfSize(tail: seq<Byte>)
    requires |tail| % 16 == 0
    ensures |KeysOf(tail)| == |tail| / 16
    decreases |tail|
  {
    if tail != [] { KeysOfSize(tail[16..]); }
  }

  /** Parts cut from a batch payload make it up again exactly when its reserved bytes are zero. */
  lemma BatchReassembled(p: seq<Byte>, version: seq<Byte>, n: seq<Byte>, q: seq<Byte>, tail: seq<Byte>)
    requires |p| >= 24 && version == p[0..2] && n == p[8..16] && q == p[16..24] && tail == p[24..]
    ensures version + [p[2]] + Zeros5 + n + q + tail == p <==> p[3..8] == Zeros5
  {
    var made := version + [p[2]] + Zeros5 + n + q + tail;
    assert made[3..8] == Zeros5;
    assert p == p[0..2] + [p[2]] + p[3..8] + p[8..16] + p[16..24] + p[24..];
  }

  lemma PartIsEncoded(p: seq<Byte>, i: nat, j: nat) returns (part: seq<Byte>)
    requires i <= j <= |p|
    ensures part == p[i..j] && part == Bytes(Value(p[i..j]), j - i)
  {
    part := p[i..j];
    EncodeOfDecode(part);
  }

  lemma CountOfTail(p: seq<Byte>)
    requires BatchDecodes(p)
    ensures |BatchIn(p).keys| == Value(p[8..16])
  {
    KeysOfSize(p[24..]);
  }

  lemma HeadFromParts(b: Batch, count: nat, version: seq<Byte>, mode: Byte, n: seq<Byte>, q: seq<Byte>)
    requires count == |b.keys| && mode == ModeByte(b.mode)
    requires version == Bytes(1, 2) && n == Bytes(count, 8) && q == Bytes(b.sequence, 8)
    ensures BatchHead(b) == version + [mode] + Zeros5 + n + q
  {
  }

  lemma BatchFromParts(p: seq<Byte>) returns (version: seq<Byte>, n: seq<Byte>, q: seq<Byte>)
    requires BatchDecodes(p)
    ensures version == p[0..2] && n == p[8..16] && q == p[16..24]
    ensures BatchHead(BatchIn(p)) == version + [p[2]] + Zeros5 + n + q
  {
    version := PartIsEncoded(p, 0, 2);
    n := PartIsEncoded(p, 8, 16);
    q := PartIsEncoded(p, 16, 24);
    CountOfTail(p);
    HeadFromParts(BatchIn(p), Value(p[8..16]), version, p[2], n, q);
  }

  lemma TailFromParts(p: seq<Byte>)
    requires BatchDecodes(p)
    ensures KeyBytes(BatchIn(p).keys) == p[24..]
  {
    KeyBytesOfKeys(p[24..]);
  }

  lemma PayloadFromParts(p: seq<Byte>, b: Batch, version: seq<Byte>, n: seq<Byte>, q: seq<Byte>)
    requires |p| >= 24 && version == p[0..2] && n == p[8..16] && q == p[16..24]
    requires BatchHead(b) == version + [p[2]] + Zeros5 + n + q && KeyBytes(b.keys) == p[24..]
    ensures BatchPayload(b) == p <==> p[3..8] == Zeros5
  {
    BatchReassembled(p, version, n, q, p[24..]);
  }

  /** An accepted batch payload is the one its batch encodes to exactly when its reserved bytes are zero. */
  lemma BatchPayloadRoundTrip(p: seq<Byte>)
    requires BatchDecodes(p)
    ensures BatchPayload(BatchIn(p)) == p <==> p[3..8] == Zeros5
  {
    var version, n, q := BatchFromParts(p);
    TailFromParts(p);
    PayloadFromParts(p, BatchIn(p), version, n, q);
  }

  /** A batch whose numbers fit their fields. */
  ghost predicate AreKeys(b: Batch) {
    (forall k :: k in b.keys ==> IsKey(k)) && |b.keys| <= MAX64 && b.sequence <= MAX64
  }

  /** A batch the log can carry. */
  ghost predicate IsBatch(b: Batch) {
    2 <= |b.keys| <= MAX_UNSIGNED && NoRepeats(b.keys) && IsSequence(b.sequence)
  }

  ghost predicate BatchReads(p: seq<Byte>, b: Batch) {
    && |p| == 24 + 16 * |b.keys| && Value(p[0..2]) == 1 && p[2] == ModeByte(b.mode)
    && Value(p[8..16]) == |b.keys| && Value(p[16..24]) == b.sequence && KeysOf(p[24..]) == b.keys
  }

  lemma BatchPayloadParts(b: Batch)
    requires AreKeys(b)
    ensures BatchReads(BatchPayload(b), b)
  {
    EightBytesAreSixtyFourBits();
    DecodeOfEncode(1, 2);
    DecodeOfEncode(|b.keys|, 8);
    DecodeOfEncode(b.sequence, 8);
    KeysRoundTrip(b.keys);
    FlatSize(Pairs(b.keys), 16);
    BatchSlices(b);
  }

  lemma BatchSlices(b: Batch)
    requires |KeyBytes(b.keys)| == 16 * |b.keys|
    ensures var p := BatchPayload(b);
            && |p| == 24 + 16 * |b.keys| && p[0..2] == Bytes(1, 2) && p[2] == ModeByte(b.mode)
            && p[8..16] == Bytes(|b.keys|, 8) && p[16..24] == Bytes(b.sequence, 8) && p[24..] == KeyBytes(b.keys)
  {
    HeadSlices(b);
    var head, p := BatchHead(b), BatchPayload(b);
    assert p[0..2] == head[0..2] && p[8..16] == head[8..16] && p[16..24] == head[16..24];
  }

  lemma HeadSlices(b: Batch)
    ensures var h := BatchHead(b);
            && h[0..2] == Bytes(1, 2) && h[2] == ModeByte(b.mode)
            && h[8..16] == Bytes(|b.keys|, 8) && h[16..24] == Bytes(b.sequence, 8)
  {
  }
}
