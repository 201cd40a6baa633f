/** The little-endian codecs: encoders that write the bytes of a number into a buffer, and decoders that put them
    together again.

    Numbers are naturals below a power of 256: shifting by whole bytes is multiplying or dividing by such a power, and
    taking one byte is the remainder.  The decoders put a byte into bits that are still zero, where OR is addition.
*/
module LittleEndian {
  import opened Division

  type Byte = b: nat | b < 256

  function Pow(n: nat): (p: nat)
    ensures p > 0
  {
    if n == 0 then 1 else 256 * Pow(n - 1)
  }

  const MAX64: nat := 0xFFFF_FFFF_FFFF_FFFF

  lemma EightBytesAreSixtyFourBits()
    ensures Pow(8) == MAX64 + 1 && Pow(4) == 0x1_0000_0000 && Pow(2) == 0x1_0000
  {
    assert Pow(1) == 256 && Pow(2) == 256 * Pow(1);
    assert Pow(3) == 256 * Pow(2) && Pow(4) == 256 * Pow(3);
    assert Pow(5) == 256 * Pow(4) && Pow(6) == 256 * Pow(5);
    assert Pow(7) == 256 * Pow(6) && Pow(8) == 256 * Pow(7);
  }

  // ----- the bytes of a number, and the number of some bytes -----

  function Bytes(v: nat, n: nat): (s: seq<Byte>)
    ensures |s| == n
    decreases n
  {
    if n == 0 then [] else [v % 256] + Bytes(v / 256, n - 1)
  }

  function Value(s: seq<Byte>): nat
    decreases |s|
  {
    if s == [] then 0 else s[0] + 256 * Value(s[1..])
  }

  lemma {:induction false} ValueFits(s: seq<Byte>)
    ensures Value(s) < Pow(|s|)
    decreases |s|
  {
    if s != [] { ValueFits(s[1..]); }
  }

  /** Decoding what was encoded gives every number that fits back. */
  lemma {:induction false} DecodeOfEncode(v: nat, n: nat)
    requires v < Pow(n)
    ensures Value(Bytes(v, n)) == v
    decreases n
  {
    if n > 0 {
      DecodeOfEncode(v / 256, n - 1);
      assert Bytes(v, n)[1..] == Bytes(v / 256, n - 1);
    }
  }

  /** Encoding what was decoded restores every byte. */
  lemma {:induction false} EncodeOfDecode(s: seq<Byte>)
    ensures Bytes(Value(s), |s|) == s
    decreases |s|
  {
    if s != [] {
      var rest := Value(s[1..]);
      EncodeOfDecode(s[1..]);
      assert Value(s) % 256 == s[0] && Value(s) / 256 == rest;
    }
  }

  /** Dropping `u` bytes and taking the lowest gives byte `u`. */
  lemma {:induction false} ByteAt(v: nat, n: nat, u: nat)
    requires u < n
    ensures v / Pow(u) % 256 == Bytes(v, n)[u]
    decreases u
  {
    if u > 0 {
      ByteAt(v / 256, n - 1, u - 1);
      DivideTwice(v, Pow(u - 1));
    }
  }

  lemma DivideTwice(v: nat, p: nat)
    requires p > 0
    ensures v / (256 * p) == v / 256 / p
  {
    var q := v / 256 / p;
    QuotientAtLeast(v / 256, p, q);
    QuotientAtLeast(v / 256, p, q + 1);
    assert (q + 1) * p == q * p + p && q * (256 * p) == 256 * (q * p);
    QuotientAtLeast(v, 256 * p, q);
    assert (q + 1) * (256 * p) == 256 * ((q + 1) * p);
    QuotientAtLeast(v, 256 * p, q + 1);
  }

  /** A further byte goes above those there are. */
  lemma {:induction false} ValueSnoc(s: seq<Byte>, b: Byte)
    ensures Value(s + [b]) == Value(s) + b * Pow(|s|)
    decreases |s|
  {
    if s == [] {
      assert s + [b] == [b] && [b][1..] == [];
    } else {
      ValueSnoc(s[1..], b);
      assert (s + [b])[1..] == s[1..] + [b];
      assert b * (256 * Pow(|s| - 1)) == 256 * (b * Pow(|s| - 1));
    }
  }

  // ----- the codecs -----

  /** `cachetag_le16enc`: both bytes are written, and no others. */
  method Enc16(p: array<Byte>, at: nat, v: nat)
    requires at + 2 <= p.Length
    modifies p
    ensures p[..] == old(p[..at]) + Bytes(v, 2) + old(p[at + 2..])
  {
    p[at] := v % 256;
    p[at + 1] := v / 256 % 256;
    assert Bytes(v / 256, 1) == [v / 256 % 256];
  }

  /** `cachetag_le16dec` */
  method Dec16(p: array<Byte>, at: nat) returns (v: nat)
    requires at + 2 <= p.Length
    ensures v == Value(p[at..at + 2])
  {
    v := p[at] as int + p[at + 1] as int * 256;
    assert p[at..at + 2] == [p[at]] + [p[at + 1]];
    ValueSnoc([p[at]], p[at + 1]);
    ValueSnoc([], p[at]);
    assert [] + [p[at]] == [p[at]];
    assert Pow(1) == 256 * Pow(0);
  }

  /** The loop of `cachetag_le32enc` and `cachetag_le64enc`: `n` bytes are written, and no others. */
  method Enc(p: array<Byte>, at: nat, v: nat, n: nat)
    requires at + n <= p.Length
    modifies p
    ensures p[..] == old(p[..at]) + Bytes(v, n) + old(p[at + n..])
  {
    ghost var bytes := Bytes(v, n);
    for u := 0 to n
      invariant forall k :: 0 <= k < u ==> p[at + k] == bytes[k]
      invariant forall i :: 0 <= i < p.Length && !(at <= i < at + u) ==> p[i] == old(p[i])
    {
      ByteAt(v, n, u);
      p[at + u] := v / Pow(u) % 256;
    }
    assert p[at..at + n] == bytes;
    assert p[..] == p[..at] + p[at..at + n] + p[at + n..];
  }

  /** The loop of `cachetag_le32dec` and `cachetag_le64dec`. */
  method Dec(p: array<Byte>, at: nat, n: nat) returns (v: nat)
    requires at + n <= p.Length
    ensures v == Value(p[at..at + n]) < Pow(n)
  {
    v := 0;
    for u := 0 to n
      invariant v == Value(p[at..at + u])
    {
      ValueSnoc(p[at..at + u], p[at + u]);
      assert p[at..at + u + 1] == p[at..at + u] + [p[at + u]];
      v := v + p[at + u] * Pow(u);
    }
    ValueFits(p[at..at + n]);
  }
}
