/** UTF-8 (section 3 of RFC 3629): the bytes of a string, and that they determine it. */
module Utf8 {
  import opened LittleEndian

  /** The bytes of one character. */
  function Encoded(c: char): (s: seq<Byte>)
    ensures 1 <= |s| <= 4
  {
    var n := c as int;
    if n < 0x80 then [n]
    else if n < 0x800 then [0xC0 + n / 64, 0x80 + n % 64]
    else if n < 0x1_0000 then [0xE0 + n / 4096, 0x80 + n / 64 % 64, 0x80 + n % 64]
    else [0xF0 + n / 262144, 0x80 + n / 4096 % 64, 0x80 + n / 64 % 64, 0x80 + n % 64]
  }

  function Encode(s: string): seq<Byte>
    decreases |s|
  {
    if s == [] then [] else Encoded(s[0]) + Encode(s[1..])
  }

  lemma {:induction false} EncodeAppend(a: string, b: string)
    ensures Encode(a + b) == Encode(a) + Encode(b)
    decreases |a|
  {
    if a == [] {
      assert a + b == b;
    } else {
      EncodeAppend(a[1..], b);
      assert (a + b)[1..] == a[1..] + b;
    }
  }

  /** How many bytes the character that begins a text has. */
  function Length(first: Byte): nat {
    if first < 0x80 then 1 else if first < 0xE0 then 2 else if first < 0xF0 then 3 else 4
  }

  /** The number of the character that begins a text. */
  function Number(s: seq<Byte>): int
    requires s != [] && |s| >= Length(s[0])
  {
    if Length(s[0]) == 1 then s[0] as int
    else if Length(s[0]) == 2 then (s[0] as int - 0xC0) * 64 + (s[1] as int - 0x80)
    else if Length(s[0]) == 3 then (s[0] as int - 0xE0) * 4096 + (s[1] as int - 0x80) * 64 + (s[2] as int - 0x80)
    else (s[0] as int - 0xF0) * 262144 + (s[1] as int - 0x80) * 4096 + (s[2] as int - 0x80) * 64 + (s[3] as int - 0x80)
  }

  lemma FirstIsRead(c: char, rest: seq<Byte>)
    ensures var s := Encoded(c) + rest;
            |s| >= Length(s[0]) == |Encoded(c)| && Number(s) == c as int && s[|Encoded(c)|..] == rest
  {
    var n := c as int;
    assert n / 4096 == n / 64 / 64 && n / 262144 == n / 64 / 64 / 64;
  }

  /** Strings with the same bytes are the same. */
  lemma {:induction false} BytesAreUnique(a: string, b: string)
    requires Encode(a) == Encode(b)
    ensures a == b
    decreases |a|
  {
    if a != [] && b != [] {
      FirstIsRead(a[0], Encode(a[1..]));
      FirstIsRead(b[0], Encode(b[1..]));
      assert a[0] as int == b[0] as int && a[0] == b[0];
      BytesAreUnique(a[1..], b[1..]);
      assert a == [a[0]] + a[1..] && b == [b[0]] + b[1..];
    }
  }
}
