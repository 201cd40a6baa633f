/** Numbers as text: positional numerals, padded with zeros, and what they are worth. */
module Numerals {
  import opened Text

  const DIGITS := "0123456789abcdef"

  function DigitValue(c: char): nat {
    if '0' <= c <= '9' then c as nat - '0' as nat
    else if 'a' <= c <= 'f' then c as nat - 'a' as nat + 10
    else 0
  }

  /** Positional notation; `base` is ten or sixteen. */
  function Digits(n: nat, base: nat): (s: string)
    requires 2 <= base <= 16
    ensures s != []
  {
    if n < base then [DIGITS[n]] else Digits(n / base, base) + [DIGITS[n % base]]
  }

  /** `n` padded with zeros on the left to at least `width` characters. */
  function Padded(n: nat, base: nat, width: nat): string
    requires 2 <= base <= 16
  {
    Pad(Digits(n, base), width)
  }

  function Pad(s: string, width: nat): string
    decreases width - |s|
  {
    if |s| >= width then s else Pad(['0'] + s, width)
  }

  function Value(s: string, base: nat): nat {
    if s == [] then 0 else Value(s[..|s| - 1], base) * base + DigitValue(s[|s| - 1])
  }

  lemma DigitOfValue(d: nat)
    requires d < 16
    ensures DigitValue(DIGITS[d]) == d && !IsSpace(DIGITS[d])
  {
    if d < 10 { assert DIGITS[d] == ('0' as nat + d) as char; }
  }

  lemma ValueSnoc(s: string, c: char, base: nat)
    ensures Value(s + [c], base) == Value(s, base) * base + DigitValue(c)
  {
    assert (s + [c])[..|s|] == s;
  }

  lemma {:induction false} ValueOfDigits(n: nat, base: nat)
    requires 2 <= base <= 16
    ensures Value(Digits(n, base), base) == n
  {
    if n < base {
      ValueSnoc([], DIGITS[n], base);
      DigitOfValue(n);
      assert [] + [DIGITS[n]] == [DIGITS[n]];
    } else {
      DivisionParts(n, base);
      ValueOfDigits(n / base, base);
      ValueIsPositional(n / base, n % base, base);
    }
  }

  lemma DivisionParts(n: nat, base: nat)
    requires 2 <= base <= n
    ensures n / base < n && n % base < base && n / base * base + n % base == n
  {
  }

  lemma ValueIsPositional(q: nat, r: nat, base: nat)
    requires 2 <= base <= 16 && r < base && Value(Digits(q, base), base) == q
    ensures Value(Digits(q, base) + [DIGITS[r]], base) == q * base + r
  {
    ValueSnoc(Digits(q, base), DIGITS[r], base);
    DigitOfValue(r);
  }

  lemma {:induction false} ValueOfZero(s: string, base: nat)
    ensures Value(['0'] + s, base) == Value(s, base)
  {
    if s == [] {
      assert (['0'] + s)[..0] == [];
    } else {
      ValueOfZero(s[..|s| - 1], base);
      assert (['0'] + s)[..|s|] == ['0'] + s[..|s| - 1];
    }
  }

  lemma {:induction false} ValueOfPad(s: string, base: nat, width: nat)
    ensures Value(Pad(s, width), base) == Value(s, base)
    decreases width - |s|
  {
    if |s| < width {
      ValueOfPad(['0'] + s, base, width);
      ValueOfZero(s, base);
    }
  }

  /** Padded numerals of different numbers differ. */
  lemma PaddedDiffer(n: nat, m: nat, base: nat, width: nat)
    requires 2 <= base <= 16 && n != m
    ensures Padded(n, base, width) != Padded(m, base, width)
  {
    ValueOfPad(Digits(n, base), base, width);
    ValueOfPad(Digits(m, base), base, width);
    ValueOfDigits(n, base);
    ValueOfDigits(m, base);
  }

  lemma {:induction false} DigitsBlankless(n: nat, base: nat)
    requires 2 <= base <= 16
    ensures Blankless(Digits(n, base))
  {
    if n < base {
      DigitOfValue(n);
    } else {
      DigitsBlankless(n / base, base);
      DigitOfValue(n % base);
    }
  }

  lemma {:induction false} PadBlankless(s: string, width: nat)
    requires Blankless(s)
    ensures Blankless(Pad(s, width))
    decreases width - |s|
  {
    if |s| < width { PadBlankless(['0'] + s, width); }
  }

  lemma PaddedBlankless(n: nat, base: nat, width: nat)
    requires 2 <= base <= 16
    ensures Blankless(Padded(n, base, width))
  {
    DigitsBlankless(n, base);
    PadBlankless(Digits(n, base), width);
  }
}
