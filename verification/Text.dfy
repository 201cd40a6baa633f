/** Separators in sequences: the first one, splitting at each one, and joining with one. */
module Text {

  /** The position of the first `c`. */
  function IndexOf<T(==)>(s: seq<T>, c: T): (i: nat)
    requires c in s
    ensures i < |s| && s[i] == c && c !in s[..i]
  {
    if s[0] == c then 0 else 1 + IndexOf(s[1..], c)
  }

  lemma {:induction false} IndexOfFirst<T>(a: seq<T>, c: T, b: seq<T>)
    requires c !in a
    ensures c in a + [c] + b && IndexOf(a + [c] + b, c) == |a|
    decreases |a|
  {
    var s := a + [c] + b;
    assert s[|a|] == c;
    if a != [] {
      IndexOfFirst(a[1..], c, b);
      assert s[1..] == a[1..] + [c] + b;
    }
  }

  /** Splitting once at the first `c`. */
  lemma SplitOnce<T>(a: seq<T>, c: T, b: seq<T>)
    requires c !in a
    ensures c in a + [c] + b
    ensures (a + [c] + b)[..IndexOf(a + [c] + b, c)] == a
    ensures (a + [c] + b)[IndexOf(a + [c] + b, c) + 1..] == b
  {
    IndexOfFirst(a, c, b);
  }

  function Split<T(==)>(s: seq<T>, c: T): seq<seq<T>>
    decreases |s|
  {
    if c !in s then [s] else [s[..IndexOf(s, c)]] + Split(s[IndexOf(s, c) + 1..], c)
  }

  function Join<T>(parts: seq<seq<T>>, c: T): seq<T>
    decreases |parts|
  {
    if parts == [] then [] else if |parts| == 1 then parts[0] else parts[0] + [c] + Join(parts[1..], c)
  }

  lemma SplitFirst<T>(part: seq<T>, c: T, rest: seq<T>)
    requires c !in part
    ensures Split(part + [c] + rest, c) == [part] + Split(rest, c)
  {
    SplitOnce(part, c, rest);
  }

  lemma {:induction false} SplitOfJoin<T>(parts: seq<seq<T>>, c: T)
    requires parts != [] && forall p :: p in parts ==> c !in p
    ensures Split(Join(parts, c), c) == parts
    decreases |parts|
  {
    if |parts| > 1 {
      SplitOfJoin(parts[1..], c);
      SplitFirst(parts[0], c, Join(parts[1..], c));
      assert [parts[0]] + parts[1..] == parts;
    }
  }

  /** Joining adds nothing but the separator. */
  lemma {:induction false} JoinFree<T>(parts: seq<seq<T>>, c: T, d: T)
    requires parts != [] && d != c && forall p :: p in parts ==> d !in p
    ensures d !in Join(parts, c)
    decreases |parts|
  {
    if |parts| > 1 { JoinFree(parts[1..], c, d); }
  }

  // ----- whitespace -----

  /** White space as Python's `str.isspace` has it. */
  predicate IsSpace(c: char) {
    || c == ' ' || '\t' <= c <= '\r' || '\U{1c}' <= c <= '\U{1f}' || c == '\U{85}' || c == '\U{a0}' || c == '\U{1680}'
    || '\U{2000}' <= c <= '\U{200a}' || c == '\U{2028}' || c == '\U{2029}' || c == '\U{202f}' || c == '\U{205f}'
    || c == '\U{3000}'
  }

  predicate Blankless(s: string) { forall c :: c in s ==> !IsSpace(c) }

  /** The maximal runs of characters that are not white space. */
  function Words(s: string): seq<string>
    decreases |s|
  {
    if s == [] then []
    else if IsSpace(s[0]) then Words(s[1..])
    else
      var n := WordLength(s);
      [s[..n]] + Words(s[n..])
  }

  function WordLength(s: string): (n: nat)
    ensures n <= |s| && (s != [] && !IsSpace(s[0]) ==> n > 0) && Blankless(s[..n]) && (n < |s| ==> IsSpace(s[n]))
  {
    if s == [] || IsSpace(s[0]) then 0
    else
      var n := WordLength(s[1..]) + 1;
      assert s[..n] == [s[0]] + s[1..][..n - 1];
      n
  }

  lemma {:induction false} WordLengthOf(w: string, rest: string)
    requires Blankless(w) && (rest != [] ==> IsSpace(rest[0]))
    ensures WordLength(w + rest) == |w|
    decreases |w|
  {
    if w == [] {
      assert w + rest == rest;
    } else {
      WordLengthOf(w[1..], rest);
      assert (w + rest)[1..] == w[1..] + rest;
    }
  }

  lemma WordsOfOne(w: string, rest: string)
    requires Blankless(w) && w != [] && (rest != [] ==> IsSpace(rest[0]))
    ensures Words(w + rest) == [w] + Words(rest)
  {
    WordLengthOf(w, rest);
    assert (w + rest)[..|w|] == w && (w + rest)[|w|..] == rest;
  }

  lemma WordAndRest(w: string, rest: string)
    requires Blankless(w) && w != []
    ensures Words(w + [' '] + rest) == [w] + Words(rest)
  {
    WordsOfOne(w, [' '] + rest);
    assert w + ([' '] + rest) == w + [' '] + rest;
    assert ([' '] + rest)[1..] == rest;
  }

  /** Words joined by single spaces come back as they were. */
  lemma {:induction false} WordsOfJoin(words: seq<string>)
    requires words != [] && forall w :: w in words ==> w != [] && Blankless(w)
    ensures Words(Join(words, ' ')) == words
    decreases |words|
  {
    if |words| == 1 {
      WordsOfOne(words[0], []);
      assert words[0] + [] == words[0];
    } else {
      var rest := Join(words[1..], ' ');
      assert forall w :: w in words[1..] ==> w in words;
      WordsOfJoin(words[1..]);
      WordAndRest(words[0], rest);
    }
  }
}
