/** Facts about products, quotients and remainders that the counting proofs share. */
module Division {

  lemma {:induction false} MulOrder(x: int, y: int, b: nat)
    requires x <= y
    ensures x * b <= y * b
    decreases b
  {
    if b > 0 {
      MulOrder(x, y, b - 1);
      assert x * b == x * (b - 1) + x && y * b == y * (b - 1) + y;
    }
  }

  lemma MulStrict(x: int, y: int, b: nat)
    requires x * b < y * b
    ensures x < y
  {
    if y <= x {
      MulOrder(y, x, b);
      assert false;
    }
  }

  /** The quotient is at least `q` exactly when `q` times the divisor fits. */
  lemma QuotientAtLeast(a: int, b: int, q: int)
    requires b > 0
    ensures q <= a / b <==> q * b <= a
  {
    var d := a / b;
    assert a == d * b + a % b;
    if q <= d {
      MulOrder(q, d, b);
    } else {
      MulOrder(d + 1, q, b);
      assert (d + 1) * b == d * b + b;
    }
  }

  lemma QuotientIs(a: int, b: int, q: int, r: int)
    requires b > 0 && 0 <= r < b && a == q * b + r
    ensures a / b == q && a % b == r
  {
    QuotientAtLeast(a, b, q);
    QuotientAtLeast(a, b, q + 1);
    assert (q + 1) * b == q * b + b;
    assert a == a / b * b + a % b;
  }

  /** Dividends at least one divisor apart have different quotients. */
  lemma QuotientStep(a: int, a': int, b: int)
    requires b > 0 && a + b <= a'
    ensures a / b < a' / b
  {
    QuotientAtLeast(a, b, a / b);
    assert (a / b + 1) * b == a / b * b + b;
    QuotientAtLeast(a', b, a / b + 1);
  }

  /** Numbers with the same remainder are a multiple of the divisor apart. */
  lemma SameRemainder(a: int, a': int, b: int) returns (t: int)
    requires b > 0 && a % b == a' % b
    ensures a' == a + t * b
  {
    t := a' / b - a / b;
    assert a == a / b * b + a % b && a' == a' / b * b + a' % b;
    assert t * b == a' / b * b - a / b * b;
  }

  lemma RemainderOfSum(a: int, t: int, b: int)
    requires b > 0
    ensures (a + t * b) % b == a % b
  {
    assert a == a / b * b + a % b;
    assert (a / b + t) * b == a / b * b + t * b;
    QuotientIs(a + t * b, b, a / b + t, a % b);
  }

  /** Different numbers less than the divisor apart have different remainders. */
  lemma RemaindersDiffer(a: int, a': int, b: int)
    requires b > 0 && 0 < a' - a < b
    ensures a % b != a' % b
  {
    if a % b == a' % b {
      var t := SameRemainder(a, a', b);
      MulStrict(0, t, b);
      MulStrict(t, 1, b);
      assert false;
    }
  }

  /** From any start, some step less than the divisor reaches a given remainder. */
  lemma ResidueAfter(start: int, r: int, b: int) returns (n: nat)
    requires 0 <= r < b
    ensures n < b && (start + n) % b == r
  {
    n := (r - start) % b;
    var q := (r - start) / b;
    assert r - start == q * b + n;
    RemainderOfSum(r, -q, b);
    QuotientIs(r, b, 0, r);
    assert start + n == r + (-q) * b;
  }

  lemma CeilingSteps(d: int, b: int)
    requires b > 0
    ensures (d + b - 1) / b * b >= d
  {
    assert d + b - 1 == (d + b - 1) / b * b + (d + b - 1) % b;
  }

  lemma CeilingIsLeast(d: int, b: int, t: int)
    requires b > 0 && t * b >= d
    ensures (d + b - 1) / b * b <= t * b
  {
    QuotientAtLeast(d + b - 1, b, t + 1);
    assert (t + 1) * b == t * b + b;
    MulOrder((d + b - 1) / b, t, b);
  }

  // ----- counting -----

  ghost function Below(n: nat): (r: set<nat>)
    ensures |r| == n && forall i: nat :: i in r <==> i < n
  {
    if n == 0 then {} else Below(n - 1) + {n - 1}
  }

  /** `f` takes different values below `n`. */
  ghost predicate Injective<T(!new)>(f: nat -> T, n: nat) {
    forall i: nat, j: nat :: i < j < n ==> f(i) != f(j)
  }

  ghost function Image<T(!new)>(f: nat -> T, n: nat): set<T> {
    set i: nat | i < n :: f(i)
  }

  /** An injective function takes `n` values below `n`. */
  lemma {:induction false} ImageSize<T(!new)>(f: nat -> T, n: nat)
    requires Injective(f, n)
    ensures |Image(f, n)| == n
  {
    if n == 0 {
      assert Image(f, n) == {};
    } else {
      ImageSize(f, n - 1);
      assert Image(f, n) == Image(f, n - 1) + {f(n - 1)};
      assert f(n - 1) !in Image(f, n - 1);
    }
  }

  lemma {:induction false} SubsetIsSmaller<K>(a: set<K>, b: set<K>)
    requires a <= b
    ensures |a| <= |b|
  {
    if a != {} {
      var k :| k in a;
      SubsetIsSmaller(a - {k}, b - {k});
    }
  }
}
