/** Remainders, powers of two and finite sets of numbers: what the table and ring models share. */
module Arith {

  /** `n` is a power of two. */
  predicate Pow2(n: nat) {
    n == 1 || (n > 1 && n % 2 == 0 && Pow2(n / 2))
  }

  /** `x % n`, by repeated subtraction: the form in which indices wrap around a ring. */
  function Wrap(x: nat, n: nat): (r: nat)
    requires n > 0
    ensures r < n
    ensures x < n ==> r == x
    decreases x
  {
    if x < n then x else Wrap(x - n, n)
  }

  lemma MulAtLeast(d: nat, n: nat)
    requires d >= 1
    ensures d * n >= n
  {
    assert d * n == (d - 1) * n + n;
  }

  lemma {:induction false} WrapQuotient(x: nat, n: nat) returns (q: nat)
    requires n > 0
    ensures x == q * n + Wrap(x, n)
    decreases x
  {
    if x < n {
      q := 0;
    } else {
      var p := WrapQuotient(x - n, n);
      q := p + 1;
      assert (p + 1) * n == p * n + n;
    }
  }

  lemma MulGap(p: nat, q: nat, n: nat)
    ensures p > q ==> p * n >= q * n + n
  {
    if p > q {
      MulAtLeast(p - q, n);
      assert (p - q) * n == p * n - q * n;
    }
  }

  lemma SameQuotient(p: nat, r: nat, q: nat, t: nat, n: nat)
    requires r < n && t < n && p * n + r == q * n + t
    ensures r == t
  {
    MulGap(p, q, n);
    MulGap(q, p, n);
  }

  lemma DivisionIdentity(x: nat, n: nat)
    requires n > 0
    ensures x == (x / n) * n + x % n && x % n < n
  {
  }

  /** `Wrap` is the remainder. */
  lemma WrapIsMod(x: nat, n: nat)
    requires n > 0
    ensures Wrap(x, n) == x % n
  {
    var q := WrapQuotient(x, n);
    DivisionIdentity(x, n);
    SameQuotient(q, Wrap(x, n), x / n, x % n, n);
  }

  /** Adding a multiple of the modulus does not change the remainder. */
  lemma {:induction false} WrapShift(x: nat, q: nat, n: nat)
    requires n > 0
    ensures Wrap(x + q * n, n) == Wrap(x, n)
    decreases q
  {
    if q > 0 {
      WrapShift(x, q - 1, n);
      assert x + q * n - n == x + (q - 1) * n;
      assert q * n >= n by { MulAtLeast(q, n); }
    }
  }

  /** A sum may be reduced before or after adding. */
  lemma {:induction false} WrapAdd(a: nat, b: nat, n: nat)
    requires n > 0
    ensures Wrap(Wrap(a, n) + b, n) == Wrap(a + b, n)
    decreases a
  {
    if a >= n {
      WrapAdd(a - n, b, n);
      assert Wrap(a + b, n) == Wrap(a + b - n, n);
    }
  }

  /** Numbers with the same remainder differ by a multiple of the modulus. */
  lemma {:induction false} SameResidue(a: nat, b: nat, n: nat) returns (q: nat)
    requires n > 0 && a <= b && Wrap(a, n) == Wrap(b, n)
    ensures b - a == q * n
    decreases b
  {
    if b < n {
      q := 0;
    } else if a >= n {
      q := SameResidue(a - n, b - n, n);
    } else {
      var p := SameResidue(a, b - n, n);
      q := p + 1;
      assert (p + 1) * n == p * n + n;
    }
  }

  /** Numbers less than the modulus apart have the same remainder only if they are equal. */
  lemma ResidueInjective(a: nat, b: nat, n: nat)
    requires n > 0 && Wrap(a, n) == Wrap(b, n)
    requires a <= b < a + n
    ensures a == b
  {
    var q := SameResidue(a, b, n);
    if q > 0 {
      MulAtLeast(q, n);
    }
  }

  /** Reducing first modulo a multiple of `n` does not change the remainder modulo `n`. */
  lemma {:induction false} WrapWrap(x: nat, k: nat, m: nat, n: nat)
    requires n > 0 && m == k * n > 0
    ensures Wrap(Wrap(x, m), n) == Wrap(x, n)
    decreases x
  {
    if x >= m {
      WrapWrap(x - m, k, m, n);
      WrapShift(x - m, k, n);
    }
  }

  lemma Double(a: nat, b: nat)
    ensures a * (2 * b) == 2 * (a * b) && (2 * a + 1) * b == 2 * (a * b) + b
  {
  }

  /** An odd factor does not contribute to the powers of two in a product. */
  lemma OddHalf(x: nat, y: nat, q: nat, m: nat)
    requires x % 2 == 1 && m % 2 == 0 && x * y == q * m
    ensures y % 2 == 0 && x * (y / 2) == q * (m / 2)
  {
    Double(x / 2, y);
    assert x == 2 * (x / 2) + 1;
    Double(q, m / 2);
    assert m == 2 * (m / 2);
    assert y % 2 == 0 by {
      assert 2 * ((x / 2) * y) + y == 2 * (q * (m / 2));
    }
    Double(x, y / 2);
    assert y == 2 * (y / 2);
  }

  /** A power of two that divides `x * y` divides `y` when `x` is odd. */
  lemma {:induction false} OddFactor(x: nat, y: nat, q: nat, m: nat) returns (r: nat)
    requires Pow2(m) && x % 2 == 1 && x * y == q * m
    ensures y == r * m
    decreases m
  {
    if m == 1 {
      r := y;
    } else {
      OddHalf(x, y, q, m);
      r := OddFactor(x, y / 2, q, m / 2);
      Double(r, m / 2);
    }
  }

  ghost function Below(n: nat): (r: set<nat>)
    ensures forall i: nat :: i in r <==> i < n
    ensures |r| == n
  {
    if n == 0 then {} else Below(n - 1) + {n - 1}
  }

  lemma {:induction false} SubsetSize<T>(s: set<T>, t: set<T>)
    requires s <= t
    ensures |s| <= |t|
    ensures |s| == |t| ==> s == t
  {
    if s != {} {
      var x :| x in s;
      SubsetSize(s - {x}, t - {x});
      assert s == (s - {x}) + {x} && t == (t - {x}) + {x};
    }
  }

  ghost function MapSet(at: set<nat>, f: nat -> nat): set<nat> {
    set x | x in at :: f(x)
  }

  /** An injective function keeps the number of elements. */
  lemma {:induction false} MapSize(at: set<nat>, f: nat -> nat)
    requires forall a, b :: a in at && b in at && a != b ==> f(a) != f(b)
    ensures |MapSet(at, f)| == |at|
  {
    if at != {} {
      var x :| x in at;
      MapSize(at - {x}, f);
      assert MapSet(at, f) == MapSet(at - {x}, f) + {f(x)};
    }
  }

  /** An injective function from a finite set to itself takes every value of the set. */
  lemma InjectiveIsOnto(all: set<nat>, f: nat -> nat, y: nat) returns (s: nat)
    requires y in all
    requires forall a :: a in all ==> f(a) in all
    requires forall a, b :: a in all && b in all && a != b ==> f(a) != f(b)
    ensures s in all && f(s) == y
  {
    MapSize(all, f);
    SubsetSize(MapSet(all, f), all);
    assert y in MapSet(all, f);
    s :| s in all && f(s) == y;
  }
}
