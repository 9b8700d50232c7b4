/** The probe order of the open-addressing table in src/khash.h.

    A lookup starts at `hash & mask` and then moves by steps of 1, 2, 3, ... modulo the
    number of buckets. The table size is always a power of two, so `x & mask` is `x % n`.
    The central fact proved here is that the first `n` probes visit every bucket exactly
    once, which is what makes every probe loop of the table end. */
module Probe {
  import opened Arith

  /** The total distance moved by `s` steps. */
  function Tri(s: nat): nat {
    if s == 0 then 0 else Tri(s - 1) + s
  }

  /** The bucket visited by the `s`-th step of a probe that starts at hash `h`. */
  function Pos(h: nat, s: nat, n: nat): (b: nat)
    requires n > 0
    ensures b < n
  {
    Wrap(h + Tri(s), n)
  }

  /** The step that the probe loops take leads from one position to the next. */
  lemma PosNext(h: nat, s: nat, n: nat)
    requires n > 0
    ensures Wrap(Pos(h, s, n) + s + 1, n) == Pos(h, s + 1, n)
  {
    WrapAdd(h + Tri(s), s + 1, n);
  }

  lemma {:induction false} TriDouble(s: nat)
    ensures 2 * Tri(s) == s * (s + 1)
  {
    if s > 0 {
      TriDouble(s - 1);
    }
  }

  lemma {:induction false} TriMonotone(a: nat, b: nat)
    requires a <= b
    ensures Tri(a) <= Tri(b)
  {
    if a < b {
      TriMonotone(a, b - 1);
    }
  }

  lemma TriDifference(a: nat, b: nat)
    requires a <= b
    ensures (b - a) * (a + b + 1) == 2 * (Tri(b) - Tri(a))
  {
    TriDouble(a);
    TriDouble(b);
    Expand(a, b - a);
  }

  lemma Expand(a: nat, d: nat)
    ensures d * (a + (a + d) + 1) == (a + d) * (a + d + 1) - a * (a + 1)
  {
    var b := a + d;
    assert b * (b + 1) == b * b + b && b * b == a * b + d * b;
    assert a * (a + 1) == a * a + a && a * b == a * a + a * d;
    assert d * (a + b + 1) == d * a + d * b + d;
  }

  /** Of two factors of opposite parity below `m`, no product is a multiple of `m`. */
  lemma OppositeParity(x: nat, y: nat, q: nat, m: nat)
    requires Pow2(m) && 0 < x < m && 0 < y < m && x % 2 != y % 2
    ensures x * y != q * m
  {
    if x * y == q * m {
      var r;
      if x % 2 == 1 {
        r := OddFactor(x, y, q, m);
      } else {
        assert y * x == x * y;
        r := OddFactor(y, x, q, m);
      }
      if r > 0 {
        MulAtLeast(r, m);
      }
    }
  }

  lemma HalfProduct(x: nat, y: nat, d: nat, q: nat, n: nat)
    requires Pow2(n) && 0 < x < 2 * n && 0 < y < 2 * n && x % 2 != y % 2
    requires x * y == 2 * d
    ensures d != q * n
  {
    var m := 2 * n;
    assert m / 2 == n && Pow2(m);
    OppositeParity(x, y, q, m);
    assert q * m == 2 * (q * n);
  }

  lemma ParityFlips(x: nat, a: nat)
    ensures x % 2 != (x + 2 * a + 1) % 2
  {
  }

  /** The distances moved by two different steps below `n` are not congruent modulo `n`. */
  lemma TriNotCongruent(a: nat, b: nat, q: nat, n: nat)
    requires Pow2(n) && a < b < n
    ensures Tri(b) - Tri(a) != q * n
  {
    TriMonotone(a, b);
    TriDifference(a, b);
    ParityFlips(b - a, a);
    HalfProduct(b - a, a + b + 1, Tri(b) - Tri(a), q, n);
  }

  /** Two different steps below the table size never visit the same bucket. */
  lemma PosDistinct(h: nat, a: nat, b: nat, n: nat)
    requires Pow2(n) && a < b < n
    ensures Pos(h, a, n) != Pos(h, b, n)
  {
    var x, y := h + Tri(a), h + Tri(b);
    if Wrap(x, n) == Wrap(y, n) {
      TriMonotone(a, b);
      var q := SameResidue(x, y, n);
      TriNotCongruent(a, b, q, n);
    }
  }

  /** The first `n` probe steps reach every bucket. */
  lemma ProbeCovers(h: nat, n: nat, b: nat) returns (s: nat)
    requires Pow2(n) && b < n
    ensures s < n && Pos(h, s, n) == b
  {
    var f := (s: nat) => Pos(h, s, n);
    forall i, j | i in Below(n) && j in Below(n) && i != j ensures f(i) != f(j) {
      if i < j {
        PosDistinct(h, i, j, n);
      } else {
        PosDistinct(h, j, i, n);
      }
    }
    s := InjectiveIsOnto(Below(n), f, b);
  }
}
