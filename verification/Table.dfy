/** The open-addressing table of src/khash.h as a value: bucket flags, a key array, and what it
    means for every stored key to be found by probing. The class in Khash.dfy updates such
    tables in place; the lemmas here say what each kind of update does to the stored set. */
module Table {
  import opened Arith
  import opened Probe

  /** Keys are 64-bit page addresses in the repository's only instance of the table. */
  type Key = nat

  /** The two flag bits of a bucket: `Empty` was never used since the last rehash, `Deleted` is a
      tombstone, `Live` holds a key. */
  datatype Flag = Empty | Deleted | Live

  /** The largest number of used buckets: `n * 0.77 + 0.5` truncated. */
  function Upper(n: nat): nat {
    (77 * n + 50) / 100
  }

  /** The first `s` probes of hash `h` meet no empty bucket. */
  ghost predicate PathOpen(fl: seq<Flag>, h: nat, s: nat)
    requires |fl| > 0
  {
    forall t: nat :: t < s ==> fl[Pos(h, t, |fl|)] != Empty
  }

  /** Probing from hash `h` arrives at bucket `b` without meeting an empty bucket first. */
  ghost predicate Reachable(fl: seq<Flag>, h: nat, b: nat)
    requires |fl| > 0
  {
    exists s: nat :: s < |fl| && Pos(h, s, |fl|) == b && PathOpen(fl, h, s)
  }

  ghost predicate Placed(fl: seq<Flag>, ks: seq<Key>, hash: Key -> nat)
    requires |fl| <= |ks|
  {
    forall b :: 0 <= b < |fl| && fl[b] == Live ==> Reachable(fl, hash(ks[b]), b)
  }

  ghost predicate Distinct(fl: seq<Flag>, ks: seq<Key>)
    requires |fl| <= |ks|
  {
    forall a, b :: 0 <= a < b < |fl| && fl[a] == Live && fl[b] == Live ==> ks[a] != ks[b]
  }

  /** Every live key is stored once and is found by probing from its hash. */
  ghost predicate WellFormed(fl: seq<Flag>, ks: seq<Key>, hash: Key -> nat) {
    && |fl| <= |ks|
    && Placed(fl, ks, hash)
    && Distinct(fl, ks)
  }

  /** The stored set. */
  ghost function Keys(fl: seq<Flag>, ks: seq<Key>): set<Key>
    requires |fl| <= |ks|
  {
    set b | 0 <= b < |fl| && fl[b] == Live :: ks[b]
  }

  ghost function LiveAt(fl: seq<Flag>): set<nat> {
    set b: nat | b < |fl| && fl[b] == Live
  }

  ghost function UsedAt(fl: seq<Flag>): set<nat> {
    set b: nat | b < |fl| && fl[b] != Empty
  }

  /** As many keys are stored as there are live buckets. */
  lemma KeysCount(fl: seq<Flag>, ks: seq<Key>)
    requires |fl| <= |ks| && Distinct(fl, ks)
    ensures |Keys(fl, ks)| == |LiveAt(fl)|
  {
    var at := (b: nat) => if b < |ks| then ks[b] else 0;
    MapSize(LiveAt(fl), at);
    forall k | k in Keys(fl, ks) ensures k in MapSet(LiveAt(fl), at) {
      var b: nat :| b < |fl| && fl[b] == Live && ks[b] == k;
      assert b in LiveAt(fl) && at(b) == k;
    }
    assert Keys(fl, ks) == MapSet(LiveAt(fl), at);
  }

  /** The number of live buckets when one more becomes live, or one less. */
  lemma LiveCount(fl: seq<Flag>, b: nat)
    requires b < |fl|
    ensures fl[b] != Live ==> |LiveAt(fl[b := Live])| == |LiveAt(fl)| + 1
    ensures fl[b] == Live ==> |LiveAt(fl[b := Deleted])| == |LiveAt(fl)| - 1
  {
    if fl[b] != Live {
      assert LiveAt(fl[b := Live]) == LiveAt(fl) + {b};
    } else {
      assert LiveAt(fl[b := Deleted]) == LiveAt(fl) - {b};
    }
  }

  /** If not all buckets are used, probing from any hash meets an empty one within `n` steps. */
  lemma EmptyReached(fl: seq<Flag>, h: nat) returns (s: nat)
    requires Pow2(|fl|) && |UsedAt(fl)| < |fl|
    ensures s < |fl| && fl[Pos(h, s, |fl|)] == Empty
  {
    var n := |fl|;
    if forall b: nat :: b < n ==> b in UsedAt(fl) {
      SubsetSize(Below(n), UsedAt(fl));
    }
    var b: nat :| b < n && b !in UsedAt(fl);
    s := ProbeCovers(h, n, b);
  }

  /** The `t`-th probe for `key` meets a used bucket that does not hold it. */
  ghost predicate Misses(fl: seq<Flag>, ks: seq<Key>, hash: Key -> nat, key: Key, t: nat)
    requires 0 < |fl| <= |ks|
  {
    var b := Pos(hash(key), t, |fl|);
    fl[b] != Empty && (fl[b] == Deleted || ks[b] != key)
  }

  /** The first `s` probes for `key` miss. */
  ghost predicate AllMiss(fl: seq<Flag>, ks: seq<Key>, hash: Key -> nat, key: Key, s: nat)
    requires 0 < |fl| <= |ks|
  {
    s == 0 || (AllMiss(fl, ks, hash, key, s - 1) && Misses(fl, ks, hash, key, s - 1))
  }

  lemma {:induction false} AllMissEach(fl: seq<Flag>, ks: seq<Key>, hash: Key -> nat, key: Key, s: nat)
    requires 0 < |fl| <= |ks| && AllMiss(fl, ks, hash, key, s)
    ensures forall t: nat :: t < s ==> Misses(fl, ks, hash, key, t)
    ensures PathOpen(fl, hash(key), s)
  {
    if s > 0 {
      AllMissEach(fl, ks, hash, key, s - 1);
    }
  }

  /** An empty bucket met before the key proves the key absent. */
  lemma AbsentAtEmpty(fl: seq<Flag>, ks: seq<Key>, hash: Key -> nat, key: Key, s: nat)
    requires |fl| > 0 && WellFormed(fl, ks, hash)
    requires fl[Pos(hash(key), s, |fl|)] == Empty
    requires AllMiss(fl, ks, hash, key, s)
    ensures key !in Keys(fl, ks)
  {
    AllMissEach(fl, ks, hash, key, s);
    forall b | 0 <= b < |fl| && fl[b] == Live ensures ks[b] != key {
      var h := hash(ks[b]);
      assert Reachable(fl, h, b);
      var r: nat :| r < |fl| && Pos(h, r, |fl|) == b && PathOpen(fl, h, r);
      assert r < s ==> Misses(fl, ks, hash, key, r);
      assert s < r ==> fl[Pos(h, s, |fl|)] != Empty;
    }
  }

  /** More used buckets keep everything reachable. */
  lemma ReachableGrows(fl: seq<Flag>, fl': seq<Flag>, h: nat, b: nat)
    requires |fl| == |fl'| > 0
    requires forall i :: 0 <= i < |fl| && fl[i] != Empty ==> fl'[i] != Empty
    requires Reachable(fl, h, b)
    ensures Reachable(fl', h, b)
  {
    var s: nat :| s < |fl| && Pos(h, s, |fl|) == b && PathOpen(fl, h, s);
    assert PathOpen(fl', h, s);
  }

  /** Making a bucket on the probe path of `key` live with that key keeps every key reachable. */
  lemma StillPlaced(fl: seq<Flag>, ks: seq<Key>, hash: Key -> nat, key: Key, s: nat)
    requires 0 < |fl| <= |ks| && Placed(fl, ks, hash)
    requires s < |fl| && PathOpen(fl, hash(key), s)
    requires fl[Pos(hash(key), s, |fl|)] != Live
    ensures var i := Pos(hash(key), s, |fl|); Placed(fl[i := Live], ks[i := key], hash)
  {
    var i := Pos(hash(key), s, |fl|);
    var fl', ks' := fl[i := Live], ks[i := key];
    forall c | 0 <= c < |fl'| && fl'[c] == Live ensures Reachable(fl', hash(ks'[c]), c) {
      if c == i {
        assert PathOpen(fl', hash(key), s);
      } else {
        ReachableGrows(fl, fl', hash(ks[c]), c);
      }
    }
  }

  lemma StoredAfterWrite(fl: seq<Flag>, ks: seq<Key>, key: Key, b: nat)
    requires b < |fl| <= |ks| && fl[b] != Live
    requires Distinct(fl, ks) && key !in Keys(fl, ks)
    ensures var fl', ks' := fl[b := Live], ks[b := key];
            Distinct(fl', ks') && Keys(fl', ks') == Keys(fl, ks) + {key}
  {
    var fl', ks' := fl[b := Live], ks[b := key];
    assert fl'[b] == Live && ks'[b] == key;
    forall c | 0 <= c < |fl| && fl[c] == Live
      ensures fl'[c] == Live && ks'[c] == ks[c] && ks[c] != key && ks[c] in Keys(fl', ks')
    {
      assert ks[c] in Keys(fl, ks);
    }
    assert forall c :: 0 <= c < |fl'| && fl'[c] == Live && c != b ==> fl[c] == Live && ks'[c] in Keys(fl, ks);
  }

  /** Writing an absent key into a free bucket that its probe reaches adds it to the set. */
  lemma Inserted(fl: seq<Flag>, ks: seq<Key>, hash: Key -> nat, key: Key, s: nat)
    requires |fl| > 0 && WellFormed(fl, ks, hash)
    requires s < |fl| && PathOpen(fl, hash(key), s)
    requires fl[Pos(hash(key), s, |fl|)] != Live
    requires key !in Keys(fl, ks)
    ensures var b := Pos(hash(key), s, |fl|);
            var fl', ks' := fl[b := Live], ks[b := key];
            && WellFormed(fl', ks', hash)
            && Keys(fl', ks') == Keys(fl, ks) + {key}
            && |LiveAt(fl')| == |LiveAt(fl)| + 1
            && |UsedAt(fl')| == |UsedAt(fl)| + (if fl[b] == Empty then 1 else 0)
  {
    var b := Pos(hash(key), s, |fl|);
    StillPlaced(fl, ks, hash, key, s);
    StoredAfterWrite(fl, ks, key, b);
    LiveCount(fl, b);
    UsedCount(fl, b);
  }

  lemma UsedCount(fl: seq<Flag>, b: nat)
    requires b < |fl|
    ensures |UsedAt(fl[b := Live])| == |UsedAt(fl)| + (if fl[b] == Empty then 1 else 0)
  {
    assert UsedAt(fl[b := Live]) == UsedAt(fl) + {b};
    assert fl[b] != Empty ==> UsedAt(fl) + {b} == UsedAt(fl);
  }

  /** Turning a live bucket into a tombstone removes its key and nothing else. */
  lemma Removed(fl: seq<Flag>, ks: seq<Key>, hash: Key -> nat, b: nat)
    requires WellFormed(fl, ks, hash)
    requires b < |fl| && fl[b] == Live
    ensures var fl' := fl[b := Deleted];
            && WellFormed(fl', ks, hash)
            && Keys(fl', ks) == Keys(fl, ks) - {ks[b]}
            && |LiveAt(fl')| == |LiveAt(fl)| - 1
            && UsedAt(fl') == UsedAt(fl)
  {
    LiveCount(fl, b);
    var fl' := fl[b := Deleted];
    forall c | 0 <= c < |fl'| && fl'[c] == Live ensures Reachable(fl', hash(ks[c]), c) {
      ReachableGrows(fl, fl', hash(ks[c]), c);
    }
    forall k | k in Keys(fl, ks) - {ks[b]} ensures k in Keys(fl', ks) {
      var c :| 0 <= c < |fl| && fl[c] == Live && ks[c] == k;
      assert fl'[c] == Live;
    }
  }

  /** Sizes: the bound is below the table size, and both requests of an insertion are accepted. */
  lemma UpperBelow(n: nat)
    requires n >= 4
    ensures 0 < Upper(n) < n
    ensures forall k :: 2 * k < n ==> k < Upper(n)
    ensures n < Upper(2 * n)
  {
  }

  /** The request `x` rounded up to a power of two (`kroundup32`). */
  function RoundUp(x: nat): nat {
    RoundUpFrom(1, x)
  }

  function RoundUpFrom(p: nat, x: nat): nat
    requires p > 0
    decreases x - p
  {
    if p >= x then p else RoundUpFrom(2 * p, x)
  }

  lemma {:induction false} RoundUpFromLeast(p: nat, x: nat)
    requires Pow2(p) && (p == 1 || p / 2 < x)
    ensures var r := RoundUpFrom(p, x); Pow2(r) && r >= x && (r == 1 || r / 2 < x)
    decreases x - p
  {
    if p < x {
      assert 2 * p / 2 == p;
      RoundUpFromLeast(2 * p, x);
    }
  }

  /** Of two different powers of two the larger is at least twice the smaller. */
  lemma {:induction false} Pow2Gap(p: nat, q: nat)
    requires Pow2(p) && Pow2(q)
    ensures p < q ==> 2 * p <= q
  {
    if 1 < p && 1 < q {
      Pow2Gap(p / 2, q / 2);
    }
  }

  /** One below a table size rounds up to the same size, one above to twice the size. */
  lemma RoundUpNeighbours(n: nat)
    requires Pow2(n) && n >= 4
    ensures RoundUp(n - 1) == n && RoundUp(n + 1) == 2 * n
  {
    RoundUpFromLeast(1, n - 1);
    RoundUpFromLeast(1, n + 1);
    var r, q := RoundUp(n - 1), RoundUp(n + 1);
    assert 2 * n / 2 == n && Pow2(2 * n);
    Pow2Gap(r, n);
    Pow2Gap(n, r);
    Pow2Gap(q, 2 * n);
    Pow2Gap(2 * n, q);
  }
}
