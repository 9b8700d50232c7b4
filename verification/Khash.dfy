/** The hash set generated by src/khash.h, updated in place: lookup, insertion, deletion by
    tombstone, and the rehash that moves keys to a new layout inside one key array. */
module Khash {
  import opened Arith
  import opened Probe
  import opened Table
  import opened Rehash

  /** What an insertion reports: `ret` is 0, 1 or 2 in the source. */
  datatype PutResult = Present | InsertedFresh | InsertedOverTombstone

  /** The table size that a resize request leads to. */
  function NewSize(request: nat): (m: nat) {
    if RoundUp(request) < 4 then 4 else RoundUp(request)
  }

  class HashSet {
    const hash: Key -> nat
    var nBuckets: nat
    var size: nat
    var nOccupied: nat
    var upperBound: nat
    var flags: array<Flag>
    var keys: array<Key>

    ghost predicate Valid()
      reads this, flags, keys
    {
      && flags.Length == keys.Length == nBuckets
      && (nBuckets == 0 || (nBuckets >= 4 && Pow2(nBuckets)))
      && upperBound == (if nBuckets == 0 then 0 else Upper(nBuckets))
      && WellFormed(flags[..], keys[..], hash)
      && size == |LiveAt(flags[..])|
      && nOccupied == |UsedAt(flags[..])| <= upperBound
    }

    /** The set that the table stores. */
    ghost function Contents(): set<Key>
      reads this, flags, keys
      requires flags.Length == keys.Length
    {
      Keys(flags[..], keys[..])
    }

    constructor (hash: Key -> nat)
      ensures Valid() && Contents() == {} && this.hash == hash
      ensures fresh(flags) && fresh(keys)
    {
      this.hash := hash;
      nBuckets, size, nOccupied, upperBound := 0, 0, 0, 0;
      flags := new Flag[0];
      keys := new Key[0];
    }

    /** `size` is the cardinality of the stored set, and some bucket is always empty. */
    lemma SizeIsCardinality()
      requires Valid()
      ensures size == |Contents()|
      ensures nBuckets > 0 ==> exists b :: 0 <= b < nBuckets && flags[b] == Empty
    {
      KeysCount(flags[..], keys[..]);
      if nBuckets > 0 {
        UpperBelow(nBuckets);
        var s := EmptyReached(flags[..], 0);
      }
    }

    /** The probe loop of a lookup: stops at the bucket of `key` or at an empty bucket. The test for
        having come back to the start never succeeds, because some bucket is empty. */
    static method Lookup(flags: array<Flag>, keys: array<Key>, hash: Key -> nat, key: Key)
      returns (x: nat, ghost s: nat)
      requires flags.Length == keys.Length && Pow2(flags.Length)
      requires |UsedAt(flags[..])| < flags.Length
      ensures x == Pos(hash(key), s, flags.Length)
      ensures AllMiss(flags[..], keys[..], hash, key, s)
      ensures flags[x] == Empty || (flags[x] == Live && keys[x] == key)
    {
      ghost var h := hash(key);
      ghost var far := EmptyReached(flags[..], h);
      var step: nat := 0;
      var i: nat := Wrap(hash(key), flags.Length);
      var last: nat := i;
      while flags[i] != Empty && (flags[i] == Deleted || keys[i] != key)
        invariant step <= far && i == Pos(h, step, flags.Length)
        invariant AllMiss(flags[..], keys[..], hash, key, step)
        decreases far - step
      {
        PosNext(h, step, flags.Length);
        step := step + 1;
        i := Wrap(i + step, flags.Length);
        PosDistinct(h, 0, step, flags.Length);
        if i == last {
          assert false;
          return i, step;
        }
      }
      return i, step;
    }

    /** Finds the bucket of `key`, or returns the number of buckets. */
    method Get(key: Key) returns (x: nat)
      requires Valid()
      ensures x < nBuckets <==> key in Contents()
      ensures x < nBuckets ==> flags[x] == Live && keys[x] == key
      ensures x <= nBuckets
    {
      if nBuckets == 0 {
        return 0;
      }
      UpperBelow(nBuckets);
      ghost var s;
      x, s := Lookup(flags, keys, hash, key);
      if flags[x] != Live {
        AbsentAtEmpty(flags[..], keys[..], hash, key, s);
        return nBuckets;
      }
      assert flags[..][x] == Live;
    }

    /** Removes the key of bucket `x`, if it holds one, by leaving a tombstone. */
    method Del(x: nat)
      requires Valid() && x <= nBuckets
      modifies this`size, flags
      ensures Valid() && nBuckets == old(nBuckets)
      ensures if x < nBuckets && old(flags[x]) == Live
              then Contents() == old(Contents()) - {keys[x]} && keys[x] in old(Contents())
              else Contents() == old(Contents())
      ensures forall b :: 0 <= b < nBuckets && b != x ==> flags[b] == old(flags[b])
      ensures x < nBuckets ==> flags[x] != Live
    {
      if x != nBuckets && flags[x] == Live {
        Removed(flags[..], keys[..], hash, x);
        ghost var fl := flags[..];
        assert keys[x] in Contents() by { assert fl[x] == Live; }
        flags[x] := Deleted;
        assert flags[..] == fl[x := Deleted];
        size := size - 1;
      }
    }

    /** The first empty bucket of the new layout on the probe path of hash `h`. */
    static method FindEmpty(newFlags: array<Flag>, h: nat) returns (i: nat, ghost s: nat)
      requires Pow2(newFlags.Length) && |UsedAt(newFlags[..])| < newFlags.Length
      ensures s < newFlags.Length && i == Pos(h, s, newFlags.Length)
      ensures newFlags[i] == Empty && PathOpen(newFlags[..], h, s)
    {
      ghost var far := EmptyReached(newFlags[..], h);
      var step: nat := 0;
      i := Wrap(h, newFlags.Length);
      while newFlags[i] != Empty
        invariant step <= far && i == Pos(h, step, newFlags.Length)
        invariant PathOpen(newFlags[..], h, step)
        decreases far - step
      {
        PosNext(h, step, newFlags.Length);
        step := step + 1;
        i := Wrap(i + step, newFlags.Length);
      }
      s := step;
    }

    /** One round of the kick-out process: writes `key` to its bucket of the new layout. If an old
        key lived there, that key is `next`; otherwise the process is done. */
    method KickRound(newFlags: array<Flag>, key: Key) returns (next: Key, done: bool)
      requires newFlags != flags && Pow2(newFlags.Length)
      requires Moving(flags[..], newFlags[..], keys[..], hash)
      requires key !in HeldKeys(flags[..], newFlags[..], keys[..])
      requires |LiveAt(newFlags[..])| < newFlags.Length
      modifies flags, keys, newFlags
      ensures Moving(flags[..], newFlags[..], keys[..], hash)
      ensures var before := old(HeldKeys(flags[..], newFlags[..], keys[..]));
              var after := HeldKeys(flags[..], newFlags[..], keys[..]);
              if done then after == before + {key}
              else next in before && after == before - {next} + {key}
      ensures |LiveAt(flags[..])| == old(|LiveAt(flags[..])|) - (if done then 0 else 1)
      ensures |LiveAt(newFlags[..])| == old(|LiveAt(newFlags[..])|) + 1
      ensures forall b :: 0 <= b < flags.Length && flags[b] == Live ==> old(flags[b]) == Live
    {
      ghost var ofl, nfl, ks := flags[..], newFlags[..], keys[..];
      assert UsedAt(nfl) == LiveAt(nfl);
      var i, s := FindEmpty(newFlags, hash(key));
      newFlags[i] := Live;
      next := key;
      if i < flags.Length && flags[i] == Live {
        next := keys[i];
        keys[i] := key;
        flags[i] := Deleted;
        done := false;
      } else {
        keys[i] := key;
        done := true;
      }
      assert newFlags[..] == nfl[i := Live];
      assert flags[..] == Kicked(ofl, i);
      assert keys[..] == ks[i := key];
      Moved(ofl, nfl, ks, hash, key, s);
    }

    /** The kick-out process: places `first` in the new layout, and then each old key that is
        thrown out of its bucket on the way. It ends because every round either stops or takes
        a key out of the old layout. */
    method KickOut(newFlags: array<Flag>, first: Key)
      requires newFlags != flags && Pow2(newFlags.Length)
      requires Moving(flags[..], newFlags[..], keys[..], hash)
      requires first !in HeldKeys(flags[..], newFlags[..], keys[..])
      requires |LiveAt(flags[..])| + |LiveAt(newFlags[..])| < newFlags.Length
      modifies flags, keys, newFlags
      ensures Moving(flags[..], newFlags[..], keys[..], hash)
      ensures HeldKeys(flags[..], newFlags[..], keys[..])
              == old(HeldKeys(flags[..], newFlags[..], keys[..])) + {first}
      ensures |LiveAt(flags[..])| + |LiveAt(newFlags[..])|
              == old(|LiveAt(flags[..])| + |LiveAt(newFlags[..])|) + 1
      ensures forall b :: 0 <= b < flags.Length && flags[b] == Live ==> old(flags[b]) == Live
    {
      ghost var held := HeldKeys(flags[..], newFlags[..], keys[..]);
      ghost var target := held + {first};
      ghost var liveOld, liveNew := |LiveAt(flags[..])|, |LiveAt(newFlags[..])|;
      ghost var total := liveOld + liveNew;
      var key, done := first, false;
      while !done
        invariant Moving(flags[..], newFlags[..], keys[..], hash)
        invariant held == HeldKeys(flags[..], newFlags[..], keys[..])
        invariant if done then held == target else key !in held && held + {key} == target
        invariant liveOld == |LiveAt(flags[..])| && liveNew == |LiveAt(newFlags[..])|
        invariant liveOld + liveNew == total + (if done then 1 else 0)
        invariant forall b :: 0 <= b < flags.Length && flags[b] == Live ==> old(flags[b]) == Live
        decreases liveOld, !done
      {
        ghost var before, placed := held, key;
        key, done := KickRound(newFlags, key);
        held := HeldKeys(flags[..], newFlags[..], keys[..]);
        liveOld, liveNew := |LiveAt(flags[..])|, |LiveAt(newFlags[..])|;
        if !done {
          Swapped(before, placed, held, key, target);
        }
      }
    }

    /** `realloc` of the key array to a larger size. */
    method Grow(m: nat)
      requires keys.Length <= m
      modifies this`keys
      ensures fresh(keys) && keys.Length == m && keys[..old(keys.Length)] == old(keys[..])
    {
      var more := new Key[m];
      forall b | 0 <= b < keys.Length {
        more[b] := keys[b];
      }
      assert more[..keys.Length] == keys[..];
      keys := more;
    }

    /** `realloc` of the key array to a smaller size. */
    method Shrink(m: nat)
      requires m <= keys.Length
      modifies this`keys
      ensures fresh(keys) && keys[..] == old(keys[..m])
    {
      var less := new Key[m];
      forall b | 0 <= b < m {
        less[b] := keys[b];
      }
      keys := less;
    }

    /** Moves every key to a layout of the requested size, unless that size is too small for them.
        The stored set does not change. */
    method Resize(request: nat)
      requires Valid()
      modifies this, flags, keys
      ensures Valid() && Contents() == old(Contents()) && size == old(size)
      ensures old(size) < Upper(NewSize(request)) ==> nBuckets == NewSize(request) && nOccupied == size
      ensures old(size) >= Upper(NewSize(request)) ==>
                nBuckets == old(nBuckets) && nOccupied == old(nOccupied)
      ensures flags == old(flags) || fresh(flags)
      ensures keys == old(keys) || fresh(keys)
    {
      var m := RoundUp(request);
      RoundUpFromLeast(1, request);
      if m < 4 {
        m := 4;
      }
      if size >= Upper(m) {
        return;
      }
      UpperBelow(m);
      var newFlags := new Flag[m](_ => Empty);
      Relayout(newFlags);
      flags := newFlags;
      nBuckets := m;
      nOccupied := size;
      upperBound := Upper(m);
    }

    /** Grows the key array if needed, moves all keys to the layout of `newFlags`, and cuts the key
        array down to the new size. */
    method Relayout(newFlags: array<Flag>)
      requires Valid() && newFlags != flags
      requires Pow2(newFlags.Length) && size < newFlags.Length
      requires forall b :: 0 <= b < newFlags.Length ==> newFlags[b] == Empty
      modifies this`keys, flags, keys, newFlags
      ensures keys.Length == newFlags.Length
      ensures WellFormed(newFlags[..], keys[..], hash)
      ensures Keys(newFlags[..], keys[..]) == old(Contents())
      ensures UsedAt(newFlags[..]) == LiveAt(newFlags[..]) && |LiveAt(newFlags[..])| == size
      ensures keys == old(keys) || fresh(keys)
    {
      ghost var fl, ks0 := flags[..], keys[..];
      if nBuckets < newFlags.Length {
        Grow(newFlags.Length);
      }
      assert forall b :: 0 <= b < |fl| ==> keys[..][b] == ks0[b];
      assert Keys(fl, keys[..]) == Keys(fl, ks0);
      MovingStarts(fl, newFlags[..], keys[..], hash);
      Rehashed(newFlags);
      ghost var ks := keys[..];
      MovingEnds(flags[..], newFlags[..], ks, hash);
      if nBuckets > newFlags.Length {
        Shrink(newFlags.Length);
      }
      assert keys[..] == ks[..newFlags.Length];
    }

    /** The loop over the old buckets. */
    method Rehashed(newFlags: array<Flag>)
      requires newFlags != flags && Pow2(newFlags.Length) && flags.Length == nBuckets
      requires Moving(flags[..], newFlags[..], keys[..], hash)
      requires LiveAt(newFlags[..]) == {} && |LiveAt(flags[..])| < newFlags.Length
      modifies flags, keys, newFlags
      ensures Moving(flags[..], newFlags[..], keys[..], hash)
      ensures HeldKeys(flags[..], newFlags[..], keys[..]) == old(HeldKeys(flags[..], newFlags[..], keys[..]))
      ensures |LiveAt(newFlags[..])| == old(|LiveAt(flags[..])|)
      ensures forall b :: 0 <= b < flags.Length ==> flags[b] != Live
    {
      ghost var held := HeldKeys(flags[..], newFlags[..], keys[..]);
      ghost var total := |LiveAt(flags[..])|;
      var j := 0;
      while j != nBuckets
        invariant 0 <= j <= nBuckets
        invariant Moving(flags[..], newFlags[..], keys[..], hash)
        invariant HeldKeys(flags[..], newFlags[..], keys[..]) == held
        invariant |LiveAt(flags[..])| + |LiveAt(newFlags[..])| == total
        invariant forall b :: 0 <= b < j ==> flags[b] != Live
      {
        if flags[j] == Live {
          var key := keys[j];
          ghost var fl := flags[..];
          Taken(fl, newFlags[..], keys[..], hash, j);
          flags[j] := Deleted;
          assert flags[..] == fl[j := Deleted];
          KickOut(newFlags, key);
        }
        j := j + 1;
      }
      assert LiveAt(flags[..]) == {};
    }

    /** The size that an insertion asks for when the table is too full: the same size, which only
        clears tombstones, if fewer than half of the buckets are live, else twice the size. Both
        requests are accepted. */
    static lemma RequestAccepted(n: nat, live: set<nat>, used: set<nat>)
      requires n == 0 || (n >= 4 && Pow2(n))
      requires live <= used && |used| <= (if n == 0 then 0 else Upper(n))
      ensures n > 2 * |live| ==> NewSize(n - 1) == n
      ensures n <= 2 * |live| ==> NewSize(n + 1) == if n == 0 then 4 else 2 * n
      ensures |live| < Upper(NewSize(if n > 2 * |live| then n - 1 else n + 1))
    {
      SubsetSize(live, used);
      if n > 0 {
        RoundUpNeighbours(n);
        UpperBelow(n);
      }
    }

    /** Makes room for one more used bucket, by rehashing in place or doubling. */
    method MakeRoom()
      requires Valid()
      modifies this, flags, keys
      ensures Valid() && Contents() == old(Contents()) && size == old(size)
      ensures nOccupied < upperBound
      ensures flags == old(flags) || fresh(flags)
      ensures keys == old(keys) || fresh(keys)
    {
      if nOccupied >= upperBound {
        RequestAccepted(nBuckets, LiveAt(flags[..]), UsedAt(flags[..]));
        var request := if nBuckets > 2 * size then nBuckets - 1 else nBuckets + 1;
        Resize(request);
      }
    }

    /** The probes from step `from` up to step `to` meet live buckets only. */
    static ghost predicate AllLive(flags: seq<Flag>, h: nat, from: nat, to: nat)
      requires |flags| > 0
    {
      forall t: nat :: from <= t < to ==> flags[Pos(h, t, |flags|)] == Live
    }

    /** The bucket for `key`: the one that holds it, else the last tombstone that its probe met
        before an empty bucket, else that empty bucket. */
    static method FindSlot(flags: array<Flag>, keys: array<Key>, hash: Key -> nat, key: Key)
      returns (x: nat, ghost s: nat, ghost e: nat)
      requires flags.Length == keys.Length && Pow2(flags.Length)
      requires |UsedAt(flags[..])| < flags.Length
      ensures s < flags.Length && x == Pos(hash(key), s, flags.Length)
      ensures s <= e && AllMiss(flags[..], keys[..], hash, key, e)
      ensures x < flags.Length && (flags[x] == Live ==> keys[x] == key)
      ensures flags[x] != Live ==> flags[Pos(hash(key), e, flags.Length)] == Empty
      ensures flags[x] == Deleted ==> AllLive(flags[..], hash(key), s + 1, e)
      ensures flags[x] == Empty ==> s == e && AllLive(flags[..], hash(key), 0, e)
    {
      var i: nat := Wrap(hash(key), flags.Length);
      if flags[i] == Empty {
        return i, 0, 0;
      }
      var site: nat;
      ghost var siteStep: nat, step: nat;
      i, site, siteStep, step := ProbeForPut(flags, keys, hash, key);
      if flags[i] == Empty && site != flags.Length {
        return site, siteStep, step;
      } else {
        return i, step, step;
      }
    }

    /** The probe loop of an insertion: stops at the bucket of `key` or at an empty bucket, and notes the last tombstone
        met on the way. The comparison for having come back to the start never succeeds. */
    static method ProbeForPut(flags: array<Flag>, keys: array<Key>, hash: Key -> nat, key: Key)
      returns (i: nat, site: nat, ghost siteStep: nat, ghost step: nat)
      requires flags.Length == keys.Length && Pow2(flags.Length)
      requires |UsedAt(flags[..])| < flags.Length
      ensures step < flags.Length && i == Pos(hash(key), step, flags.Length)
      ensures AllMiss(flags[..], keys[..], hash, key, step)
      ensures flags[i] == Empty || (flags[i] == Live && keys[i] == key)
      ensures LastTombstone(flags[..], hash(key), site, siteStep, step)
    {
      ghost var h := hash(key);
      ghost var far := EmptyReached(flags[..], h);
      var k: nat := 0;
      site, siteStep := flags.Length, 0;
      i := Wrap(hash(key), flags.Length);
      var last: nat := i;
      while flags[i] != Empty && (flags[i] == Deleted || keys[i] != key)
        invariant k <= far && i == Pos(h, k, flags.Length)
        invariant AllMiss(flags[..], keys[..], hash, key, k)
        invariant LastTombstone(flags[..], h, site, siteStep, k)
        decreases far - k
      {
        NextTombstone(flags[..], h, site, siteStep, k);
        if flags[i] == Deleted {
          site := i;
          siteStep := k;
        }
        PosNext(h, k, flags.Length);
        k := k + 1;
        i := Wrap(i + k, flags.Length);
        PosDistinct(h, 0, k, flags.Length);
        if i == last {
          assert false;
          break;
        }
      }
      step := k;
    }

    /** `site` is the bucket of the last tombstone met by the first `k` probes, or the table size if there was none. */
    static ghost predicate LastTombstone(flags: seq<Flag>, h: nat, site: nat, siteStep: nat, k: nat) {
      && |flags| > 0
      && if site == |flags| then AllLive(flags, h, 0, k)
         else
           && siteStep < k && site == Pos(h, siteStep, |flags|) && flags[site] == Deleted
           && AllLive(flags, h, siteStep + 1, k)
    }

    static lemma NextTombstone(flags: seq<Flag>, h: nat, site: nat, siteStep: nat, k: nat)
      requires LastTombstone(flags, h, site, siteStep, k)
      ensures flags[Pos(h, k, |flags|)] == Deleted ==> LastTombstone(flags, h, Pos(h, k, |flags|), k, k + 1)
      ensures flags[Pos(h, k, |flags|)] == Live ==> LastTombstone(flags, h, site, siteStep, k + 1)
    {
    }

    /** Writes an absent key to a free bucket on its probe path. */
    method Write(x: nat, key: Key, ghost s: nat) returns (ret: PutResult)
      requires Valid() && nOccupied < upperBound && key !in Contents()
      requires s < nBuckets && x == Pos(hash(key), s, nBuckets)
      requires PathOpen(flags[..], hash(key), s) && flags[x] != Live
      modifies this`size, this`nOccupied, flags, keys
      ensures Valid() && Contents() == old(Contents()) + {key}
      ensures flags[x] == Live && keys[x] == key
      ensures ret == if old(flags[x]) == Empty then InsertedFresh else InsertedOverTombstone
    {
      ghost var fl, ks := flags[..], keys[..];
      Inserted(fl, ks, hash, key, s);
      keys[x] := key;
      if flags[x] == Empty {
        nOccupied := nOccupied + 1;
        ret := InsertedFresh;
      } else {
        ret := InsertedOverTombstone;
      }
      flags[x] := Live;
      size := size + 1;
      assert flags[..] == fl[x := Live] && keys[..] == ks[x := key];
    }

    /** Adds `key` to the set and returns its bucket. */
    method Put(key: Key) returns (x: nat, ret: PutResult)
      requires Valid()
      modifies this, flags, keys
      ensures Valid() && Contents() == old(Contents()) + {key}
      ensures x < nBuckets && flags[x] == Live && keys[x] == key
      ensures ret == Present <==> key in old(Contents())
      ensures flags == old(flags) || fresh(flags)
      ensures keys == old(keys) || fresh(keys)
    {
      MakeRoom();
      UpperBelow(nBuckets);
      ghost var s, e;
      x, s, e := FindSlot(flags, keys, hash, key);
      if flags[x] == Live {
        assert flags[..][x] == Live;
        ret := Present;
      } else {
        AbsentAtEmpty(flags[..], keys[..], hash, key, e);
        AllMissEach(flags[..], keys[..], hash, key, e);
        ret := Write(x, key, s);
      }
    }
  }

  /** A call on the table by a user who keeps no bucket numbers. */
  datatype Op = OpPut(key: Key) | OpGet(key: Key) | OpDel(key: Key)

  /** What a user sees of a call: whether the key was there before it, and the size after it. */
  datatype Seen = Seen(member: bool, size: nat)

  /** The set after one call. */
  function After(s: set<Key>, op: Op): set<Key> {
    match op
    case OpPut(k) => s + {k}
    case OpGet(_) => s
    case OpDel(k) => s - {k}
  }

  /** What a user of a mathematical set sees of a sequence of calls. */
  function SetRun(s: set<Key>, ops: seq<Op>): seq<Seen>
    decreases |ops|
  {
    if ops == [] then []
    else [Seen(ops[0].key in s, |After(s, ops[0])|)] + SetRun(After(s, ops[0]), ops[1..])
  }

  /** One call. */
  method Apply(h: HashSet, op: Op) returns (seen: Seen)
    requires h.Valid()
    modifies h, h.flags, h.keys
    ensures h.Valid() && h.Contents() == After(old(h.Contents()), op)
    ensures seen == Seen(op.key in old(h.Contents()), |h.Contents()|)
    ensures h.flags == old(h.flags) || fresh(h.flags)
    ensures h.keys == old(h.keys) || fresh(h.keys)
  {
    var member;
    match op {
      case OpPut(k) =>
        var _, ret := h.Put(k);
        member := ret == Present;
      case OpGet(k) =>
        var x := h.Get(k);
        member := x < h.nBuckets;
      case OpDel(k) =>
        var x := h.Get(k);
        member := x < h.nBuckets;
        h.Del(x);
    }
    h.SizeIsCardinality();
    seen := Seen(member, h.size);
  }

  /** A partial run is extended by one call. */
  lemma SetRunStep(seen: seq<Seen>, s: set<Key>, ops: seq<Op>, i: nat, whole: seq<Seen>)
    requires i < |ops| && seen + SetRun(s, ops[i..]) == whole
    ensures seen + [Seen(ops[i].key in s, |After(s, ops[i])|)] + SetRun(After(s, ops[i]), ops[i + 1..]) == whole
  {
    assert ops[i..][1..] == ops[i + 1..];
  }

  /** Any sequence of calls on a new table, across all rehashes and tombstones, shows a user
      exactly what a mathematical set would show. */
  method Run(hash: Key -> nat, ops: seq<Op>) returns (seen: seq<Seen>)
    ensures seen == SetRun({}, ops)
  {
    var h := new HashSet(hash);
    ghost var s: set<Key> := {};
    ghost var whole := SetRun({}, ops);
    seen := [];
    assert ops[0..] == ops;
    for i := 0 to |ops|
      invariant h.Valid() && h.Contents() == s
      invariant fresh(h) && fresh(h.flags) && fresh(h.keys)
      invariant seen + SetRun(s, ops[i..]) == whole
    {
      SetRunStep(seen, s, ops, i, whole);
      var one := Apply(h, ops[i]);
      s := After(s, ops[i]);
      seen := seen + [one];
    }
    assert ops[|ops|..] == [];
  }
}
