/** Descriptor processing of a block request (ctrl/snap_virtio_blk_virtq.c): data that shares a
    descriptor with the header or the footer is split off, and data descriptors that continue one
    another are merged. What must not change is the sequence of host bytes that the chain names. */
module Descriptors {

  const U32: nat := 0x1_0000_0000
  const U64: nat := 0x1_0000_0000_0000_0000

  /** `sizeof(struct virtio_blk_outhdr)` and `sizeof(struct virtio_blk_outftr)`. */
  const HEADER_LEN: nat := 16
  const FOOTER_LEN: nat := 1

  /** A `struct vring_desc` with its flag bits spelt out. */
  datatype Desc = Desc(addr: nat, len: nat, write: bool, hasNext: bool, indirect: bool, next: nat)

  /** Addresses have 64 bits and lengths 32 bits. */
  predicate InRange(d: Desc) {
    d.addr < U64 && d.len < U32
  }

  predicate AllInRange(ds: seq<Desc>) {
    forall i :: 0 <= i < |ds| ==> InRange(ds[i])
  }

  /** 64-bit addition of an address and a length. */
  function Add64(a: nat, b: nat): (r: nat)
    requires a < U64 && b <= U64
    ensures r < U64
  {
    if a + b < U64 then a + b else a + b - U64
  }

  /** 32-bit addition and subtraction. */
  function Add32(a: nat, b: nat): (r: nat)
    requires a < U32 && b < U32
    ensures r < U32
  {
    if a + b < U32 then a + b else a + b - U32
  }

  function Sub32(a: nat, b: nat): (r: nat)
    requires a < U32 && b < U32
    ensures r < U32
  {
    if b <= a then a - b else a + U32 - b
  }

  /** A host byte and the direction in which it is accessed. */
  datatype Byte = Byte(addr: nat, write: bool)

  /** `len` bytes from `addr` on, in 64-bit addresses. */
  ghost function Bytes(addr: nat, len: nat, write: bool): (r: seq<Byte>)
    requires addr < U64
    ensures |r| == len
    decreases len
  {
    if len == 0 then [] else [Byte(addr, write)] + Bytes(Add64(addr, 1), len - 1, write)
  }

  /** The host bytes that a chain names, in order. */
  ghost function Flatten(ds: seq<Desc>): seq<Byte>
    requires AllInRange(ds)
  {
    if ds == [] then [] else Bytes(ds[0].addr, ds[0].len, ds[0].write) + Flatten(ds[1..])
  }

  function TotalLen(ds: seq<Desc>): nat {
    if ds == [] then 0 else ds[0].len + TotalLen(ds[1..])
  }

  lemma {:induction false} FlattenLength(ds: seq<Desc>)
    requires AllInRange(ds)
    ensures |Flatten(ds)| == TotalLen(ds)
  {
    if ds != [] {
      FlattenLength(ds[1..]);
    }
  }

  lemma {:induction false} FlattenConcat(a: seq<Desc>, b: seq<Desc>)
    requires AllInRange(a) && AllInRange(b)
    ensures AllInRange(a + b)
    ensures Flatten(a + b) == Flatten(a) + Flatten(b)
    ensures TotalLen(a + b) == TotalLen(a) + TotalLen(b)
  {
    if a == [] {
      assert a + b == b;
    } else {
      var x := a[0];
      FlattenConcat(a[1..], b);
      assert (a + b)[0] == x && (a + b)[1..] == a[1..] + b;
      AppendTwo(Bytes(x.addr, x.len, x.write), Flatten(a[1..]), Flatten(b));
    }
  }

  lemma FlattenOne(d: Desc)
    requires InRange(d)
    ensures Flatten([d]) == Bytes(d.addr, d.len, d.write) && TotalLen([d]) == d.len
  {
    assert [d][1..] == [];
  }

  /** A run of bytes is two runs, one after the other. */
  lemma {:induction false} BytesSplit(addr: nat, a: nat, b: nat, write: bool)
    requires addr < U64 && a <= U64
    ensures Bytes(addr, a + b, write) == Bytes(addr, a, write) + Bytes(Add64(addr, a), b, write)
    decreases a
  {
    if a > 0 {
      BytesSplit(Add64(addr, 1), a - 1, b, write);
      assert Add64(Add64(addr, 1), a - 1) == Add64(addr, a);
    }
  }

  // ---------------------------------------------------------------- merging

  /** `d` continues `m` in host memory and has the same direction. */
  predicate Mergeable(m: Desc, d: Desc)
    requires InRange(m) && InRange(d)
  {
    d.addr == Add64(m.addr, m.len) && m.write == d.write
  }

  /** `m` extended by `d`. */
  function Join(m: Desc, d: Desc): Desc
    requires InRange(m) && InRange(d)
  {
    m.(len := Add32(m.len, d.len), next := d.next)
  }

  /** One more data descriptor after those already merged. */
  function Push(acc: seq<Desc>, d: Desc): (r: seq<Desc>)
    requires AllInRange(acc) && InRange(d)
    ensures AllInRange(r) && r != []
    ensures |r| <= |acc| + 1
  {
    if acc != [] && Mergeable(acc[|acc| - 1], d)
    then acc[|acc| - 1 := Join(acc[|acc| - 1], d)]
    else acc + [d]
  }

  /** The data descriptors after merging. */
  function Merged(ds: seq<Desc>): (r: seq<Desc>)
    requires AllInRange(ds)
    ensures AllInRange(r) && |r| <= |ds| && (r == [] <==> ds == [])
  {
    if ds == [] then [] else Push(Merged(ds[..|ds| - 1]), ds[|ds| - 1])
  }

  lemma JoinBytes(m: Desc, d: Desc)
    requires InRange(m) && InRange(d) && Mergeable(m, d) && m.len + d.len < U32
    ensures var j := Join(m, d);
            Bytes(j.addr, j.len, j.write) == Bytes(m.addr, m.len, m.write) + Bytes(d.addr, d.len, d.write)
  {
    BytesSplit(m.addr, m.len, d.len, m.write);
  }

  lemma FlattenLast(front: seq<Desc>, d: Desc)
    requires AllInRange(front) && InRange(d)
    ensures AllInRange(front + [d])
    ensures Flatten(front + [d]) == Flatten(front) + Bytes(d.addr, d.len, d.write)
    ensures TotalLen(front + [d]) == TotalLen(front) + d.len
  {
    FlattenOne(d);
    FlattenConcat(front, [d]);
  }

  lemma AppendTwo<T>(a: seq<T>, b: seq<T>, c: seq<T>)
    ensures a + (b + c) == a + b + c
  {
  }

  /** A descriptor joined to the last one adds its bytes, unless the length wraps around and 2^32 bytes are missing. */
  lemma PushFlatten(acc: seq<Desc>, d: Desc)
    requires AllInRange(acc) && InRange(d)
    ensures var wraps := acc != [] && Mergeable(acc[|acc| - 1], d) && acc[|acc| - 1].len + d.len >= U32;
            && TotalLen(Push(acc, d)) + (if wraps then U32 else 0) == TotalLen(acc) + d.len
            && (!wraps ==> Flatten(Push(acc, d)) == Flatten(acc) + Bytes(d.addr, d.len, d.write))
  {
    if acc != [] && Mergeable(acc[|acc| - 1], d) {
      var front, m := acc[..|acc| - 1], acc[|acc| - 1];
      assert acc == front + [m] && Push(acc, d) == front + [Join(m, d)];
      FlattenLast(front, m);
      FlattenLast(front, Join(m, d));
      if m.len + d.len < U32 {
        JoinBytes(m, d);
        AppendTwo(Flatten(front), Bytes(m.addr, m.len, m.write), Bytes(d.addr, d.len, d.write));
      }
    } else {
      FlattenLast(acc, d);
    }
  }

  lemma {:induction false} TotalLenFront(ds: seq<Desc>)
    requires ds != [] && AllInRange(ds)
    ensures TotalLen(ds) == TotalLen(ds[..|ds| - 1]) + ds[|ds| - 1].len
  {
    var k := |ds| - 1;
    assert ds == ds[..k] + [ds[k]];
    FlattenLast(ds[..k], ds[k]);
  }

  /** The bytes of the descriptors that end with the `n`-th and each continue the one before. */
  function RunTo(ds: seq<Desc>, n: nat): nat
    requires 0 < n <= |ds| && AllInRange(ds)
  {
    ds[n - 1].len + if n > 1 && Mergeable(ds[n - 2], ds[n - 1]) then RunTo(ds, n - 1) else 0
  }

  /** Every run among the first `n` descriptors has less than 2^32 bytes. */
  ghost predicate RunsFitTo(ds: seq<Desc>, n: nat)
    requires n <= |ds| && AllInRange(ds)
  {
    forall m: nat :: 0 < m <= n ==> RunTo(ds, m) < U32
  }

  ghost predicate RunsFit(ds: seq<Desc>)
    requires AllInRange(ds)
  {
    RunsFitTo(ds, |ds|)
  }

  /** The last merged descriptor is the run that ends with the `n`-th one. */
  ghost predicate LastIsRun(ds: seq<Desc>, n: nat, acc: seq<Desc>)
    requires 0 < n <= |ds| && AllInRange(ds) && AllInRange(acc)
  {
    && acc != []
    && var last, d := acc[|acc| - 1], ds[n - 1];
       last.len == RunTo(ds, n) && last.write == d.write && Add64(last.addr, last.len) == Add64(d.addr, d.len)
  }

  lemma PushRun(ds: seq<Desc>, n: nat, acc: seq<Desc>)
    requires 1 < n <= |ds| && AllInRange(ds) && AllInRange(acc) && LastIsRun(ds, n - 1, acc)
    ensures Mergeable(acc[|acc| - 1], ds[n - 1]) <==> Mergeable(ds[n - 2], ds[n - 1])
    ensures RunTo(ds, n) < U32 ==> LastIsRun(ds, n, Push(acc, ds[n - 1]))
  {
    var last, d := acc[|acc| - 1], ds[n - 1];
    if Mergeable(last, d) && last.len + d.len < U32 {
      assert Add64(last.addr, last.len + d.len) == Add64(Add64(last.addr, last.len), d.len);
    }
  }

  lemma MergedPrefix(ds: seq<Desc>, n: nat)
    requires 0 < n <= |ds| && AllInRange(ds)
    ensures Merged(ds[..n]) == Push(Merged(ds[..n - 1]), ds[n - 1])
    ensures Flatten(ds[..n]) == Flatten(ds[..n - 1]) + Bytes(ds[n - 1].addr, ds[n - 1].len, ds[n - 1].write)
    ensures TotalLen(ds[..n]) == TotalLen(ds[..n - 1]) + ds[n - 1].len
  {
    assert ds[..n][..n - 1] == ds[..n - 1] && ds[..n] == ds[..n - 1] + [ds[n - 1]];
    FlattenLast(ds[..n - 1], ds[n - 1]);
  }

  /** As long as every run fits, merging keeps the bytes; from the first that does not on, bytes are missing. */
  lemma {:induction false} MergedTo(ds: seq<Desc>, n: nat)
    requires n <= |ds| && AllInRange(ds)
    ensures var acc := Merged(ds[..n]);
            if RunsFitTo(ds, n) then Flatten(acc) == Flatten(ds[..n]) && (n > 0 ==> LastIsRun(ds, n, acc))
            else TotalLen(acc) < TotalLen(ds[..n])
    ensures TotalLen(Merged(ds[..n])) <= TotalLen(ds[..n])
    ensures RunsFitTo(ds, n) ==> TotalLen(Merged(ds[..n])) == TotalLen(ds[..n])
  {
    if n > 0 {
      var acc := Merged(ds[..n - 1]);
      MergedTo(ds, n - 1);
      MergedPrefix(ds, n);
      PushFlatten(acc, ds[n - 1]);
      if n > 1 && RunsFitTo(ds, n - 1) {
        PushRun(ds, n, acc);
      }
    }
  }

  /** Merging keeps the bytes that the chain names if and only if every run of descriptors that continue each other has
      less than 2^32 bytes. */
  lemma MergedFlatten(ds: seq<Desc>)
    requires AllInRange(ds)
    ensures Flatten(Merged(ds)) == Flatten(ds) <==> RunsFit(ds)
    ensures RunsFit(ds) ==> TotalLen(Merged(ds)) == TotalLen(ds)
  {
    MergedTo(ds, |ds|);
    assert ds[..|ds|] == ds;
    FlattenLength(ds);
    FlattenLength(Merged(ds));
  }

  lemma {:induction false} RunBelowTotal(ds: seq<Desc>, n: nat)
    requires 0 < n <= |ds| && AllInRange(ds)
    ensures RunTo(ds, n) <= TotalLen(ds[..n]) <= TotalLen(ds)
  {
    MergedPrefix(ds, n);
    assert ds == ds[..n] + ds[n..];
    FlattenConcat(ds[..n], ds[n..]);
    if n > 1 {
      RunBelowTotal(ds, n - 1);
    }
  }

  /** In particular every chain of less than 2^32 bytes is kept. */
  lemma ShortChainsFit(ds: seq<Desc>)
    requires AllInRange(ds) && TotalLen(ds) < U32
    ensures RunsFit(ds)
  {
    forall n: nat | 0 < n <= |ds| ensures RunTo(ds, n) < U32 {
      RunBelowTotal(ds, n);
    }
  }

  /** Two descriptors of 2^31 bytes, one after the other: merged they have no bytes. */
  lemma LongRunLosesBytes()
    ensures var ds := [Desc(0, 0x8000_0000, true, true, false, 1), Desc(0x8000_0000, 0x8000_0000, true, false, false, 0)];
            AllInRange(ds) && Merged(ds) == [Desc(0, 0, true, true, false, 0)] && !RunsFit(ds)
  {
    var ds := [Desc(0, 0x8000_0000, true, true, false, 1), Desc(0x8000_0000, 0x8000_0000, true, false, false, 0)];
    assert ds[..1] == [ds[0]] && ds[..1][..0] == [];
    assert Merged(ds[..1]) == [ds[0]];
    assert RunTo(ds, 1) == 0x8000_0000 && RunTo(ds, 2) == U32;
  }

  /** No two neighbours can be merged any further. */
  ghost predicate Settled(ds: seq<Desc>)
    requires AllInRange(ds)
  {
    forall i :: 0 <= i < |ds| - 1 ==> !Mergeable(ds[i], ds[i + 1])
  }

  /** After merging no neighbours are left that could be merged. */
  lemma {:induction false} MergedSettled(ds: seq<Desc>)
    requires AllInRange(ds)
    ensures Settled(Merged(ds))
  {
    if ds != [] {
      MergedSettled(ds[..|ds| - 1]);
    }
  }

  lemma {:induction false} SettledUnchanged(ds: seq<Desc>)
    requires AllInRange(ds) && Settled(ds)
    ensures Merged(ds) == ds
  {
    if ds != [] {
      var k := |ds| - 1;
      SettledUnchanged(ds[..k]);
      assert k > 0 ==> !Mergeable(ds[k - 1], ds[k]);
      assert ds == ds[..k] + [ds[k]];
    }
  }

  /** Merging a second time does nothing. */
  lemma MergedIdempotent(ds: seq<Desc>)
    requires AllInRange(ds)
    ensures Merged(Merged(ds)) == Merged(ds)
  {
    MergedSettled(ds);
    SettledUnchanged(Merged(ds));
  }

  /** A chain whose data descriptors, between header and footer, have been merged. */
  function MergedChain(ds: seq<Desc>): (r: seq<Desc>)
    requires AllInRange(ds)
    ensures AllInRange(r) && |r| <= |ds|
  {
    if |ds| < 3 then ds else [ds[0]] + Merged(ds[1..|ds| - 1]) + [ds[|ds| - 1]]
  }

  /** Treats the data descriptor at `i`: it is either joined to the one at `copyTo - 1` or becomes the
      next one behind it. Returns the new end of the merged part. */
  method MergeOne(descs: array<Desc>, i: nat, copyTo: nat) returns (end: nat)
    requires 2 <= copyTo <= i < descs.Length
    requires AllInRange(descs[1..copyTo]) && InRange(descs[i])
    modifies descs
    ensures end == copyTo || end == copyTo + 1
    ensures descs[1..end] == Push(old(descs[1..copyTo]), old(descs[i]))
    ensures descs[0] == old(descs[0])
    ensures forall j :: i < j < descs.Length ==> descs[j] == old(descs[j])
  {
    var mergedIndex := copyTo - 1;
    ghost var acc, d := descs[1..copyTo], descs[i];
    assert acc[|acc| - 1] == descs[mergedIndex];
    if Mergeable(descs[mergedIndex], descs[i]) {
      descs[mergedIndex] := Join(descs[mergedIndex], descs[i]);
      end := copyTo;
      assert descs[1..end] == acc[|acc| - 1 := Join(acc[|acc| - 1], d)];
    } else {
      if i != copyTo {
        descs[copyTo] := descs[i];
      }
      end := copyTo + 1;
      assert descs[1..end] == acc + [d];
    }
  }

  /** The merge loop: packs the data descriptors, merged, from index 1 on and returns their end. */
  method MergeData(descs: array<Desc>, n: nat) returns (copyTo: nat, numMerges: nat)
    requires 3 <= n <= descs.Length && AllInRange(descs[..n])
    modifies descs
    ensures 2 <= copyTo && copyTo + numMerges == n - 1
    ensures descs[1..copyTo] == Merged(old(descs[..n])[1..n - 1])
    ensures descs[0] == old(descs[0])
    ensures forall j :: n - 1 <= j < descs.Length ==> descs[j] == old(descs[j])
  {
    ghost var o := descs[..n];
    numMerges, copyTo := 0, 2;
    var i := 2;
    MergedSingle(o);
    while i < n - 1
      invariant 2 <= copyTo <= i <= n - 1 && i - copyTo == numMerges
      invariant descs[0] == old(descs[0])
      invariant forall j :: i <= j < descs.Length ==> descs[j] == old(descs[j])
      invariant AllInRange(descs[1..copyTo]) && descs[1..copyTo] == Merged(o[1..i])
    {
      MergedStep(o, i);
      assert descs[i] == o[i];
      var end := MergeOne(descs, i, copyTo);
      if end == copyTo {
        numMerges := numMerges + 1;
      }
      copyTo := end;
      i := i + 1;
    }
  }

  method MoveFooter(descs: array<Desc>, from: nat, to: nat)
    requires to <= from < descs.Length
    modifies descs
    ensures descs[..to + 1] == old(descs[..to]) + [old(descs[from])]
    ensures forall j :: from < j < descs.Length ==> descs[j] == old(descs[j])
  {
    descs[to] := descs[from];
  }

  /** Merging in place. Returns the new number of descriptors and the number of merges. */
  method MergeSequential(descs: array<Desc>, n: nat) returns (m: nat, numMerges: nat)
    requires 2 <= n <= descs.Length && AllInRange(descs[..n])
    modifies descs
    ensures m + numMerges == n && m <= n
    ensures descs[..m] == MergedChain(old(descs[..n]))
    ensures forall j :: n <= j < descs.Length ==> descs[j] == old(descs[j])
  {
    if n == 2 {
      return n, 0;
    }
    var copyTo;
    copyTo, numMerges := MergeData(descs, n);
    m := n - numMerges;
    assert descs[..copyTo] == [descs[0]] + descs[1..copyTo];
    MoveFooter(descs, n - 1, copyTo);
  }

  lemma MergedSingle(o: seq<Desc>)
    requires |o| >= 3 && AllInRange(o)
    ensures Merged(o[1..2]) == [o[1]]
  {
    assert o[1..2] == [o[1]] && o[1..2][..0] == [];
  }

  lemma MergedStep(o: seq<Desc>, i: nat)
    requires 2 <= i < |o| && AllInRange(o)
    ensures Merged(o[1..i + 1]) == Push(Merged(o[1..i]), o[i])
  {
    assert o[1..i + 1][..i - 1] == o[1..i];
  }

  // ---------------------------------------------------------------- splitting

  /** The chain after the header has been given a descriptor of its own. The other descriptors move up
      by one place; their `next` fields stay where they were. */
  function SplitHeader(o: seq<Desc>): (r: seq<Desc>)
    requires |o| >= 2 && AllInRange(o)
    ensures |r| == |o| + 1 && AllInRange(r)
  {
    seq(|o| + 1, k requires 0 <= k <= |o| => HeaderSplitAt(o, k))
  }

  function HeaderSplitAt(o: seq<Desc>, k: nat): (d: Desc)
    requires |o| >= 2 && AllInRange(o) && k <= |o|
    ensures InRange(d)
  {
    var n := |o|;
    if k == 0 then o[0].(len := HEADER_LEN)
    else
      var moved := o[k - 1].(next := if k < n then o[k].next else 0);
      var rest := if k == 1
                  then moved.(addr := Add64(moved.addr, HEADER_LEN), len := Sub32(moved.len, HEADER_LEN))
                  else moved;
      if k == n - 1 then rest.(hasNext := true, next := n) else rest
  }

  /** The chain after the footer has been given a descriptor of its own. The new descriptor takes its
      flags from the one it came from and keeps the `next` field of the unused entry it is written to. */
  function SplitFooter(o: seq<Desc>, spare: Desc): (r: seq<Desc>)
    requires |o| >= 2 && AllInRange(o)
    ensures |r| == |o| + 1 && AllInRange(r)
  {
    var n := |o|;
    var cut := FooterCut(o[n - 1], n);
    o[..n - 1] + [cut, FooterAfter(cut, spare)]
  }

  /** What is left of the last descriptor, linked to entry `n`. */
  function FooterCut(d: Desc, n: nat): (r: Desc)
    requires InRange(d)
    ensures InRange(r)
  {
    d.(len := Sub32(d.len, FOOTER_LEN), hasNext := true, next := n)
  }

  function FooterAfter(cut: Desc, spare: Desc): (r: Desc)
    requires InRange(cut)
    ensures InRange(r)
  {
    cut.(addr := Add64(cut.addr, cut.len), len := FOOTER_LEN, next := spare.next)
  }

  /** The chain after splitting: the footer is looked at only if the header needs no splitting. */
  function Split(o: seq<Desc>, spare: Desc): (r: seq<Desc>)
    requires |o| >= 2 && AllInRange(o)
    ensures |r| >= 2 && AllInRange(r)
  {
    if o[0].len != HEADER_LEN then SplitHeader(o)
    else if o[|o| - 1].len != FOOTER_LEN then SplitFooter(o, spare)
    else o
  }

  /** Moves all descriptors up by one place, except for their `next` fields. */
  method ShiftUp(descs: array<Desc>, n: nat)
    requires n < descs.Length
    modifies descs
    ensures forall k :: 1 <= k <= n ==> descs[k] == old(descs[k - 1]).(next := old(descs[k].next))
    ensures forall k :: 0 <= k < descs.Length && !(1 <= k <= n) ==> descs[k] == old(descs[k])
  {
    var i := n;
    while i > 0
      invariant 0 <= i <= n
      invariant forall k :: i < k <= n ==> descs[k] == old(descs[k - 1]).(next := old(descs[k].next))
      invariant forall k :: 0 <= k < descs.Length && !(i < k <= n) ==> descs[k] == old(descs[k])
    {
      descs[i] := descs[i - 1].(next := descs[i].next);
      i := i - 1;
    }
  }

  method SplitHeaderInPlace(descs: array<Desc>, n: nat)
    requires 2 <= n < descs.Length && AllInRange(descs[..n])
    modifies descs
    ensures descs[..n + 1] == SplitHeader(old(descs[..n]))
  {
    ghost var o := descs[..n];
    ShiftUp(descs, n);
    assert descs[1] == o[0].(next := o[1].next);
    descs[0] := descs[0].(len := HEADER_LEN);
    descs[1] := descs[1].(addr := Add64(descs[1].addr, HEADER_LEN), len := Sub32(descs[1].len, HEADER_LEN));
    descs[n - 1] := descs[n - 1].(hasNext := true, next := n);
    descs[n] := descs[n].(next := 0);
    assert forall k :: 0 <= k <= n ==> descs[k] == HeaderSplitAt(o, k);
  }

  /** Splits in place; the array has room for one more descriptor. Returns the new number. */
  method SplitInPlace(descs: array<Desc>, n: nat) returns (m: nat)
    requires 2 <= n < descs.Length && AllInRange(descs[..n])
    modifies descs
    ensures n <= m <= n + 1 && descs[..m] == Split(old(descs[..n]), old(descs[n]))
  {
    ghost var o := descs[..n];
    if descs[0].len != HEADER_LEN {
      SplitHeaderInPlace(descs, n);
      m := n + 1;
    } else if descs[n - 1].len != FOOTER_LEN {
      descs[n - 1] := FooterCut(descs[n - 1], n);
      descs[n] := FooterAfter(descs[n - 1], descs[n]);
      m := n + 1;
      assert descs[..m] == o[..n - 1] + [descs[n - 1], descs[n]];
    } else {
      m := n;
    }
  }

  lemma {:induction false} FlattenSame(a: seq<Desc>, b: seq<Desc>)
    requires AllInRange(a) && AllInRange(b) && |a| == |b|
    requires forall i :: 0 <= i < |a| ==> a[i].addr == b[i].addr && a[i].len == b[i].len && a[i].write == b[i].write
    ensures Flatten(a) == Flatten(b) && TotalLen(a) == TotalLen(b)
  {
    if a != [] {
      FlattenSame(a[1..], b[1..]);
    }
  }

  /** Cutting one descriptor of a chain in two keeps the bytes of the chain. */
  lemma FlattenCut(front: seq<Desc>, a: Desc, b: Desc, d: Desc, rest: seq<Desc>)
    requires AllInRange(front) && InRange(a) && InRange(b) && InRange(d) && AllInRange(rest)
    requires a.addr == d.addr && a.write == b.write == d.write
    requires b.addr == Add64(a.addr, a.len) && a.len + b.len == d.len
    ensures Flatten(front + [a, b] + rest) == Flatten(front + [d] + rest)
  {
    FlattenLast(front, d);
    FlattenLast(front, a);
    FlattenLast(front + [a], b);
    assert front + [a, b] == front + [a] + [b];
    BytesSplit(d.addr, a.len, b.len, d.write);
    AppendTwo(Flatten(front), Bytes(a.addr, a.len, a.write), Bytes(b.addr, b.len, b.write));
    FlattenConcat(front + [d], rest);
    FlattenConcat(front + [a, b], rest);
  }

  lemma TotalLenCut(front: seq<Desc>, a: Desc, b: Desc, d: Desc, rest: seq<Desc>)
    requires AllInRange(front) && InRange(a) && InRange(b) && InRange(d) && AllInRange(rest)
    ensures TotalLen(front + [a, b] + rest) == TotalLen(front + [d] + rest) + a.len + b.len - d.len
  {
    FlattenLast(front, d);
    FlattenLast(front, a);
    FlattenLast(front + [a], b);
    assert front + [a, b] == front + [a] + [b];
    FlattenConcat(front + [d], rest);
    FlattenConcat(front + [a, b], rest);
  }

  /** Cutting a descriptor keeps the bytes of the chain if and only if the lengths add up. */
  lemma CutKeepsBytes(front: seq<Desc>, a: Desc, b: Desc, d: Desc, rest: seq<Desc>)
    requires AllInRange(front) && InRange(a) && InRange(b) && InRange(d) && AllInRange(rest)
    requires a.addr == d.addr && a.write == b.write == d.write && b.addr == Add64(a.addr, a.len)
    ensures Flatten(front + [a, b] + rest) == Flatten(front + [d] + rest) <==> a.len + b.len == d.len
    ensures TotalLen(front + [a, b] + rest) == TotalLen(front + [d] + rest) + a.len + b.len - d.len
  {
    TotalLenCut(front, a, b, d, rest);
    if a.len + b.len == d.len {
      FlattenCut(front, a, b, d, rest);
    } else {
      FlattenLength(front + [a, b] + rest);
      FlattenLength(front + [d] + rest);
    }
  }

  lemma FirstAndRest<T>(s: seq<T>)
    requires |s| >= 1
    ensures s == [] + [s[0]] + s[1..]
  {
  }

  lemma SplitHeaderBytes(o: seq<Desc>)
    requires |o| >= 2 && AllInRange(o)
    ensures var s := [] + [HeaderSplitAt(o, 0), HeaderSplitAt(o, 1)] + o[1..];
            && AllInRange(s)
            && Flatten(SplitHeader(o)) == Flatten(s) && TotalLen(SplitHeader(o)) == TotalLen(s)
  {
    var s := [] + [HeaderSplitAt(o, 0), HeaderSplitAt(o, 1)] + o[1..];
    FlattenSame(SplitHeader(o), s);
  }

  /** Splitting the header keeps the bytes of the chain if and only if the first descriptor is at least as
      long as a header; a shorter one makes the 32-bit length wrap around. */
  lemma SplitHeaderKeepsBytes(o: seq<Desc>)
    requires |o| >= 2 && AllInRange(o)
    ensures Flatten(SplitHeader(o)) == Flatten(o) <==> o[0].len >= HEADER_LEN
    ensures o[0].len >= HEADER_LEN ==> TotalLen(SplitHeader(o)) == TotalLen(o)
  {
    var a, b := HeaderSplitAt(o, 0), HeaderSplitAt(o, 1);
    FirstAndRest(o);
    CutKeepsBytes([], a, b, o[0], o[1..]);
    SplitHeaderBytes(o);
  }

  lemma FrontAndLast<T>(s: seq<T>)
    requires |s| >= 1
    ensures s == s[..|s| - 1] + [s[|s| - 1]]
  {
  }

  lemma AppendNothing<T>(s: seq<T>)
    ensures s + [] == s
  {
  }

  /** Splitting the footer keeps the bytes of the chain if and only if the last descriptor is not empty. */
  lemma SplitFooterKeepsBytes(o: seq<Desc>, spare: Desc)
    requires |o| >= 2 && AllInRange(o)
    ensures Flatten(SplitFooter(o, spare)) == Flatten(o) <==> o[|o| - 1].len >= FOOTER_LEN
    ensures o[|o| - 1].len >= FOOTER_LEN ==> TotalLen(SplitFooter(o, spare)) == TotalLen(o)
  {
    var n := |o|;
    var d, front, cut := o[n - 1], o[..n - 1], FooterCut(o[n - 1], n);
    CutKeepsBytes(front, cut, FooterAfter(cut, spare), d, []);
    AppendNothing(front + [cut, FooterAfter(cut, spare)]);
    AppendNothing(front + [d]);
    FrontAndLast(o);
  }

  /** What a driver must give for splitting to be exact. */
  predicate Splittable(o: seq<Desc>)
    requires |o| >= 2
  {
    && o[0].len >= HEADER_LEN
    && (o[0].len == HEADER_LEN ==> o[|o| - 1].len >= FOOTER_LEN)
  }

  /** Splitting keeps the bytes of the chain exactly for the chains with room for a header in their first
      descriptor and, if the footer is split, a non-empty last one. */
  lemma SplitKeepsBytes(o: seq<Desc>, spare: Desc)
    requires |o| >= 2 && AllInRange(o)
    ensures Flatten(Split(o, spare)) == Flatten(o) <==> Splittable(o)
    ensures Splittable(o) ==> TotalLen(Split(o, spare)) == TotalLen(o)
  {
    SplitHeaderKeepsBytes(o);
    SplitFooterKeepsBytes(o, spare);
  }

  /** A first descriptor of eight bytes: the chain after splitting names other bytes than before. */
  lemma ShortHeaderLosesBytes()
    ensures var o := [Desc(4096, 8, false, true, false, 1), Desc(8192, 9, true, false, false, 0)];
            AllInRange(o) && Flatten(Split(o, o[0])) != Flatten(o)
  {
    var o := [Desc(4096, 8, false, true, false, 1), Desc(8192, 9, true, false, false, 0)];
    SplitKeepsBytes(o, o[0]);
  }

  /** After splitting the header always has a descriptor of its own; the footer has one if and only if the
      header did or the footer had one already, because only one of the two is ever split. */
  lemma SplitIsolates(o: seq<Desc>, spare: Desc)
    requires |o| >= 2 && AllInRange(o)
    ensures var r := Split(o, spare);
            && r[0].len == HEADER_LEN && r[0].addr == o[0].addr
            && (r[|r| - 1].len == FOOTER_LEN
                <==> o[0].len == HEADER_LEN || o[|o| - 1].len == FOOTER_LEN)
  {
    var n := |o|;
    assert o[0].len != HEADER_LEN ==> SplitHeader(o)[n] == HeaderSplitAt(o, n);
  }

  // ---------------------------------------------------------------- the whole step

  /** The descriptors of a request after processing. */
  function Processed(o: seq<Desc>, spare: Desc, merge: bool): (r: seq<Desc>)
    requires AllInRange(o)
    ensures AllInRange(r)
  {
    if |o| < 2 then o
    else if merge then MergedChain(Split(o, spare))
    else Split(o, spare)
  }

  /** Processing in place. A chain of fewer than two descriptors is left alone (the caller then drops the
      request). The number of merges is set only when descriptors are merged; otherwise it stays what it was,
      `merges`. */
  method ProcessDescs(descs: array<Desc>, n: nat, merge: bool, merges: nat) returns (m: nat, numMerges: nat)
    requires n < descs.Length && AllInRange(descs[..n])
    modifies descs
    ensures m <= n + 1 && descs[..m] == Processed(old(descs[..n]), old(descs[n]), merge)
    ensures if n >= 2 && merge then m + numMerges == |Split(old(descs[..n]), old(descs[n]))| else numMerges == merges
  {
    numMerges := merges;
    if n < 2 {
      return n, merges;
    }
    m := SplitInPlace(descs, n);
    if merge {
      m, numMerges := MergeSequential(descs, m);
    }
  }

  /** The whole step keeps the bytes of a splittable chain if and only if every run of its data has less than 2^32
      bytes; it keeps its header and footer descriptors at the ends, and leaves no two data descriptors that could still
      be merged. */
  lemma ProcessedIsFaithful(o: seq<Desc>, spare: Desc)
    requires |o| >= 2 && AllInRange(o) && Splittable(o)
    ensures var s, r := Split(o, spare), Processed(o, spare, true);
            && (Flatten(r) == Flatten(o) <==> RunsFit(s[1..|s| - 1])) && |r| >= 2
            && r[0] == s[0] && r[|r| - 1] == s[|s| - 1]
            && Settled(r[1..|r| - 1])
            && (RunsFit(s[1..|s| - 1]) ==> TotalLen(r[1..|r| - 1]) + r[0].len + r[|r| - 1].len == TotalLen(o))
  {
    var s := Split(o, spare);
    SplitKeepsBytes(o, spare);
    FlattenLength(o);
    FlattenLength(s);
    MergedChainKeepsBytes(s);
    MergedChainEnds(s);
  }

  lemma Middle(first: Desc, mid: seq<Desc>, last: Desc)
    requires InRange(first) && AllInRange(mid) && InRange(last)
    ensures var s := [first] + mid + [last];
            && AllInRange(s)
            && TotalLen(s) == first.len + TotalLen(mid) + last.len
            && Flatten(s) == Flatten([first]) + Flatten(mid) + Flatten([last])
  {
    FlattenOne(first);
    FlattenOne(last);
    FlattenConcat([first], mid);
    FlattenConcat([first] + mid, [last]);
  }

  lemma MergedChainEnds(s: seq<Desc>)
    requires |s| >= 2 && AllInRange(s)
    ensures var r := MergedChain(s);
            && |r| >= 2 && r[0] == s[0] && r[|r| - 1] == s[|s| - 1]
            && r[1..|r| - 1] == (if |s| == 2 then [] else Merged(s[1..|s| - 1]))
            && Settled(r[1..|r| - 1])
  {
    if |s| > 2 {
      MergedSettled(s[1..|s| - 1]);
    }
  }

  /** Merging the data between header and footer keeps the bytes of the chain if and only if every run of the data has less
      than 2^32 bytes. */
  lemma MergedChainKeepsBytes(s: seq<Desc>)
    requires |s| >= 2 && AllInRange(s)
    ensures var r := MergedChain(s);
            && (Flatten(r) == Flatten(s) <==> RunsFit(s[1..|s| - 1])) && |r| >= 2
            && (RunsFit(s[1..|s| - 1]) ==> TotalLen(r[1..|r| - 1]) + r[0].len + r[|r| - 1].len == TotalLen(s))
  {
    var k := |s| - 1;
    var data := s[1..k];
    assert s == [s[0]] + data + [s[k]];
    Middle(s[0], data, s[k]);
    if |s| > 2 {
      MergedChainEnds(s);
      MergedFlatten(data);
      Middle(s[0], Merged(data), s[k]);
      SameMiddle(Flatten([s[0]]), Flatten(data), Flatten(Merged(data)), Flatten([s[k]]));
    } else {
      assert data == [];
    }
  }

  lemma SameMiddle<T>(a: seq<T>, b: seq<T>, c: seq<T>, d: seq<T>)
    ensures a + b + d == a + c + d <==> b == c
  {
    if a + b + d == a + c + d {
      assert |b| == |c|;
      assert (a + b + d)[|a|..|a| + |b|] == b && (a + c + d)[|a|..|a| + |b|] == c;
    }
  }
}
