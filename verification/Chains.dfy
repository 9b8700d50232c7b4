/** Collecting the descriptors of a request (ctrl/virtq_common.c). The device gets the first few with
    the request, or the whole descriptor table, and reads the others from the host one by one by
    following `next`; a trailing indirect descriptor is replaced by the chain of its own table. */
module Chains {
  import opened Arith
  import opened Descriptors

  /** Indices into the ring and the length of an indirect table have 16 bits. */
  const U16: nat := 0x1_0000

  /** `ids` lists the entries of `table` reached from `ids[0]` by following `next` to the end. */
  ghost predicate IsChain(table: seq<Desc>, ids: seq<nat>) {
    && ids != []
    && (forall i :: 0 <= i < |ids| ==> ids[i] < |table|)
    && (forall i :: 0 <= i < |ids| - 1 ==> table[ids[i]].hasNext && table[ids[i]].next == ids[i + 1])
    && !table[ids[|ids| - 1]].hasNext
  }

  ghost function ChainDescs(table: seq<Desc>, ids: seq<nat>): (r: seq<Desc>)
    requires forall i :: 0 <= i < |ids| ==> ids[i] < |table|
    ensures |r| == |ids|
  {
    seq(|ids|, i requires 0 <= i < |ids| => table[ids[i]])
  }

  /** A chain is determined by its head. */
  lemma {:induction false} ChainUnique(table: seq<Desc>, a: seq<nat>, b: seq<nat>)
    requires IsChain(table, a) && IsChain(table, b) && a[0] == b[0]
    ensures a == b
  {
    if |a| > 1 && |b| > 1 {
      ChainUnique(table, a[1..], b[1..]);
      assert a == [a[0]] + a[1..] && b == [b[0]] + b[1..];
    }
  }

  lemma {:induction false} SameAhead(table: seq<Desc>, ids: seq<nat>, a: nat, b: nat, t: nat)
    requires IsChain(table, ids) && a < b && b + t < |ids| && ids[a] == ids[b]
    ensures ids[a + t] == ids[b + t]
  {
    if t > 0 {
      SameAhead(table, ids, a, b, t - 1);
      assert table[ids[a + t - 1]].next == ids[a + t - 1 + 1];
      assert table[ids[b + t - 1]].next == ids[b + t - 1 + 1];
    }
  }

  /** A chain that ends visits no entry twice. */
  lemma ChainDistinct(table: seq<Desc>, ids: seq<nat>, a: nat, b: nat)
    requires IsChain(table, ids) && a < b < |ids|
    ensures ids[a] != ids[b]
  {
    var t := |ids| - 1 - b;
    if ids[a] == ids[b] {
      SameAhead(table, ids, a, b, t);
    }
  }

  /** A chain is no longer than its table. */
  lemma ChainFits(table: seq<Desc>, ids: seq<nat>)
    requires IsChain(table, ids)
    ensures |ids| <= |table|
  {
    var f := (i: nat) => if i < |ids| then ids[i] else 0;
    forall a, b | a in Below(|ids|) && b in Below(|ids|) && a != b ensures f(a) != f(b) {
      if a < b {
        ChainDistinct(table, ids, a, b);
      } else {
        ChainDistinct(table, ids, b, a);
      }
    }
    MapSize(Below(|ids|), f);
    assert MapSet(Below(|ids|), f) <= Below(|table|);
    SubsetSize(MapSet(Below(|ids|), f), Below(|table|));
  }

  /** Copies a chain of a whole descriptor table, following `next` from `head`. */
  method ArrangeDescs(table: seq<Desc>, arranged: array<Desc>, head: nat, ghost ids: seq<nat>) returns (n: nat)
    requires IsChain(table, ids) && ids[0] == head && |ids| <= arranged.Length
    modifies arranged
    ensures n == |ids| && arranged[..n] == ChainDescs(table, ids)
  {
    var curr := table[head];
    arranged[0] := curr;
    n := 1;
    while curr.hasNext
      invariant 1 <= n <= |ids| && curr == table[ids[n - 1]]
      invariant arranged[..n] == ChainDescs(table, ids)[..n]
      decreases |ids| - n
    {
      assert table[ids[n - 1]].next == ids[n - 1 + 1];
      curr := table[curr.next];
      arranged[n] := curr;
      n := n + 1;
    }
  }

  datatype FetchStatus = Done | Reading

  /** A number with its lowest `b` bytes zero. */
  function CutLow(x: nat, b: nat): nat {
    if b == 0 then x else 256 * CutLow(x / 256, b - 1)
  }

  /** A descriptor with its first `b` bytes zero: eight bytes of address, four of length, two of flags, of which the first
      has the bits in use, and two of the next entry's number. */
  function ZeroFirst(d: Desc, b: nat): Desc
    requires b < 16
  {
    if b == 0 then d
    else Desc(if b >= 8 then 0 else CutLow(d.addr, b),
              if b <= 8 then d.len else if b >= 12 then 0 else CutLow(d.len, b - 8),
              d.write && b <= 12, d.hasNext && b <= 12, d.indirect && b <= 12,
              if b <= 14 then d.next else CutLow(d.next, b - 14))
  }

  /** The byte at place `k` of a number, the lowest first. */
  function Digit(x: nat, k: nat): nat {
    if k == 0 then x % 256 else Digit(x / 256, k - 1)
  }

  /** The byte at place `k` of a descriptor in memory (section 2.6.5 of VIRTIO v1.1). */
  function ByteOf(d: Desc, k: nat): nat
    requires k < 16
  {
    if k < 8 then Digit(d.addr, k)
    else if k < 12 then Digit(d.len, k - 8)
    else if k == 12 then (if d.hasNext then 1 else 0) + (if d.write then 2 else 0) + (if d.indirect then 4 else 0)
    else if k == 13 then 0
    else Digit(d.next, k - 14)
  }

  lemma {:induction false} DigitOfCut(x: nat, b: nat, k: nat)
    ensures Digit(CutLow(x, b), k) == if k < b then 0 else Digit(x, k)
  {
    if b > 0 && k > 0 {
      DigitOfCut(x / 256, b - 1, k - 1);
    }
  }

  lemma {:induction false} DigitOfZero(k: nat)
    ensures Digit(0, k) == 0
  {
    if k > 0 {
      DigitOfZero(k - 1);
    }
  }

  /** In memory the first bytes of the descriptor are zero, and the others are as they were. */
  lemma {:induction false} ZeroFirstInMemory(d: Desc, b: nat, k: nat)
    requires b < 16 && k < 16
    ensures ByteOf(ZeroFirst(d, b), k) == if k < b then 0 else ByteOf(d, k)
  {
    if k < 8 {
      DigitOfCut(d.addr, b, k);
      DigitOfZero(k);
    } else if k < 12 {
      if b > 8 {
        DigitOfCut(d.len, b - 8, k - 8);
      }
      DigitOfZero(k - 8);
    } else if k >= 14 && b > 14 {
      DigitOfCut(d.next, b - 14, k - 14);
    }
  }

  /** What the sort of a table gives that is told to have `num` entries and `rest` bytes: the chain of the table, or,
      if that is longer, its first `num` entries and then the table's entry at place `num`, which has lost its first
      `rest` bytes. */
  ghost function SortedTable(table: seq<Desc>, ids: seq<nat>, num: nat, rest: nat): seq<Desc>
    requires IsChain(table, ids) && rest < 16
  {
    ChainFits(table, ids);
    if |ids| <= num then ChainDescs(table, ids) else ChainDescs(table, ids)[..num] + [ZeroFirst(table[num], rest)]
  }

  /** Copies the sorted entries back to the place of the table, and zeros up to its length, which may end inside an
      entry. */
  method PutBack(descs: array<Desc>, pos: nat, num: nat, rest: nat, tmp: seq<Desc>)
    requires |tmp| <= num && pos + num < descs.Length && rest < 16
    modifies descs
    ensures descs[..pos] == old(descs[..pos]) && descs[pos..pos + |tmp|] == tmp
    ensures descs[pos + num] == ZeroFirst(old(descs[pos + num]), rest)
    ensures forall k :: pos + num < k < descs.Length ==> descs[k] == old(descs[k])
  {
    forall k | 0 <= k < num {
      descs[pos + k] := if k < |tmp| then tmp[k] else Desc(0, 0, false, false, false, 0);
    }
    descs[pos + num] := ZeroFirst(descs[pos + num], rest);
  }

  /** The sort of an indirect table: the entries reached from entry 0, in order, at the front. Returns
      their number. `num` is the number of entries by the 16-bit length and `rest` the bytes after them; the table itself
      may be longer, and then the loop may leave without having met the end of the chain. */
  method SortIndirect(descs: array<Desc>, pos: nat, num: nat, rest: nat, ghost table: seq<Desc>, ghost ids: seq<nat>)
    returns (count: nat)
    requires num <= |table| && pos + |table| < descs.Length && descs[pos..pos + |table|] == table && rest < 16
    requires IsChain(table, ids) && ids[0] == 0
    modifies descs
    ensures pos + count <= descs.Length
    ensures descs[..pos + count] == old(descs[..pos]) + SortedTable(table, ids, num, rest)
  {
    ghost var chain := ChainDescs(table, ids);
    ChainFits(table, ids);
    var tmp: seq<Desc> := [];
    var i, j := 0, 0;
    while i < num
      invariant 0 <= i < |ids| && i <= num && j == ids[i] && descs[pos..pos + |table|] == table
      invariant tmp == chain[..i]
    {
      assert descs[pos + j] == table[j];
      tmp := tmp + [descs[pos + j]];
      if descs[pos + j].hasNext {
        assert table[ids[i]].next == ids[i + 1];
        j := descs[pos + j].next;
      } else {
        assert i == |ids| - 1;
        break;
      }
      i := i + 1;
    }
    count := i + 1;
    ghost var front := descs[..pos];
    assert num < |table| ==> descs[pos + num] == table[num];
    PutBack(descs, pos, num, rest, tmp);
    if |ids| <= num {
      assert tmp == chain && count == |tmp|;
      assert descs[..pos + count] == front + descs[pos..pos + |tmp|];
    } else {
      assert tmp == chain[..num] && count == num + 1;
      assert descs[..pos + count] == front + (descs[pos..pos + num] + [descs[pos + num]]);
    }
  }

  /** The descriptors of a request: the chain of the ring, its last entry replaced by the chain of its
      indirect table if it is an indirect one. */
  ghost function Collected(ring: seq<Desc>, mem: nat -> seq<Desc>, ids: seq<nat>, inner: seq<nat>): seq<Desc>
    requires Offered(ring, mem, ids, inner)
  {
    var k := |ids| - 1;
    var last := ring[ids[k]];
    if last.indirect then ChainDescs(ring, ids)[..k] + ChainDescs(mem(last.addr), inner)
    else ChainDescs(ring, ids)
  }

  /** What the host provides: a chain, and a chain from entry 0 of the table of a trailing indirect descriptor. */
  ghost predicate Offered(ring: seq<Desc>, mem: nat -> seq<Desc>, ids: seq<nat>, inner: seq<nat>) {
    && IsChain(ring, ids) && |ring| < U16
    && var last := ring[ids[|ids| - 1]];
       last.indirect ==>
         IsChain(mem(last.addr), inner) && inner[0] == 0 && |mem(last.addr)| == last.len / 16
  }

  /** The number of entries by a length cut to 16 bits, and the bytes after them. */
  function CutCount(len: nat): (num: nat)
    ensures num <= len / 16
    ensures len < U16 ==> num == len / 16
  {
    len % U16 / 16
  }

  function CutRest(len: nat): (rest: nat)
    ensures rest < 16
  {
    len % U16 % 16
  }

  /** What the code collects. Its length field has 16 bits. */
  ghost function Fetched(ring: seq<Desc>, mem: nat -> seq<Desc>, ids: seq<nat>, inner: seq<nat>): seq<Desc>
    requires Offered(ring, mem, ids, inner)
  {
    var k := |ids| - 1;
    var last := ring[ids[k]];
    if last.indirect then
      ChainDescs(ring, ids)[..k] + SortedTable(mem(last.addr), inner, CutCount(last.len), CutRest(last.len))
    else ChainDescs(ring, ids)
  }

  /** The chain is not longer than the table is told to be, or has one entry more and that one is what the entry of the
      table at its place becomes. */
  ghost predicate Whole(table: seq<Desc>, ids: seq<nat>, num: nat, rest: nat)
    requires IsChain(table, ids) && rest < 16
  {
    |ids| <= num || (|ids| == num + 1 && num < |table| && table[ids[num]] == ZeroFirst(table[num], rest))
  }

  /** Exactly then the sort gives the chain of the table. */
  lemma SortedExactlyIfWhole(table: seq<Desc>, ids: seq<nat>, num: nat, rest: nat)
    requires IsChain(table, ids) && rest < 16
    ensures SortedTable(table, ids, num, rest) == ChainDescs(table, ids) <==> Whole(table, ids, num, rest)
  {
    ChainFits(table, ids);
    var chain := ChainDescs(table, ids);
    if |ids| > num {
      var last := ZeroFirst(table[num], rest);
      if |ids| == num + 1 {
        assert chain == chain[..num] + [chain[num]];
        assert (chain[..num] + [last])[num] == last;
      } else {
        assert |chain[..num] + [last]| == num + 1;
      }
    }
  }

  /** The code collects the descriptors of the request if and only if no indirect table is involved, or the chain
      of that table has at most as many entries as its length cut to 16 bits makes room for, or just one more that
      happens to be what stands right behind them when its first bytes have been zeroed up to that length. */
  lemma FetchedExactlyIfWhole(ring: seq<Desc>, mem: nat -> seq<Desc>, ids: seq<nat>, inner: seq<nat>)
    requires Offered(ring, mem, ids, inner)
    ensures var last := ring[ids[|ids| - 1]];
            Fetched(ring, mem, ids, inner) == Collected(ring, mem, ids, inner)
            <==> !last.indirect || Whole(mem(last.addr), inner, CutCount(last.len), CutRest(last.len))
  {
    var k := |ids| - 1;
    var last := ring[ids[k]];
    if last.indirect {
      var num, rest := CutCount(last.len), CutRest(last.len);
      var front, table := ChainDescs(ring, ids)[..k], mem(last.addr);
      var sorted, chain := SortedTable(table, inner, num, rest), ChainDescs(table, inner);
      SortedExactlyIfWhole(table, inner, num, rest);
      assert (front + sorted)[|front|..] == sorted && (front + chain)[|front|..] == chain;
    }
  }

  /** In particular every table of fewer than 4096 entries is collected. */
  lemma ShortTablesAreWhole(ring: seq<Desc>, mem: nat -> seq<Desc>, ids: seq<nat>, inner: seq<nat>)
    requires Offered(ring, mem, ids, inner)
    requires ring[ids[|ids| - 1]].len < U16
    ensures Fetched(ring, mem, ids, inner) == Collected(ring, mem, ids, inner)
  {
    var last := ring[ids[|ids| - 1]];
    if last.indirect {
      ChainFits(mem(last.addr), inner);
    }
    FetchedExactlyIfWhole(ring, mem, ids, inner);
  }

  /** A table of 4096 entries whose chain has two: its length is cut to 0, and only the first entry is collected. */
  lemma LongTableIsCut(table: seq<Desc>, inner: seq<nat>)
    requires |table| == 4096 && inner == [0, 1]
    requires table[0] == Desc(0, 512, false, true, false, 1) && table[1] == Desc(512, 512, false, false, false, 0)
    ensures IsChain(table, inner) && CutCount(16 * |table|) == 0
    ensures SortedTable(table, inner, 0, 0) == [table[0]] != ChainDescs(table, inner)
  {
    assert ChainDescs(table, inner)[..0] == [];
    assert |ChainDescs(table, inner)| == 2;
  }

  /** A table of 65560 bytes whose chain is its first two entries: its length is cut to 24, so two descriptors are counted,
      and the address of the second is zeroed. */
  lemma HalfEntryIsZeroed(table: seq<Desc>, inner: seq<nat>)
    requires |table| == 4097 && inner == [0, 1]
    requires table[0] == Desc(0, 512, false, true, false, 1) && table[1] == Desc(512, 512, false, false, false, 0)
    ensures IsChain(table, inner) && 65560 / 16 == |table| && CutCount(65560) == 1 && CutRest(65560) == 8
    ensures SortedTable(table, inner, 1, 8) == [table[0], table[1].(addr := 0)] != ChainDescs(table, inner)
  {
    var chain := ChainDescs(table, inner);
    assert chain[..1] == [table[0]] && chain[1] == table[1];
    assert SortedTable(table, inner, 1, 8)[1] == table[1].(addr := 0);
  }

  /** The fetch part of a command. `ring` is the host's descriptor table and `mem` the host's indirect
      tables by address. */
  class Fetcher {
    const headIdx: nat
    const ring: seq<Desc>
    const mem: nat -> seq<Desc>
    const descs: array<Desc>
    var numDesc: nat
    var isIndirect: bool
    var indirectPos: nat
    var indirectLen: nat

    /** What the host provides, from the head of the request on, and room for it. */
    ghost predicate Given(ids: seq<nat>, inner: seq<nat>) {
      && Offered(ring, mem, ids, inner) && ids[0] == Wrap(headIdx, |ring|)
      && |ids| <= descs.Length
      && var last := ring[ids[|ids| - 1]];
         last.indirect ==> |ids| + |mem(last.addr)| <= descs.Length
    }

    /** What has been collected so far is a beginning of the chain. */
    ghost predicate Partial(ids: seq<nat>, inner: seq<nat>)
      reads this, descs
    {
      && Given(ids, inner)
      && numDesc <= |ids| && descs[..numDesc] == ChainDescs(ring, ids)[..numDesc]
      && var last := ring[ids[|ids| - 1]];
         isIndirect ==>
           && last.indirect && indirectPos == numDesc == |ids| - 1
           && indirectLen / 16 == CutCount(last.len) && indirectLen % 16 == CutRest(last.len)
           && descs[numDesc..numDesc + |mem(last.addr)|] == mem(last.addr)
    }

    constructor (headIdx: nat, ring: seq<Desc>, mem: nat -> seq<Desc>, descs: array<Desc>, numDesc: nat,
                 ghost ids: seq<nat>, ghost inner: seq<nat>)
      requires Offered(ring, mem, ids, inner) && ids[0] == Wrap(headIdx, |ring|) && |ids| <= descs.Length
      requires var last := ring[ids[|ids| - 1]]; last.indirect ==> |ids| + |mem(last.addr)| <= descs.Length
      requires numDesc <= |ids| && descs[..numDesc] == ChainDescs(ring, ids)[..numDesc]
      ensures Partial(ids, inner) && this.descs == descs
      ensures this.ring == ring && this.mem == mem
      ensures !isIndirect && indirectPos == indirectLen == 0 && this.numDesc == numDesc
    {
      this.headIdx, this.ring, this.mem, this.descs := headIdx, ring, mem, descs;
      this.numDesc := numDesc;
      isIndirect := false;
      indirectPos, indirectLen := 0, 0;
    }

    /** The step after an indirect table has arrived. */
    method FinishIndirect(ghost ids: seq<nat>, ghost inner: seq<nat>)
      requires Partial(ids, inner) && isIndirect
      modifies this, descs
      ensures numDesc <= descs.Length && descs[..numDesc] == Fetched(ring, mem, ids, inner)
    {
      ghost var k := |ids| - 1;
      ghost var front, table := ChainDescs(ring, ids)[..k], mem(ring[ids[k]].addr);
      assert descs[..indirectPos] == front && descs[indirectPos..indirectPos + |table|] == table;
      var count := SortIndirect(descs, indirectPos, indirectLen / 16, indirectLen % 16, table, inner);
      numDesc := numDesc + count;
    }

    /** Reads one more entry of the ring behind those collected. */
    method ReadEntry(at: nat, ghost ids: seq<nat>, ghost inner: seq<nat>)
      requires Partial(ids, inner) && !isIndirect && numDesc < |ids| && at == ids[numDesc]
      modifies this`numDesc, descs
      ensures Partial(ids, inner) && numDesc == old(numDesc) + 1
    {
      ghost var chain := ChainDescs(ring, ids);
      descs[numDesc] := ring[at];
      numDesc := numDesc + 1;
      assert descs[..numDesc] == chain[..numDesc];
    }

    /** Reads the table of the last descriptor in its place. */
    method ReadIndirect(last: Desc, ghost ids: seq<nat>, ghost inner: seq<nat>)
      requires Partial(ids, inner) && !isIndirect && numDesc == |ids|
      requires last == ring[ids[|ids| - 1]] && last.indirect
      modifies this, descs
      ensures Partial(ids, inner) && isIndirect
    {
      ghost var chain := ChainDescs(ring, ids);
      numDesc := numDesc - 1;
      isIndirect := true;
      indirectPos := numDesc % U16;
      indirectLen := last.len % U16;
      assert descs[..numDesc] == chain[..numDesc];
      ChainFits(ring, ids);
      ReadTable(numDesc, mem(last.addr));
    }

    /** One call of the fetch step. A read posted here has arrived in `descs` when the step is called
        again, so it is written at once. */
    method FetchNext(ghost ids: seq<nat>, ghost inner: seq<nat>) returns (st: FetchStatus)
      requires Partial(ids, inner)
      modifies this, descs
      ensures st == Done ==> numDesc <= descs.Length && descs[..numDesc] == Fetched(ring, mem, ids, inner)
      ensures st == Reading ==> Partial(ids, inner)
      ensures st == Reading ==> !old(isIndirect) && (isIndirect || numDesc == old(numDesc) + 1)
    {
      if isIndirect {
        FinishIndirect(ids, inner);
        return Done;
      }
      if numDesc == 0 {
        ReadEntry(Wrap(headIdx, |ring|), ids, inner);
        return Reading;
      }
      var last := descs[numDesc - 1];
      assert last == descs[..numDesc][numDesc - 1] == ring[ids[numDesc - 1]];
      if last.hasNext {
        assert last.next == ids[numDesc - 1 + 1];
        ReadEntry(last.next, ids, inner);
        return Reading;
      }
      assert numDesc == |ids|;
      if last.indirect {
        ReadIndirect(last, ids, inner);
        return Reading;
      }
      assert ChainDescs(ring, ids)[..numDesc] == ChainDescs(ring, ids);
      return Done;
    }

    method ReadTable(pos: nat, table: seq<Desc>)
      requires pos + |table| <= descs.Length
      modifies descs
      ensures descs[..pos] == old(descs[..pos]) && descs[pos..pos + |table|] == table
    {
      forall k | 0 <= k < |table| {
        descs[pos + k] := table[k];
      }
    }

    /** All fetch steps of a request, each called when the read of the one before has arrived. Whatever
        part of the chain came with the request, the result is the same. */
    method FetchAll(ghost ids: seq<nat>, ghost inner: seq<nat>)
      requires Partial(ids, inner)
      modifies this, descs
      ensures numDesc <= descs.Length && descs[..numDesc] == Fetched(ring, mem, ids, inner)
    {
      var st := FetchNext(ids, inner);
      while st == Reading
        invariant st == Reading ==> Partial(ids, inner)
        invariant st == Done ==> numDesc <= descs.Length && descs[..numDesc] == Fetched(ring, mem, ids, inner)
        decreases st == Reading, !isIndirect, |ids| - numDesc
      {
        st := FetchNext(ids, inner);
      }
    }
  }

  /** The two ways in which a request arrives lead to the same descriptors: with some of its descriptors
      inline, the others being fetched, or with the whole table, from which the chain is copied. */
  method BothWays(headIdx: nat, ring: seq<Desc>, mem: nat -> seq<Desc>, inlineDescs: seq<Desc>, size: nat,
                  ghost ids: seq<nat>, ghost inner: seq<nat>)
    returns (fetched: seq<Desc>, arranged: seq<Desc>)
    requires Offered(ring, mem, ids, inner) && ids[0] == headIdx < |ring| && |ids| <= size
    requires var last := ring[ids[|ids| - 1]]; last.indirect ==> |ids| + |mem(last.addr)| <= size
    requires inlineDescs <= ChainDescs(ring, ids)
    ensures fetched == arranged == Fetched(ring, mem, ids, inner)
  {
    var a := new Desc[size](i => if 0 <= i < |inlineDescs| then inlineDescs[i] else Desc(0, 0, false, false, false, 0));
    var b := new Desc[size](i => Desc(0, 0, false, false, false, 0));
    assert a[..|inlineDescs|] == inlineDescs;
    var f := new Fetcher(headIdx, ring, mem, a, |inlineDescs|, ids, inner);
    f.FetchAll(ids, inner);
    fetched := a[..f.numDesc];
    var n := ArrangeDescs(ring, b, headIdx, ids);
    assert ChainDescs(ring, ids)[..n] == ChainDescs(ring, ids);
    var g := new Fetcher(headIdx, ring, mem, b, n, ids, inner);
    g.FetchAll(ids, inner);
    arranged := b[..g.numDesc];
  }
}
