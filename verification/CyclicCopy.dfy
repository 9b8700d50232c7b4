/** The cyclic copy of dpa/dpa_dma_utils.h: up to a ring full of elements moves from one ring to another by at most
    three contiguous transfers, although source and destination may wrap around at different places. */
module CyclicCopy {
  import opened Arith

  /** `x % depth` for the sums of two ring positions that occur here. */
  function Ring(x: nat, depth: nat): (r: nat)
    requires x < 2 * depth
    ensures r < depth
  {
    if x < depth then x else x - depth
  }

  lemma RingIsRemainder(x: nat, depth: nat)
    requires x < 2 * depth
    ensures Ring(x, depth) == x % depth
  {
    WrapIsMod(x, depth);
  }

  /** A contiguous transfer of `len` elements. */
  datatype Transfer = Transfer(src: nat, dst: nat, len: nat)

  /** The transfer stays inside rings of `depth` elements. */
  predicate Inside(t: Transfer, depth: nat) {
    t.src + t.len <= depth && t.dst + t.len <= depth
  }

  /** The destination after one transfer. */
  ghost function After<T>(d: seq<T>, s: seq<T>, t: Transfer): (r: seq<T>)
    requires |d| == |s| && Inside(t, |d|)
    ensures |r| == |d|
  {
    d[..t.dst] + s[t.src..t.src + t.len] + d[t.dst + t.len..]
  }

  /** How far ring position `j` lies after position `from`. */
  function Distance(from: nat, j: nat, depth: nat): (k: nat)
    requires from < depth && j < depth
    ensures k < depth
  {
    if from <= j then j - from else j + depth - from
  }

  /** What the copy is for: element `from + k` of the source goes to position `to + k`, both modulo the depth, for the
      first `n` values of `k`; nothing else changes. */
  ghost predicate IsCyclicCopy<T>(d: seq<T>, s: seq<T>, from: nat, to: nat, n: nat, r: seq<T>)
    requires |d| == |s| && from < |d| && to < |d|
  {
    && |r| == |d|
    && forall j :: 0 <= j < |d| ==>
         var k := Distance(to, j, |d|);
         r[j] == if k < n then s[Ring(from + k, |d|)] else d[j]
  }

  /** The ring position `k` places after `base`. */
  function Place(base: nat, k: nat, depth: nat): (p: nat)
    requires base + k < 2 * depth
    ensures p < depth
  {
    Ring(base + k, depth)
  }

  /** The same, said by counting elements: the `k`-th element arrives, and the other positions keep theirs. */
  lemma CopiesEach<T>(d: seq<T>, s: seq<T>, from: nat, to: nat, n: nat, r: seq<T>)
    requires |d| == |s| && from < |d| && to < |d| && n <= |d| && IsCyclicCopy(d, s, from, to, n, r)
    ensures forall k: nat :: k < n ==> r[Place(to, k, |d|)] == s[Place(from, k, |d|)]
    ensures forall j: nat :: j < |d| && (forall k: nat :: k < n ==> j != Place(to, k, |d|)) ==> r[j] == d[j]
  {
    forall k: nat | k < n ensures r[Place(to, k, |d|)] == s[Place(from, k, |d|)] {
      assert Distance(to, Place(to, k, |d|), |d|) == k;
    }
    forall j: nat | j < |d| && (forall k: nat :: k < n ==> j != Place(to, k, |d|)) ensures r[j] == d[j] {
      assert Place(to, Distance(to, j, |d|), |d|) == j;
    }
  }

  /** A further transfer that continues a cyclic copy. What it moves beyond a ring full is what is there already. */
  lemma Continues<T>(d: seq<T>, s: seq<T>, from: nat, to: nat, n: nat, r: seq<T>, t: Transfer)
    requires |d| == |s| && from < |d| && to < |d| && IsCyclicCopy(d, s, from, to, n, r) && n <= |d|
    requires t.src == Ring(from + n, |d|) && t.dst == Ring(to + n, |d|) && Inside(t, |d|)
    ensures IsCyclicCopy(d, s, from, to, n + t.len, After(r, s, t))
  {
    var depth := |d|;
    var r' := After(r, s, t);
    forall j | 0 <= j < depth
      ensures var k := Distance(to, j, depth); r'[j] == if k < n + t.len then s[Ring(from + k, depth)] else d[j]
    {
      Passes(from, to, n, t, j, depth);
      if t.dst <= j < t.dst + t.len {
        assert r'[j] == s[t.src + (j - t.dst)];
      } else {
        assert r'[j] == r[j];
      }
    }
  }

  /** Where ring position `j` lies with respect to a transfer that comes after `n` elements. */
  lemma Passes(from: nat, to: nat, n: nat, t: Transfer, j: nat, depth: nat)
    requires from < depth && to < depth && n <= depth && j < depth
    requires t.src == Ring(from + n, depth) && t.dst == Ring(to + n, depth) && Inside(t, depth)
    ensures var k := Distance(to, j, depth);
            if t.dst <= j < t.dst + t.len then k < n + t.len && Ring(from + k, depth) == t.src + (j - t.dst)
            else k < n + t.len ==> k < n
  {
  }

  /** One transfer on arrays. */
  method Write<T>(src: array<T>, dst: array<T>, t: Transfer)
    requires src != dst && src.Length == dst.Length && Inside(t, src.Length)
    modifies dst
    ensures dst[..] == After(old(dst[..]), src[..], t)
  {
    forall i | 0 <= i < t.len {
      dst[t.dst + i] := src[t.src + i];
    }
    assert dst[t.dst..t.dst + t.len] == src[t.src..t.src + t.len];
    assert dst[..] == dst[..t.dst] + dst[t.dst..t.dst + t.len] + dst[t.dst + t.len..];
  }

  /** The number of elements up to the first, and up to the second, end of a ring. */
  function FirstWrap(srcIdx: nat, dstIdx: nat, depth: nat): nat
    requires srcIdx < depth && dstIdx < depth
  {
    if srcIdx > dstIdx then depth - srcIdx else depth - dstIdx
  }

  function LastWrap(srcIdx: nat, dstIdx: nat, depth: nat): nat
    requires srcIdx < depth && dstIdx < depth
  {
    if srcIdx > dstIdx then depth - dstIdx else depth - srcIdx
  }

  /** The number of contiguous pieces in which both rings are passed. */
  function Pieces(srcIdx: nat, dstIdx: nat, num: nat, depth: nat): nat
    requires srcIdx < depth && dstIdx < depth
  {
    1 + (if num > FirstWrap(srcIdx, dstIdx, depth) then 1 else 0)
      + (if srcIdx != dstIdx && num > LastWrap(srcIdx, dstIdx, depth) then 1 else 0)
  }

  /** Whether the copy posts one transfer more than it has pieces: the second test looks at the distance between the
      two ends even when not even the first end is reached. */
  predicate Extra(srcIdx: nat, dstIdx: nat, num: nat, depth: nat)
    requires srcIdx < depth && dstIdx < depth
  {
    var first, last := FirstWrap(srcIdx, dstIdx, depth), LastWrap(srcIdx, dstIdx, depth);
    num <= first && 0 < last - first < num
  }

  /** The elements that transfers `ts` move in all. */
  function Moved(ts: seq<Transfer>): nat {
    if ts == [] then 0 else Moved(ts[..|ts| - 1]) + ts[|ts| - 1].len
  }

  /** Every transfer stays inside the rings and continues where the one before it stopped. */
  ghost predicate Chained(ts: seq<Transfer>, from: nat, to: nat, depth: nat)
    requires from < depth && to < depth
  {
    ts != [] ==>
      var front, t := ts[..|ts| - 1], ts[|ts| - 1];
      && Chained(front, from, to, depth)
      && Inside(t, depth) && Moved(front) <= depth
      && t.src == Ring(from + Moved(front), depth) && t.dst == Ring(to + Moved(front), depth)
  }

  lemma Chain(ts: seq<Transfer>, t: Transfer, from: nat, to: nat, depth: nat)
    requires from < depth && to < depth && Chained(ts, from, to, depth) && Inside(t, depth) && Moved(ts) <= depth
    requires t.src == Ring(from + Moved(ts), depth) && t.dst == Ring(to + Moved(ts), depth)
    ensures Chained(ts + [t], from, to, depth) && Moved(ts + [t]) == Moved(ts) + t.len
  {
    assert (ts + [t])[..|ts|] == ts;
  }

  /** Where the copy stands after the first test, in numbers: the transfers that follow stay inside both rings. */
  lemma NextFits(src: nat, dst: nat, num: nat, depth: nat, n: nat)
    requires src < depth && dst < depth && num <= depth + FirstWrap(src, dst, depth)
    requires n == if num > FirstWrap(src, dst, depth) then FirstWrap(src, dst, depth) else 0
    ensures var gap, left := LastWrap(src, dst, depth) - FirstWrap(src, dst, depth), num - n;
            var from, to := Ring(src + n, depth), Ring(dst + n, depth);
            if left > gap > 0 then
              && Inside(Transfer(from, to, gap), depth) && n + gap <= depth
              && Ring(from + gap, depth) == Ring(src + n + gap, depth)
              && Ring(to + gap, depth) == Ring(dst + n + gap, depth)
              && Inside(Transfer(Ring(src + n + gap, depth), Ring(dst + n + gap, depth), left - gap), depth)
            else Inside(Transfer(from, to, left), depth)
  {
  }

  /** Where the last transfer starts: after the elements moved up to then. */
  function BeforeLast(src: nat, dst: nat, num: nat, depth: nat): nat
    requires src < depth && dst < depth
  {
    var first, gap := FirstWrap(src, dst, depth), LastWrap(src, dst, depth) - FirstWrap(src, dst, depth);
    var n := if num > first then first else 0;
    if num - n > gap > 0 then n + gap else n
  }

  /** The last transfer stays inside both rings if and only if the count is at most a ring full and the elements up to the
      first end of a ring; the transfers before it always do. */
  lemma LastTransferInside(src: nat, dst: nat, num: nat, depth: nat)
    requires src < depth && dst < depth
    ensures var n := BeforeLast(src, dst, num, depth);
            && n <= num && n <= depth
            && (Inside(Transfer(Ring(src + n, depth), Ring(dst + n, depth), num - n), depth)
                <==> num <= depth + FirstWrap(src, dst, depth))
  {
  }

  /** The second test and the last transfer, after `num - left` elements. */
  method PlanRest(sofar: seq<Transfer>, from: nat, to: nat, left: nat, secondWa: nat,
                  ghost src: nat, ghost dst: nat, ghost num: nat, depth: nat)
    returns (posted: seq<Transfer>)
    requires src < depth && dst < depth && left <= num <= depth + FirstWrap(src, dst, depth)
    requires secondWa == LastWrap(src, dst, depth) - FirstWrap(src, dst, depth)
    requires num - left == if num > FirstWrap(src, dst, depth) then FirstWrap(src, dst, depth) else 0
    requires from == Ring(src + num - left, depth) && to == Ring(dst + num - left, depth)
    requires Chained(sofar, src, dst, depth) && Moved(sofar) == num - left
    ensures Chained(posted, src, dst, depth) && Moved(posted) == num
    ensures |posted| == |sofar| + (if left > secondWa > 0 then 2 else 1)
  {
    NextFits(src, dst, num, depth, num - left);
    if secondWa > 0 && left > secondWa {
      posted := Post(sofar, Transfer(from, to, secondWa), src, dst, depth, num - left);
      posted := Post(posted, Transfer(Ring(from + secondWa, depth), Ring(to + secondWa, depth), left - secondWa),
                     src, dst, depth, num - left + secondWa);
    } else {
      posted := Post(sofar, Transfer(from, to, left), src, dst, depth, num - left);
    }
  }

  /** The index arithmetic of the copy: the transfers in the order in which they are initiated. */
  method Plan(srcIdx: nat, dstIdx: nat, num: nat, depth: nat) returns (posted: seq<Transfer>)
    requires srcIdx < depth && dstIdx < depth && num <= depth + FirstWrap(srcIdx, dstIdx, depth)
    ensures Chained(posted, srcIdx, dstIdx, depth) && Moved(posted) == num
    ensures |posted| == Pieces(srcIdx, dstIdx, num, depth) + (if Extra(srcIdx, dstIdx, num, depth) then 1 else 0)
  {
    var srcWa, dstWa := depth - srcIdx, depth - dstIdx;
    var firstWa := if srcWa < dstWa then srcWa else dstWa;
    var secondWa := srcWa + dstWa - 2 * firstWa;
    if num > firstWa {
      posted := Post([], Transfer(srcIdx, dstIdx, firstWa), srcIdx, dstIdx, depth, 0);
      posted := PlanRest(posted, Ring(srcIdx + firstWa, depth), Ring(dstIdx + firstWa, depth), num - firstWa, secondWa,
                         srcIdx, dstIdx, num, depth);
    } else {
      posted := PlanRest([], srcIdx, dstIdx, num, secondWa, srcIdx, dstIdx, num, depth);
    }
  }

  function Post(ts: seq<Transfer>, t: Transfer, ghost from: nat, ghost to: nat, ghost depth: nat, ghost n: nat): (r: seq<Transfer>)
    requires from < depth && to < depth && n <= depth && Chained(ts, from, to, depth) && Moved(ts) == n
    requires Inside(t, depth) && t.src == Ring(from + n, depth) && t.dst == Ring(to + n, depth)
    ensures Chained(r, from, to, depth) && Moved(r) == n + t.len && |r| == |ts| + 1
  {
    Chain(ts, t, from, to, depth);
    ts + [t]
  }

  lemma {:induction false} ChainedFront(ts: seq<Transfer>, i: nat, from: nat, to: nat, depth: nat)
    requires from < depth && to < depth && Chained(ts, from, to, depth) && i < |ts|
    ensures Chained(ts[..i], from, to, depth) && Inside(ts[i], depth) && Moved(ts[..i]) + ts[i].len <= Moved(ts)
    ensures Moved(ts[..i]) <= depth
    ensures ts[i].src == Ring(from + Moved(ts[..i]), depth) && ts[i].dst == Ring(to + Moved(ts[..i]), depth)
  {
    var k := |ts| - 1;
    if i < k {
      ChainedFront(ts[..k], i, from, to, depth);
      assert ts[..k][..i] == ts[..i];
    }
  }

  lemma MovedNext(ts: seq<Transfer>, i: nat)
    requires i < |ts|
    ensures Moved(ts[..i + 1]) == Moved(ts[..i]) + ts[i].len
  {
    assert ts[..i + 1][..i] == ts[..i];
  }

  /** The next transfer of a copy. */
  method WriteNext<T>(src: array<T>, dst: array<T>, t: Transfer, ghost d: seq<T>, ghost from: nat, ghost to: nat, ghost n: nat)
    requires src != dst && src.Length == dst.Length == |d| && from < |d| && to < |d| && n <= |d|
    requires IsCyclicCopy(d, src[..], from, to, n, dst[..])
    requires t.src == Ring(from + n, |d|) && t.dst == Ring(to + n, |d|) && Inside(t, |d|)
    modifies dst
    ensures IsCyclicCopy(d, src[..], from, to, n + t.len, dst[..])
  {
    Continues(d, src[..], from, to, n, dst[..], t);
    Write(src, dst, t);
  }

  /** Initiates the transfers `ts` one after the other. */
  method Execute<T>(src: array<T>, dst: array<T>, ts: seq<Transfer>, ghost from: nat, ghost to: nat)
    requires src != dst && src.Length == dst.Length && from < src.Length && to < src.Length
    requires Chained(ts, from, to, src.Length)
    modifies dst
    ensures IsCyclicCopy(old(dst[..]), src[..], from, to, Moved(ts), dst[..])
  {
    ghost var d := dst[..];
    ghost var n: nat := 0;
    for i := 0 to |ts|
      invariant n == Moved(ts[..i]) && IsCyclicCopy(d, src[..], from, to, n, dst[..])
    {
      ChainedFront(ts, i, from, to, src.Length);
      MovedNext(ts, i);
      WriteNext(src, dst, ts[i], d, from, to, n);
      n := n + ts[i].len;
    }
    assert ts[..|ts|] == ts;
  }

  /** The copy. Counts for which the last transfer would leave the rings are shut out: see `LastTransferInside`. `posted`
      lists the transfers that were initiated; their number is the result in the source. */
  method CyclicWrite<T>(src: array<T>, dst: array<T>, srcIdx: nat, dstIdx: nat, num: nat) returns (posted: seq<Transfer>)
    requires src != dst && src.Length == dst.Length
    requires srcIdx < src.Length && dstIdx < src.Length && num <= src.Length + FirstWrap(srcIdx, dstIdx, src.Length)
    modifies dst
    ensures IsCyclicCopy(old(dst[..]), src[..], srcIdx, dstIdx, num, dst[..])
    ensures Chained(posted, srcIdx, dstIdx, src.Length)
    ensures |posted| == Pieces(srcIdx, dstIdx, num, src.Length) + (if Extra(srcIdx, dstIdx, num, src.Length) then 1 else 0)
    ensures |posted| <= 3
  {
    posted := Plan(srcIdx, dstIdx, num, src.Length);
    Execute(src, dst, posted, srcIdx, dstIdx);
  }
}
