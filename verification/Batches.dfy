/** Submission entries on the DPA (dpa/dpa_nvme_mp.c): how a batch is split into sub-batches of one namespace each, and
    what a ring holds after sub-batches have been copied to it. */
module Batches {
  import opened Arith
  import opened CyclicCopy

  datatype Sqe = Sqe(nsid: nat, cid: nat)

  /** The `n` entries of a ring from position `from` on. */
  function Window(buf: seq<Sqe>, from: nat, n: nat): (r: seq<Sqe>)
    requires from < |buf| && n <= |buf|
    ensures |r| == n && forall k :: 0 <= k < n ==> r[k] == buf[Ring(from + k, |buf|)]
  {
    if from + n <= |buf| then buf[from..from + n] else buf[from..] + buf[..from + n - |buf|]
  }

  lemma WindowSlice(buf: seq<Sqe>, from: nat, n: nat, j: nat, k: nat)
    requires from < |buf| && j <= k <= n < |buf|
    ensures Window(buf, Ring(from + j, |buf|), k - j) == Window(buf, from, n)[j..k]
  {
  }

  // ---------------------------------------------------------------- the count

  const U32: nat := 0x1_0000_0000

  /** How many entries the sender copies: the 32-bit difference of the two indices modulo the depth. */
  function Count(start: nat, end: nat, depth: nat): (n: nat)
    requires start < depth <= U32 && end < depth
    ensures n < depth
  {
    Wrap(if start <= end then end - start else U32 + end - start, depth)
  }

  lemma DifferenceOfMultiple(whole: nat, x: nat, depth: nat)
    requires 0 < x < depth && x <= whole
    ensures Wrap(whole - x, depth) == depth - x <==> Wrap(whole, depth) == 0
  {
    WrapAdd(whole - x, x, depth);
    var r := Wrap(whole - x, depth);
    assert Wrap(r + x, depth) == if r + x < depth then r + x else r + x - depth;
  }

  /** The count is the cyclic distance if and only if the sub-batch does not wrap or the depth divides 2^32. */
  lemma CountIsDistance(start: nat, end: nat, depth: nat)
    requires start < depth <= U32 && end < depth
    ensures Count(start, end, depth) == Distance(start, end, depth) <==> start <= end || Wrap(U32, depth) == 0
  {
    if start > end {
      DifferenceOfMultiple(U32, start - end, depth);
    }
  }

  /** A ring of three slots: a sub-batch from slot 2 round to slot 1 has two entries, but the count is 0. */
  lemma WrappedCountFails()
    ensures Count(2, 1, 3) == 0 && Distance(2, 1, 3) == 2
  {
    WrapIsMod(U32 - 1, 3);
  }

  const U64: nat := 0x1_0000_0000_0000_0000

  /** How many entries are read from the host: the same with a 64-bit difference. */
  function ReadCount(start: nat, end: nat, depth: nat): (n: nat)
    requires start < depth <= U32 && end < depth
    ensures n < depth
  {
    Wrap(if start <= end then end - start else U64 + end - start, depth)
  }

  /** That count is the cyclic distance if and only if nothing wraps or the depth divides 2^64. */
  lemma ReadCountIsDistance(start: nat, end: nat, depth: nat)
    requires start < depth <= U32 && end < depth
    ensures ReadCount(start, end, depth) == Distance(start, end, depth) <==> start <= end || Wrap(U64, depth) == 0
  {
    if start > end {
      DifferenceOfMultiple(U64, start - end, depth);
    }
  }

  // ---------------------------------------------------------------- the split

  /** Not empty, and all of one namespace. */
  predicate Uniform(g: seq<Sqe>) {
    g != [] && forall k :: 0 <= k < |g| ==> g[k].nsid == g[0].nsid
  }

  function Concat(groups: seq<seq<Sqe>>): seq<Sqe> {
    if groups == [] then [] else Concat(groups[..|groups| - 1]) + groups[|groups| - 1]
  }

  /** The groups are the batch cut into its longest runs of one namespace. */
  ghost predicate IsSplit(batch: seq<Sqe>, groups: seq<seq<Sqe>>) {
    && Concat(groups) == batch
    && (forall i :: 0 <= i < |groups| ==> Uniform(groups[i]))
    && (forall i :: 0 < i < |groups| ==> groups[i - 1][0].nsid != groups[i][0].nsid)
  }

  lemma ConcatLast(groups: seq<seq<Sqe>>, g: seq<Sqe>)
    ensures Concat(groups + [g]) == Concat(groups) + g
  {
    assert (groups + [g])[..|groups|] == groups;
  }

  /** The front of a split is a split. */
  lemma SplitFront(batch: seq<Sqe>, groups: seq<seq<Sqe>>)
    requires groups != [] && IsSplit(batch, groups)
    ensures var n, g := |groups| - 1, groups[|groups| - 1];
            && |g| <= |batch| && batch[|batch| - |g|..] == g
            && IsSplit(batch[..|batch| - |g|], groups[..n])
  {
  }

  /** The last group reaches as far back as its namespace does. */
  lemma LastRun(batch: seq<Sqe>, groups: seq<seq<Sqe>>)
    requires groups != [] && IsSplit(batch, groups)
    ensures var g := groups[|groups| - 1];
            && 0 < |g| <= |batch|
            && (forall k :: |batch| - |g| <= k < |batch| ==> batch[k].nsid == g[0].nsid)
            && (|g| < |batch| ==> batch[|batch| - |g| - 1].nsid != g[0].nsid)
  {
    var n, g := |groups| - 1, groups[|groups| - 1];
    SplitFront(batch, groups);
    forall k | |batch| - |g| <= k < |batch| ensures batch[k].nsid == g[0].nsid {
      assert batch[k] == batch[|batch| - |g|..][k - (|batch| - |g|)];
    }
    if n > 0 {
      var front := batch[..|batch| - |g|];
      var h := groups[n - 1];
      SplitFront(front, groups[..n]);
      assert front[|front| - 1] == front[|front| - |h|..][|h| - 1] == h[|h| - 1];
      assert h[|h| - 1].nsid == h[0].nsid;
    }
  }

  /** There is only one such split. */
  lemma {:induction false} SplitUnique(batch: seq<Sqe>, a: seq<seq<Sqe>>, b: seq<seq<Sqe>>)
    requires IsSplit(batch, a) && IsSplit(batch, b)
    ensures a == b
    decreases |a|
  {
    if a != [] && b != [] {
      var x, y := a[|a| - 1], b[|b| - 1];
      SplitFront(batch, a);
      SplitFront(batch, b);
      LastRun(batch, a);
      LastRun(batch, b);
      assert batch[|batch| - 1].nsid == x[0].nsid == y[0].nsid;
      assert |x| == |y|;
      SplitUnique(batch[..|batch| - |x|], a[..|a| - 1], b[..|b| - 1]);
      assert a == a[..|a| - 1] + [x] && b == b[..|b| - 1] + [y];
    } else {
      NoGroups(batch, a);
      NoGroups(batch, b);
    }
  }

  lemma NoGroups(batch: seq<Sqe>, groups: seq<seq<Sqe>>)
    requires IsSplit(batch, groups)
    ensures groups == [] <==> batch == []
  {
    if groups != [] {
      SplitFront(batch, groups);
    }
  }

  /** Where the splitting loop stands: the entries before `j` are split, those from `j` up to `k` are of one namespace. */
  ghost predicate Splitting(batch: seq<Sqe>, k: nat, j: nat, groups: seq<seq<Sqe>>, nsid: nat) {
    && j <= k <= |batch| && (j < k || k == 0)
    && IsSplit(batch[..j], groups)
    && (groups != [] ==> groups[|groups| - 1][0].nsid != nsid)
    && (forall t :: j <= t < k ==> batch[t].nsid == nsid)
  }

  lemma SplitStarts(batch: seq<Sqe>, nsid: nat)
    ensures Splitting(batch, 0, 0, [], nsid)
  {
  }

  /** An entry of the same namespace joins the run; the first entry starts one. */
  lemma SameRun(batch: seq<Sqe>, k: nat, j: nat, groups: seq<seq<Sqe>>, nsid: nat)
    requires Splitting(batch, k, j, groups, nsid) && k < |batch| && batch[k].nsid == nsid
    ensures Splitting(batch, k + 1, j, groups, nsid)
  {
  }

  /** An entry of another namespace ends the run and starts the next. */
  lemma NextRun(batch: seq<Sqe>, k: nat, j: nat, groups: seq<seq<Sqe>>, nsid: nat)
    requires Splitting(batch, k, j, groups, nsid) && 0 < k < |batch| && batch[k].nsid != nsid
    ensures Splitting(batch, k + 1, k, groups + [batch[j..k]], batch[k].nsid)
  {
    LastPart(batch, k, j, groups, nsid);
  }

  lemma LastPart(batch: seq<Sqe>, k: nat, j: nat, groups: seq<seq<Sqe>>, nsid: nat)
    requires Splitting(batch, k, j, groups, nsid) && 0 < k
    ensures IsSplit(batch[..k], groups + [batch[j..k]]) && batch[j..k][0].nsid == nsid
  {
    var g := batch[j..k];
    ConcatLast(groups, g);
    assert batch[..k] == batch[..j] + g;
    assert g[0] == batch[j];
  }

  // ---------------------------------------------------------------- what a ring holds

  /** The last entries of a ring's history, as many as it has slots, are in their slots. */
  ghost predicate Holds(slots: seq<Sqe>, tail: nat, history: seq<Sqe>) {
    && |slots| > 0 && tail == Wrap(|history|, |slots|)
    && forall t {:trigger history[t]} :: 0 <= t < |history| && |history| - |slots| <= t ==>
         slots[Wrap(t, |slots|)] == history[t]
  }

  /** A cyclic copy to the tail appends the copied window to the history. */
  lemma CopyAppends(slots: seq<Sqe>, tail: nat, history: seq<Sqe>, buf: seq<Sqe>, from: nat, n: nat, slots': seq<Sqe>)
    requires Holds(slots, tail, history) && |buf| == |slots| && from < |buf| && n <= |buf|
    requires IsCyclicCopy(slots, buf, from, tail, n, slots')
    ensures Holds(slots', Ring(tail + n, |buf|), history + Window(buf, from, n))
  {
    var history' := history + Window(buf, from, n);
    NextTail(|history|, n, |slots|);
    forall t | 0 <= t < |history'| && |history'| - |slots| <= t ensures slots'[Wrap(t, |slots|)] == history'[t] {
      AppendedAt(slots, tail, history, buf, from, n, slots', t);
    }
  }

  lemma NextTail(h: nat, n: nat, depth: nat)
    requires 0 < depth && n <= depth
    ensures Ring(Wrap(h, depth) + n, depth) == Wrap(h + n, depth)
  {
    WrapAdd(h, n, depth);
  }

  lemma AppendedAt(slots: seq<Sqe>, tail: nat, history: seq<Sqe>, buf: seq<Sqe>, from: nat, n: nat, slots': seq<Sqe>, t: nat)
    requires Holds(slots, tail, history) && |buf| == |slots| && from < |buf| && n <= |buf|
    requires IsCyclicCopy(slots, buf, from, tail, n, slots')
    requires t < |history| + n <= t + |slots|
    ensures slots'[Wrap(t, |slots|)] == (history + Window(buf, from, n))[t]
  {
    var j, w := Wrap(t, |slots|), Window(buf, from, n);
    assert Distance(tail, j, |slots|) == if t >= |history| then t - |history| else t + |slots| - |history| by {
      PlaceInRing(|history|, t, n, |slots|);
    }
    if t >= |history| {
      assert slots'[j] == w[t - |history|] == (history + w)[t];
    } else {
      assert slots'[j] == slots[j] == history[t];
    }
  }

  /** Entry `t` lies `t - h` slots after the place of entry `h`, going around. */
  lemma PlaceInRing(h: nat, t: nat, n: nat, depth: nat)
    requires depth > 0 && h + n <= t + depth && t < h + n && n <= depth
    ensures Distance(Wrap(h, depth), Wrap(t, depth), depth) == if t >= h then t - h else t + depth - h
  {
    var d := if t >= h then t - h else t + depth - h;
    WrapAdd(h, d, depth);
    assert t < h ==> Wrap(t + depth, depth) == Wrap(t, depth);
    assert Wrap(Wrap(h, depth) + d, depth) == Ring(Wrap(h, depth) + d, depth);
  }
}
