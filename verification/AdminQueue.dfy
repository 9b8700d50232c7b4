/** The admin queue core (ctrl/snap_vq.c): commands go from the free list to the list of those in flight and back, or end
    in the list of fatal ones; descriptors go from their pool to commands and back. */
module AdminQueue {
  import opened AdminLists

  datatype State = Running | Flushing | Suspended

  /** Where everything is. Lists have their first element first; `completed` has the arrival numbers of the commands
      completed so far, `arrived` is how many have arrived, and `finished` has the numbers of those that were done. */
  datatype Pools = Pools(free: seq<nat>, inflight: seq<Cmd>, fatal: seq<Cmd>, freeDescs: seq<nat>, completed: seq<nat>,
                         arrived: nat, finished: set<nat>)

  /** Slot `x`, descriptor `x` and arrival number `x` are each in exactly one place, if there is such a one. */
  ghost predicate Placed(p: Pools, slots: nat, descs: nat, x: nat) {
    && Count(p.free, x) + AllUses(p.inflight, Slot, x) + AllUses(p.fatal, Slot, x) == (if x < slots then 1 else 0)
    && Count(p.freeDescs, x) + AllUses(p.inflight, Desc, x) + AllUses(p.fatal, Desc, x) == (if x < descs then 1 else 0)
    && Count(p.completed, x) + AllUses(p.inflight, Arrival, x) + AllUses(p.fatal, Arrival, x)
       == (if x < p.arrived then 1 else 0)
  }

  ghost predicate AllPlaced(p: Pools, slots: nat, descs: nat) {
    forall x: nat :: Placed(p, slots, descs, x)
  }

  /** Later commands come first in the list of those in flight. */
  ghost predicate NewestFirst(inflight: seq<Cmd>, arrived: nat) {
    && (forall i :: 0 <= i < |inflight| ==> inflight[i].arrival < arrived)
    && (forall i, j :: 0 <= i < j < |inflight| ==> inflight[i].arrival > inflight[j].arrival)
  }

  ghost predicate Increasing(s: seq<nat>) {
    forall i, j :: 0 <= i < j < |s| ==> s[i] < s[j]
  }

  /** Commands have been completed in the order of their arrival, and none of those in flight has been overtaken. */
  ghost predicate InOrder(p: Pools) {
    && Increasing(p.completed)
    && forall i, j :: 0 <= i < |p.completed| && 0 <= j < |p.inflight| ==> p.completed[i] < p.inflight[j].arrival
  }

  /** No command and no descriptor is lost: so many are free as are not in use. */
  ghost predicate Conserved(p: Pools, slots: nat, descs: nat) {
    && |p.free| + |p.inflight| + |p.fatal| == slots
    && |p.freeDescs| + Held(p.inflight) + Held(p.fatal) == descs
  }

  /** A command waits for its completion only if it is done, and in order it does so if it is; and only commands that are
      done are completed. */
  ghost predicate Earned(p: Pools, inOrder: bool) {
    && (forall x :: x in p.finished ==> x < p.arrived)
    && (forall i :: 0 <= i < |p.inflight| && p.inflight[i].pending ==> p.inflight[i].arrival in p.finished)
    && (inOrder ==> forall i :: 0 <= i < |p.inflight| && p.inflight[i].arrival in p.finished ==> p.inflight[i].pending)
    && (forall i :: 0 <= i < |p.completed| ==> p.completed[i] in p.finished)
  }

  ghost predicate Inv(p: Pools, slots: nat, descs: nat, inOrder: bool) {
    && AllPlaced(p, slots, descs) && Conserved(p, slots, descs) && Earned(p, inOrder)
    && NewestFirst(p.inflight, p.arrived) && (inOrder ==> InOrder(p))
  }

  // ---------------------------------------------------------------- the steps on values

  /** A command arrives and gets the first free slot and `n` descriptors. */
  function Start(p: Pools, n: nat): Pools
    requires p.free != [] && n <= |p.freeDescs|
  {
    p.(free := p.free[1..], inflight := [Cmd(p.free[0], p.arrived, false, p.freeDescs[..n])] + p.inflight,
       freeDescs := p.freeDescs[n..], arrived := p.arrived + 1)
  }

  function Fetch(p: Pools, k: nat): Pools
    requires k < |p.inflight| && p.freeDescs != []
  {
    p.(inflight := p.inflight[k := p.inflight[k].(descs := p.inflight[k].descs + [p.freeDescs[0]])],
       freeDescs := p.freeDescs[1..])
  }

  /** Command `k` is done; with forced order it begins to wait for its completion. */
  function Finish(p: Pools, k: nat, inOrder: bool): Pools
    requires k < |p.inflight|
  {
    var c := p.inflight[k];
    p.(inflight := if inOrder then p.inflight[k := c.(pending := true)] else p.inflight, finished := p.finished + {c.arrival})
  }

  /** The pool after the first `n` descriptors of a command have been put back, one by one, in front. */
  function PutBack(descs: seq<nat>, n: nat, pool: seq<nat>): (r: seq<nat>)
    requires n <= |descs|
    ensures |r| == |pool| + n
  {
    if n == 0 then pool else [descs[n - 1]] + PutBack(descs, n - 1, pool)
  }

  function Complete(p: Pools, k: nat): Pools
    requires k < |p.inflight|
  {
    var c := p.inflight[k];
    p.(free := [c.slot] + p.free, inflight := RemoveAt(p.inflight, k),
       freeDescs := PutBack(c.descs, |c.descs|, p.freeDescs), completed := p.completed + [c.arrival])
  }

  function Fail(p: Pools, k: nat): Pools
    requires k < |p.inflight|
  {
    p.(inflight := RemoveAt(p.inflight, k), fatal := [p.inflight[k]] + p.fatal)
  }

  // ---------------------------------------------------------------- every step keeps everything in one place

  lemma {:induction false} PutBackCounts(descs: seq<nat>, n: nat, pool: seq<nat>, x: nat)
    requires n <= |descs|
    ensures Count(PutBack(descs, n, pool), x) == Count(pool, x) + CountTo(descs, n, x)
  {
    if n > 0 {
      PutBackCounts(descs, n - 1, pool, x);
      CountFirst(PutBack(descs, n, pool), x);
      assert PutBack(descs, n, pool)[1..] == PutBack(descs, n - 1, pool);
    }
  }

  lemma StartPlaces(p: Pools, n: nat, slots: nat, descs: nat, x: nat)
    requires p.free != [] && n <= |p.freeDescs| && Placed(p, slots, descs, x)
    requires Count(p.completed, p.arrived) + AllUses(p.inflight, Arrival, p.arrived) + AllUses(p.fatal, Arrival, p.arrived) == 0
    ensures Placed(Start(p, n), slots, descs, x)
  {
    var c := Cmd(p.free[0], p.arrived, false, p.freeDescs[..n]);
    CountFirst(p.free, x);
    CountSplit(p.freeDescs, n, x);
    forall w: What ensures AllUses([c] + p.inflight, w, x) == AllUses(p.inflight, w, x) + Uses(c, w, x) {
      PutInFront(p.inflight, c, |p.inflight|, w, x);
    }
  }

  lemma FetchPlaces(p: Pools, k: nat, slots: nat, descs: nat, x: nat)
    requires k < |p.inflight| && p.freeDescs != [] && Placed(p, slots, descs, x)
    ensures Placed(Fetch(p, k), slots, descs, x)
  {
    var c := p.inflight[k];
    var d := c.(descs := c.descs + [p.freeDescs[0]]);
    CountFirst(p.freeDescs, x);
    CountJoin(c.descs, [p.freeDescs[0]], 1, x);
    CountOne(p.freeDescs[0], x);
    Changed(p.inflight, k, d, Slot, x);
    Changed(p.inflight, k, d, Desc, x);
    Changed(p.inflight, k, d, Arrival, x);
  }

  lemma FinishPlaces(p: Pools, k: nat, slots: nat, descs: nat, inOrder: bool, x: nat)
    requires k < |p.inflight| && Placed(p, slots, descs, x)
    ensures Placed(Finish(p, k, inOrder), slots, descs, x)
  {
    var d := p.inflight[k].(pending := true);
    Changed(p.inflight, k, d, Slot, x);
    Changed(p.inflight, k, d, Desc, x);
    Changed(p.inflight, k, d, Arrival, x);
  }

  lemma CompletePlaces(p: Pools, k: nat, slots: nat, descs: nat, x: nat)
    requires k < |p.inflight| && Placed(p, slots, descs, x)
    ensures Placed(Complete(p, k), slots, descs, x)
  {
    var c := p.inflight[k];
    forall w: What ensures AllUses(p.inflight, w, x) == AllUses(RemoveAt(p.inflight, k), w, x) + Uses(c, w, x) {
      TakenOut(p.inflight, k, |p.inflight|, w, x);
    }
    CountFirst([c.slot] + p.free, x);
    assert ([c.slot] + p.free)[1..] == p.free;
    PutBackCounts(c.descs, |c.descs|, p.freeDescs, x);
    CountJoin(p.completed, [c.arrival], 1, x);
    CountOne(c.arrival, x);
  }

  lemma FailPlaces(p: Pools, k: nat, slots: nat, descs: nat, x: nat)
    requires k < |p.inflight| && Placed(p, slots, descs, x)
    ensures Placed(Fail(p, k), slots, descs, x)
  {
    var c := p.inflight[k];
    forall w: What
      ensures AllUses(p.inflight, w, x) == AllUses(RemoveAt(p.inflight, k), w, x) + Uses(c, w, x)
      ensures AllUses([c] + p.fatal, w, x) == AllUses(p.fatal, w, x) + Uses(c, w, x)
    {
      TakenOut(p.inflight, k, |p.inflight|, w, x);
      PutInFront(p.fatal, c, |p.fatal|, w, x);
    }
  }

  lemma StartEarned(p: Pools, n: nat, inOrder: bool)
    requires p.free != [] && n <= |p.freeDescs| && Earned(p, inOrder)
    ensures Earned(Start(p, n), inOrder)
  {
    var r := Start(p, n);
    assert r.inflight[0].arrival !in p.finished;
    assert forall i :: 0 < i < |r.inflight| ==> r.inflight[i] == p.inflight[i - 1];
  }

  lemma CompleteEarned(p: Pools, k: nat, inOrder: bool)
    requires k < |p.inflight| && Earned(p, inOrder) && p.inflight[k].arrival in p.finished
    ensures Earned(Complete(p, k), inOrder)
  {
  }

  lemma FailEarned(p: Pools, k: nat, inOrder: bool)
    requires k < |p.inflight| && Earned(p, inOrder)
    ensures Earned(Fail(p, k), inOrder)
  {
  }

  lemma StartKeeps(p: Pools, n: nat, slots: nat, descs: nat, inOrder: bool)
    requires p.free != [] && n <= |p.freeDescs| && Inv(p, slots, descs, inOrder)
    ensures Inv(Start(p, n), slots, descs, inOrder)
  {
    HeldInFront(p.inflight, Cmd(p.free[0], p.arrived, false, p.freeDescs[..n]), |p.inflight|);
    StartEarned(p, n, inOrder);
    assert Placed(p, slots, descs, p.arrived);
    forall x: nat ensures Placed(Start(p, n), slots, descs, x) {
      assert Placed(p, slots, descs, x);
      StartPlaces(p, n, slots, descs, x);
    }
    if inOrder {
      CompletedHaveArrived(p, slots, descs);
    }
  }

  lemma CompletedHaveArrived(p: Pools, slots: nat, descs: nat)
    requires AllPlaced(p, slots, descs)
    ensures forall i :: 0 <= i < |p.completed| ==> p.completed[i] < p.arrived
  {
    forall i | 0 <= i < |p.completed| ensures p.completed[i] < p.arrived {
      CountAt(p.completed, |p.completed|, i);
      assert Placed(p, slots, descs, p.completed[i]);
    }
  }

  lemma {:induction false} CountAt(s: seq<nat>, n: nat, i: nat)
    requires i < n <= |s|
    ensures CountTo(s, n, s[i]) > 0
  {
    if i < n - 1 {
      CountAt(s, n - 1, i);
    }
  }

  lemma FetchKeeps(p: Pools, k: nat, slots: nat, descs: nat, inOrder: bool)
    requires k < |p.inflight| && p.freeDescs != [] && Inv(p, slots, descs, inOrder)
    ensures Inv(Fetch(p, k), slots, descs, inOrder)
  {
    HeldChanged(p.inflight, k, p.inflight[k].(descs := p.inflight[k].descs + [p.freeDescs[0]]));
    forall x: nat ensures Placed(Fetch(p, k), slots, descs, x) {
      assert Placed(p, slots, descs, x);
      FetchPlaces(p, k, slots, descs, x);
    }
  }

  /** Two commands in flight never have the same number. */
  lemma FinishKeeps(p: Pools, k: nat, slots: nat, descs: nat, inOrder: bool)
    requires k < |p.inflight| && Inv(p, slots, descs, inOrder)
    ensures Inv(Finish(p, k, inOrder), slots, descs, inOrder)
  {
    HeldChanged(p.inflight, k, p.inflight[k].(pending := true));
    forall x: nat ensures Placed(Finish(p, k, inOrder), slots, descs, x) {
      assert Placed(p, slots, descs, x);
      FinishPlaces(p, k, slots, descs, inOrder, x);
    }
    FinishEarned(p, k, inOrder);
  }

  lemma FinishEarned(p: Pools, k: nat, inOrder: bool)
    requires k < |p.inflight| && Earned(p, inOrder) && NewestFirst(p.inflight, p.arrived)
    ensures Earned(Finish(p, k, inOrder), inOrder)
  {
  }

  /** Any command may be completed when the order does not matter; otherwise only the oldest. */
  lemma CompleteKeeps(p: Pools, k: nat, slots: nat, descs: nat, inOrder: bool)
    requires k < |p.inflight| && Inv(p, slots, descs, inOrder) && (inOrder ==> k == |p.inflight| - 1)
    requires p.inflight[k].arrival in p.finished
    ensures Inv(Complete(p, k), slots, descs, inOrder)
  {
    HeldWithout(p.inflight, k, |p.inflight|);
    CompleteEarned(p, k, inOrder);
    forall x: nat ensures Placed(Complete(p, k), slots, descs, x) {
      assert Placed(p, slots, descs, x);
      CompletePlaces(p, k, slots, descs, x);
    }
  }

  lemma FailKeeps(p: Pools, k: nat, slots: nat, descs: nat, inOrder: bool)
    requires k < |p.inflight| && Inv(p, slots, descs, inOrder)
    ensures Inv(Fail(p, k), slots, descs, inOrder)
  {
    HeldWithout(p.inflight, k, |p.inflight|);
    HeldInFront(p.fatal, p.inflight[k], |p.fatal|);
    FailEarned(p, k, inOrder);
    forall x: nat ensures Placed(Fail(p, k), slots, descs, x) {
      assert Placed(p, slots, descs, x);
      FailPlaces(p, k, slots, descs, x);
    }
  }

  // ---------------------------------------------------------------- what the invariant means

  /** When the completion of a command cannot be sent, the command is moved to the fatal ones and then, like a completed
      one, taken out of the list of those in flight. It is there to be taken out if and only if the send succeeded. */
  lemma TakenOutExactlyIfSent(p: Pools, k: nat, slots: nat, descs: nat, inOrder: bool, sent: bool)
    requires k < |p.inflight| && Inv(p, slots, descs, inOrder)
    ensures var c, after := p.inflight[k], if sent then p else Fail(p, k);
            AllUses(after.inflight, Slot, c.slot) == 1 <==> sent
  {
    var x := p.inflight[k].slot;
    assert Placed(p, slots, descs, x);
    TakenOut(p.inflight, k, |p.inflight|, Slot, x);
  }

  /** Arrival number `x` belongs to no command in flight and to no fatal one. */
  ghost predicate Gone(p: Pools, x: nat) {
    AllUses(p.inflight, Arrival, x) + AllUses(p.fatal, Arrival, x) == 0
  }

  /** The arrival numbers below `n` of which this is true, in their order. */
  ghost function GoneBelow(p: Pools, n: nat): seq<nat> {
    if n == 0 then [] else GoneBelow(p, n - 1) + if Gone(p, n - 1) then [n - 1] else []
  }

  lemma {:induction false} GoneAre(p: Pools, n: nat)
    ensures Increasing(GoneBelow(p, n))
    ensures forall x: nat :: x in GoneBelow(p, n) <==> x < n && Gone(p, x)
  {
    if n > 0 {
      GoneAre(p, n - 1);
      var s, m := GoneBelow(p, n - 1), if Gone(p, n - 1) then [n - 1] else [];
      forall x: nat ensures x in s + m <==> x < n && Gone(p, x) {
        assert x in s + m <==> x in s || x in m;
      }
      IncreasingMore(s, n - 1);
    }
  }

  lemma IncreasingMore(s: seq<nat>, y: nat)
    requires Increasing(s) && forall x: nat :: x in s ==> x < y
    ensures Increasing(s + [y])
  {
    forall i | 0 <= i < |s| ensures s[i] < y {
      assert s[i] in s;
    }
  }

  /** In order, the completions are exactly the arrivals, in their order, without the fatal commands and those still in
      flight. */
  lemma CompletionsAreArrivals(p: Pools, slots: nat, descs: nat)
    requires Inv(p, slots, descs, true)
    ensures p.completed == GoneBelow(p, p.arrived)
  {
    GoneAre(p, p.arrived);
    forall x: nat ensures x in p.completed <==> x in GoneBelow(p, p.arrived) {
      assert Placed(p, slots, descs, x);
      CountIn(p.completed, |p.completed|, x);
    }
    SameSortedSequence(p.completed, GoneBelow(p, p.arrived));
  }

  lemma {:induction false} CountIn(s: seq<nat>, n: nat, x: nat)
    requires n <= |s|
    ensures CountTo(s, n, x) > 0 <==> x in s[..n]
    ensures n == |s| ==> s[..n] == s
  {
    if n > 0 {
      CountIn(s, n - 1, x);
      assert s[..n] == s[..n - 1] + [s[n - 1]];
    }
  }

  lemma {:induction false} SameSortedSequence(a: seq<nat>, b: seq<nat>)
    requires Increasing(a) && Increasing(b) && forall x: nat :: x in a <==> x in b
    ensures a == b
    decreases |a|
  {
    SameEmpty(a, b);
    SameEmpty(b, a);
    if a != [] {
      var front, front', y := Fronts(a, b);
      SameSortedSequence(front, front');
    }
  }

  /** Both end with the same number, and without it they still have the same numbers. */
  lemma Fronts(a: seq<nat>, b: seq<nat>) returns (front: seq<nat>, front': seq<nat>, y: nat)
    requires Increasing(a) && Increasing(b) && a != [] && b != [] && forall x: nat :: x in a <==> x in b
    ensures a == front + [y] && b == front' + [y] && Increasing(front) && Increasing(front')
    ensures forall x: nat :: x in front <==> x in front'
  {
    var m, n := |a| - 1, |b| - 1;
    LastIsGreatest(a, b);
    LastIsGreatest(b, a);
    front, front', y := a[..m], b[..n], a[m];
    FrontHas(a, front, b, front');
  }

  lemma LastIsGreatest(a: seq<nat>, b: seq<nat>)
    requires a != [] && b != [] && Increasing(b) && forall x: nat :: x in a ==> x in b
    ensures a[|a| - 1] <= b[|b| - 1]
  {
    assert a[|a| - 1] in b;
  }

  lemma SameEmpty(a: seq<nat>, b: seq<nat>)
    requires forall x: nat :: x in a ==> x in b
    ensures |b| == 0 ==> |a| == 0
  {
    if |a| > 0 {
      assert a[0] in b;
    }
  }

  lemma FrontHas(a: seq<nat>, front: seq<nat>, b: seq<nat>, front': seq<nat>)
    requires Increasing(a) && Increasing(b) && a != [] && b != [] && a[|a| - 1] == b[|b| - 1]
    requires front == a[..|a| - 1] && front' == b[..|b| - 1]
    requires forall x: nat :: x in a <==> x in b
    ensures Increasing(front) && Increasing(front') && forall x: nat :: x in front <==> x in front'
  {
    forall x: nat ensures x in front <==> x in front' {
      InFront(a, x);
      InFront(b, x);
    }
  }

  lemma InFront(a: seq<nat>, x: nat)
    requires Increasing(a) && a != []
    ensures x in a[..|a| - 1] <==> x in a && x != a[|a| - 1]
  {
    assert a == a[..|a| - 1] + [a[|a| - 1]];
  }

  // ---------------------------------------------------------------- the queue

  /** The commands are put into their list at its end, the descriptors into their pool at its front. */
  function Upward(n: nat): (r: seq<nat>)
    ensures |r| == n
  {
    if n == 0 then [] else Upward(n - 1) + [n - 1]
  }

  function Downward(n: nat): (r: seq<nat>)
    ensures |r| == n
  {
    if n == 0 then [] else [n - 1] + Downward(n - 1)
  }

  lemma {:induction false} EachOnce(n: nat, x: nat)
    ensures Count(Upward(n), x) == Count(Downward(n), x) == if x < n then 1 else 0
  {
    if n > 0 {
      EachOnce(n - 1, x);
      CountJoin(Upward(n - 1), [n - 1], 1, x);
      CountOne(n - 1, x);
      CountFirst(Downward(n), x);
      assert Downward(n)[1..] == Downward(n - 1);
    }
  }

  lemma EmptyQueue(slots: nat, descs: nat, inOrder: bool)
    ensures Inv(Pools(Upward(slots), [], [], Downward(descs), [], 0, {}), slots, descs, inOrder)
  {
    var p := Pools(Upward(slots), [], [], Downward(descs), [], 0, {});
    forall x: nat ensures Placed(p, slots, descs, x) {
      EachOnce(slots, x);
      EachOnce(descs, x);
    }
  }

  /** Waiting commands have been taken from the end of the list, that is, the oldest ones. */
  ghost predicate Flushed(before: seq<Cmd>, after: seq<Cmd>) {
    && |after| <= |before| && after == before[..|after|]
    && forall i :: |after| <= i < |before| ==> before[i].pending
  }

  class Queue {
    const slots: nat
    const descs: nat
    const inOrder: bool
    var state: State
    var free: seq<nat>
    var inflight: seq<Cmd>
    var fatal: seq<Cmd>
    var freeDescs: seq<nat>
    ghost var completed: seq<nat>
    /** The arrival numbers of the commands that were done: see `CmdComplete`. */
    ghost var finished: set<nat>
    /** Counts arrivals; the numbers serve only to speak about order. */
    var arrived: nat

    ghost function View(): Pools
      reads this
    {
      Pools(free, inflight, fatal, freeDescs, completed, arrived, finished)
    }

    ghost predicate Valid()
      reads this
    {
      Inv(View(), slots, descs, inOrder) && (state == Suspended ==> inflight == [])
    }

    constructor (slots: nat, descs: nat, inOrder: bool)
      ensures Valid() && state == Running && inflight == [] && arrived == 0 && completed == [] && finished == {}
      ensures this.slots == slots && this.descs == descs && this.inOrder == inOrder
    {
      this.slots, this.descs, this.inOrder := slots, descs, inOrder;
      state, free, inflight, fatal, freeDescs := Running, Upward(slots), [], [], Downward(descs);
      completed, arrived, finished := [], 0, {};
      EmptyQueue(slots, descs, inOrder);
    }

    /** Takes `n` descriptors from the front of the pool. */
    method TakeDescs(n: nat) returns (taken: seq<nat>)
      requires n <= |freeDescs|
      modifies this`freeDescs
      ensures taken == old(freeDescs)[..n] && freeDescs == old(freeDescs)[n..]
    {
      taken := [];
      for i := 0 to n
        invariant taken == old(freeDescs)[..i] && freeDescs == old(freeDescs)[i..]
      {
        taken := taken + [freeDescs[0]];
        freeDescs := freeDescs[1..];
      }
    }

    /** A command with `n` descriptors arrives. Commands are only received while the queue runs. There is a free command
        and there are `n` free descriptors exactly if what is in use leaves room for them. */
    method CmdStart(n: nat)
      requires Valid() && state == Running && |inflight| + |fatal| < slots && Held(inflight) + Held(fatal) + n <= descs
      modifies this`free, this`inflight, this`freeDescs, this`arrived
      ensures Valid() && View() == Start(old(View()), n)
    {
      StartKeeps(View(), n, slots, descs, inOrder);
      var slot := free[0];
      free := free[1..];
      var taken := TakeDescs(n);
      inflight := [Cmd(slot, arrived, false, taken)] + inflight;
      arrived := arrived + 1;
    }

    /** The next descriptor of the chain of command `k` is fetched. */
    method FetchNextDesc(k: nat)
      requires Valid() && k < |inflight| && Held(inflight) + Held(fatal) < descs
      modifies this`inflight, this`freeDescs
      ensures Valid() && View() == Fetch(old(View()), k)
    {
      FetchKeeps(View(), k, slots, descs, inOrder);
      inflight := inflight[k := inflight[k].(descs := inflight[k].descs + [freeDescs[0]])];
      freeDescs := freeDescs[1..];
    }

    /** A command that cannot be completed. It keeps its descriptors. */
    method CmdFatal(k: nat)
      requires Valid() && k < |inflight|
      modifies this`inflight, this`fatal
      ensures Valid() && View() == Fail(old(View()), k)
    {
      FailKeeps(View(), k, slots, descs, inOrder);
      fatal := [inflight[k]] + fatal;
      inflight := RemoveAt(inflight, k);
    }

    /** Puts the descriptors of a command back, first one first. */
    method CleanUp(held: seq<nat>)
      modifies this`freeDescs
      ensures freeDescs == PutBack(held, |held|, old(freeDescs))
    {
      for i := 0 to |held|
        invariant freeDescs == PutBack(held, i, old(freeDescs))
      {
        freeDescs := [held[i]] + freeDescs;
      }
    }

    /** The completion of command `k` has been sent. */
    method CompleteExecute(k: nat)
      requires Valid() && k < |inflight| && (inOrder ==> k == |inflight| - 1) && inflight[k].arrival in finished
      modifies this`free, this`inflight, this`freeDescs, this`completed
      ensures Valid() && View() == Complete(old(View()), k)
    {
      CompleteKeeps(View(), k, slots, descs, inOrder);
      var c := inflight[k];
      CleanUp(c.descs);
      inflight := RemoveAt(inflight, k);
      free := [c.slot] + free;
      completed := completed + [c.arrival];
    }

    /** Completes waiting commands from the oldest on, up to one that does not wait. */
    method Flush()
      requires Valid() && inOrder
      modifies this`free, this`inflight, this`freeDescs, this`completed
      ensures Valid() && (inflight == [] || !inflight[|inflight| - 1].pending)
      ensures Flushed(old(inflight), inflight)
    {
      while inflight != [] && inflight[|inflight| - 1].pending
        invariant Valid() && Flushed(old(inflight), inflight)
        decreases |inflight|
      {
        CompleteExecute(|inflight| - 1);
      }
    }

    /** Command `k` is done. In order, it waits until all earlier ones are done too. */
    method CmdComplete(k: nat)
      requires Valid() && k < |inflight|
      modifies this`free, this`inflight, this`freeDescs, this`completed, this`finished
      ensures Valid() && finished == old(finished) + {old(inflight)[k].arrival}
      ensures inOrder ==> inflight == [] || inflight[|inflight| - 1].arrival !in finished
      ensures inOrder ==> Flushed(Finish(old(View()), k, true).inflight, inflight)
      ensures !inOrder ==> View() == Complete(Finish(old(View()), k, false), k)
    {
      FinishKeeps(View(), k, slots, descs, inOrder);
      finished := finished + {inflight[k].arrival};
      if inOrder {
        inflight := inflight[k := inflight[k].(pending := true)];
        Flush();
      } else {
        CompleteExecute(k);
      }
    }

    method Suspend()
      requires Valid()
      modifies this`state
      ensures Valid() && state == Flushing
    {
      state := Flushing;
    }

    method Resume()
      requires Valid()
      modifies this`state
      ensures Valid() && state == Running
    {
      state := Running;
    }

    /** A queue that flushes is suspended once nothing is in flight. */
    method Progress()
      requires Valid()
      modifies this`state
      ensures Valid()
      ensures state == if old(state) == Flushing && inflight == [] then Suspended else old(state)
    {
      if state == Flushing && inflight == [] {
        state := Suspended;
      }
    }
  }
}
