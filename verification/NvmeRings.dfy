/** The rings of a namespace (dpa/dpa_nvme_mp.c), and what the commands that attach, detach and reweigh a ring make of
    them. */
module NvmeRings {
  import opened RoundRobin
  import opened Batches

  /** A ring on the ARM side. An address of 0 means that no ring is attached. */
  datatype Rb = Rb(addr: nat, weight: nat, tail: nat)

  const Detached := Rb(0, 0, 0)

  /** A namespace: which ring is in turn, and the rings, one for each queue pair, with their memory on the ARM side. */
  datatype Space = Space(turn: Turn, rbs: seq<Rb>, mem: seq<seq<Sqe>>)

  ghost predicate AnyAttached(rbs: seq<Rb>) {
    exists i :: 0 <= i < |rbs| && rbs[i].addr != 0
  }

  /** Some ring other than `qp` has a weight. */
  ghost predicate OtherWeighted(rbs: seq<Rb>, qp: nat) {
    exists i :: 0 <= i < |rbs| && i != qp && rbs[i].weight > 0
  }

  /** Some ring other than `qp` is attached. */
  ghost predicate OtherAttached(rbs: seq<Rb>, qp: nat) {
    exists i :: 0 <= i < |rbs| && i != qp && rbs[i].addr != 0
  }

  function Weights(rbs: seq<Rb>): (w: seq<nat>)
    ensures |w| == |rbs| && forall i :: 0 <= i < |rbs| ==> w[i] == rbs[i].weight
  {
    seq(|rbs|, i requires 0 <= i < |rbs| => rbs[i].weight)
  }

  /** What the sender relies on: the active index points at an attached ring, or is the invalid marker and then no ring
      is attached; only attached rings have a weight; and unless the namespace is invalid some ring has one. */
  ghost predicate Sound(s: Space, numQueues: nat) {
    && |s.rbs| == |s.mem| == numQueues && s.turn.active <= numQueues
    && (s.turn.active < numQueues ==> s.rbs[s.turn.active].addr != 0 && Weighted(Weights(s.rbs)))
    && (s.turn.active == numQueues ==> !AnyAttached(s.rbs))
    && (forall i :: 0 <= i < numQueues && s.rbs[i].weight > 0 ==> s.rbs[i].addr != 0)
  }

  /** A sound namespace that is not invalid has no more credits than the weight of its active ring, so that its next
      window of sends is fair. */
  ghost predicate Fair(s: Space, numQueues: nat) {
    Sound(s, numQueues) && (s.turn.active < numQueues ==> s.turn.credits <= s.rbs[s.turn.active].weight)
  }

  /** A namespace as it is when it is made. */
  function Blank(numQueues: nat, mem: seq<seq<Sqe>>): Space {
    Space(Turn(0, 0), seq(numQueues, _ => Detached), mem)
  }

  /** Attaching a ring makes it the active one. */
  function Attached(s: Space, qp: nat, addr: nat, weight: nat, slots: seq<Sqe>): Space
    requires qp < |s.rbs| == |s.mem|
  {
    Space(Turn(qp, weight), s.rbs[qp := Rb(addr, weight, 0)], s.mem[qp := slots])
  }

  ghost predicate AllDetached(s: Space, numQueues: nat) {
    |s.rbs| == |s.mem| == numQueues && forall i :: 0 <= i < numQueues ==> s.rbs[i] == Detached
  }

  lemma OthersKept(rbs: seq<Rb>, qp: nat, rb: Rb)
    requires qp < |rbs|
    ensures OtherWeighted(rbs[qp := rb], qp) <==> OtherWeighted(rbs, qp)
    ensures OtherAttached(rbs[qp := rb], qp) <==> OtherAttached(rbs, qp)
    ensures Weighted(Weights(rbs[qp := rb])) <==> rb.weight > 0 || OtherWeighted(rbs, qp)
    ensures AnyAttached(rbs[qp := rb]) <==> rb.addr != 0 || OtherAttached(rbs, qp)
  {
    var rbs' := rbs[qp := rb];
    assert forall i :: 0 <= i < |rbs| && i != qp ==> rbs'[i] == rbs[i];
    assert rbs'[qp] == rb && Weights(rbs')[qp] == rb.weight;
    if i :| 0 <= i < |rbs| && i != qp && rbs[i].weight > 0 {
      assert rbs'[i].weight > 0 && Weights(rbs')[i] > 0;
    }
    if i :| 0 <= i < |rbs| && i != qp && rbs[i].addr != 0 {
      assert rbs'[i].addr != 0;
    }
    if i :| 0 <= i < |rbs| && i != qp && rbs'[i].weight > 0 {
      assert rbs[i].weight > 0;
    }
    if i :| 0 <= i < |rbs| && i != qp && rbs'[i].addr != 0 {
      assert rbs[i].addr != 0;
    }
  }

  /** With a new ring a namespace is sound if and only if the ring or another one has a weight; and then it is fair. The
      namespace may be a new one. */
  lemma AttachKeeps(s: Space, qp: nat, addr: nat, weight: nat, slots: seq<Sqe>, numQueues: nat)
    requires (Sound(s, numQueues) || AllDetached(s, numQueues)) && qp < numQueues && addr != 0
    ensures Sound(Attached(s, qp, addr, weight, slots), numQueues) <==> weight > 0 || OtherWeighted(s.rbs, qp)
    ensures Sound(Attached(s, qp, addr, weight, slots), numQueues) ==> Fair(Attached(s, qp, addr, weight, slots), numQueues)
  {
    OthersKept(s.rbs, qp, Rb(addr, weight, 0));
  }

  /** Detaching the active ring makes the first attached one active; if none is left the namespace becomes invalid. */
  ghost predicate IsDetached(s: Space, qp: nat, r: Space)
    requires qp < |s.rbs|
  {
    && r.rbs == s.rbs[qp := Detached] && r.mem == s.mem
    && (!AnyAttached(r.rbs) ==> r.turn == s.turn.(active := |s.rbs|))
    && (AnyAttached(r.rbs) && s.turn.active != qp ==> r.turn == s.turn)
    && (AnyAttached(r.rbs) && s.turn.active == qp ==>
          && r.turn.active < |r.rbs| && r.rbs[r.turn.active].addr != 0
          && r.turn.credits == r.rbs[r.turn.active].weight
          && forall k :: 0 <= k < r.turn.active ==> r.rbs[k].addr == 0)
  }

  /** Without a ring a namespace is sound if and only if another one has a weight, or none is attached; and it stays
      fair. */
  lemma DetachKeeps(s: Space, qp: nat, r: Space, numQueues: nat)
    requires Sound(s, numQueues) && qp < numQueues && IsDetached(s, qp, r)
    ensures Sound(r, numQueues) <==> OtherWeighted(s.rbs, qp) || !OtherAttached(s.rbs, qp)
    ensures Fair(s, numQueues) && Sound(r, numQueues) ==> Fair(r, numQueues)
  {
    OthersKept(s.rbs, qp, Detached);
    assert forall i :: 0 <= i < numQueues && i != qp ==> r.rbs[i] == s.rbs[i];
  }

  function Reweighed(s: Space, qp: nat, weight: nat): Space
    requires qp < |s.rbs|
  {
    s.(rbs := s.rbs[qp := s.rbs[qp].(weight := weight)])
  }

  /** No test is made that the ring is attached, nor that the active ring keeps no more credits than its new weight. So
      the namespace stays sound if and only if the ring is attached or gets no weight, and a weight is left unless the
      namespace is invalid; and it stays fair if in addition an active ring keeps at least its credits as weight. */
  lemma ReweighKeeps(s: Space, qp: nat, weight: nat, numQueues: nat)
    requires Sound(s, numQueues) && qp < numQueues
    ensures Sound(Reweighed(s, qp, weight), numQueues) <==>
              && (weight > 0 ==> s.rbs[qp].addr != 0)
              && (s.turn.active < numQueues ==> weight > 0 || OtherWeighted(s.rbs, qp))
    ensures Fair(s, numQueues) ==>
              (Fair(Reweighed(s, qp, weight), numQueues) <==>
                 Sound(Reweighed(s, qp, weight), numQueues) && (s.turn.active == qp ==> s.turn.credits <= weight))
  {
    var rb := s.rbs[qp].(weight := weight);
    OthersKept(s.rbs, qp, rb);
    OthersKept(s.rbs, qp, s.rbs[qp]);
    assert s.rbs[qp := s.rbs[qp]] == s.rbs;
    var r := Reweighed(s, qp, weight);
    assert r.rbs[qp] == rb && forall i :: 0 <= i < numQueues && i != qp ==> r.rbs[i] == s.rbs[i];
  }

  /** The search of a detach: the first attached ring. */
  method FirstAttached(rbs: seq<Rb>) returns (i: nat)
    ensures i <= |rbs| && forall k :: 0 <= k < i ==> rbs[k].addr == 0
    ensures i < |rbs| ==> rbs[i].addr != 0
  {
    i := 0;
    while i < |rbs| && rbs[i].addr == 0
      invariant i <= |rbs| && forall k :: 0 <= k < i ==> rbs[k].addr == 0
    {
      i := i + 1;
    }
  }

  /** Detaches a ring. */
  method Detach(s: Space, qp: nat) returns (r: Space)
    requires qp < |s.rbs|
    ensures IsDetached(s, qp, r)
  {
    var rbs := s.rbs[qp := Detached];
    var turn := s.turn;
    var i := FirstAttached(rbs);
    if i < |rbs| {
      if turn.active == qp {
        turn := Turn(i, rbs[i].weight);
      }
    } else {
      turn := turn.(active := |rbs|);
    }
    r := Space(turn, rbs, s.mem);
  }
}
