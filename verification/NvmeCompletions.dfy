/** Completion queue entries on the DPA (dpa/dpa_nvme_mp.c): entries are built in a shadow ring with a phase bit that
    tells the host which of them are new, and pushed to the host's ring (section 4.6 of the NVM Express Base
    Specification 1.4). */
module NvmeCompletions {
  import opened Arith
  import opened CyclicCopy

  /** A completion message, and the queue entry made of it. */
  datatype Message = Message(result: nat, cid: nat, status: nat)
  datatype Entry = Entry(result: nat, sqHead: nat, sqId: nat, cid: nat, status: nat)

  const MAX_POLL: nat := 64
  const U16: nat := 0x1_0000

  /** `t / depth`: how often the ring has been filled before entry `t`. */
  function Lap(t: nat, depth: nat): nat
    requires depth > 0
    decreases t
  {
    if t < depth then 0 else 1 + Lap(t - depth, depth)
  }

  /** The phase bit of entry `t`: 1 on the first lap, then alternating. */
  function PhaseOf(t: nat, depth: nat): (p: nat)
    requires depth > 0
    ensures p <= 1
  {
    (Lap(t, depth) + 1) % 2
  }

  lemma {:induction false} LapIsQuotient(t: nat, depth: nat)
    requires depth > 0
    ensures t == Lap(t, depth) * depth + Wrap(t, depth)
    decreases t
  {
    if t >= depth {
      LapIsQuotient(t - depth, depth);
      assert (1 + Lap(t - depth, depth)) * depth == depth + Lap(t - depth, depth) * depth;
    }
  }

  lemma {:induction false} NextPlace(t: nat, depth: nat)
    requires depth > 0
    ensures Wrap(t + 1, depth) == if Wrap(t, depth) + 1 == depth then 0 else Wrap(t, depth) + 1
    ensures Lap(t + 1, depth) == Lap(t, depth) + (if Wrap(t, depth) + 1 == depth then 1 else 0)
    decreases t
  {
    if t >= depth {
      NextPlace(t - depth, depth);
    }
  }

  lemma NextPhase(t: nat, depth: nat)
    requires depth > 0
    ensures PhaseOf(t + 1, depth) == if Wrap(t + 1, depth) == 0 then 1 - PhaseOf(t, depth) else PhaseOf(t, depth)
  {
    NextPlace(t, depth);
  }

  /** When a slot is used again, its phase bit is the opposite. */
  lemma PhaseAlternates(t: nat, depth: nat)
    requires depth > 0
    ensures Wrap(t + depth, depth) == Wrap(t, depth) && PhaseOf(t + depth, depth) == 1 - PhaseOf(t, depth)
  {
  }

  /** `status | phase`. */
  function WithPhase(status: nat, phase: nat): nat
    requires phase <= 1
  {
    if status % 2 == 1 then status else status + phase
  }

  /** The entry shows the right phase if and only if the message left bit 0 of its status clear, or the phase is 1. */
  lemma PhaseShows(status: nat, phase: nat)
    requires phase <= 1
    ensures WithPhase(status, phase) % 2 == phase <==> status % 2 == 0 || phase == 1
    ensures status % 2 == 0 ==> WithPhase(status, phase) - phase == status
  {
  }

  /** The answer to an unknown namespace has an odd status code, so on every second lap it shows the wrong phase. */
  lemma InvalidNamespaceShowsWrongPhase()
    ensures WithPhase(0x000b, 0) % 2 == 1
  {
  }

  /** The `t`-th entry that the device makes, in a queue whose submission side has the number `sqId` and `sqDepth` slots. */
  function EntryOf(m: Message, t: nat, depth: nat, sqDepth: nat, sqId: nat): Entry
    requires depth > 0 && sqDepth > 0
  {
    Entry(m.result, Wrap(t + 1, sqDepth), sqId, m.cid, WithPhase(m.status, PhaseOf(t, depth)))
  }

  /** What the host must read in the slot of the `t`-th message: its result, its command and the queue it came from, how far
      the submission queue has been consumed, its status, and a phase bit that changes with every lap. */
  predicate Tells(e: Entry, m: Message, t: nat, depth: nat, sqDepth: nat, sqId: nat)
    requires depth > 0 && sqDepth > 0
  {
    && e.result == m.result && e.cid == m.cid && e.sqId == sqId && e.sqHead == (t + 1) % sqDepth
    && e.status / 2 == m.status / 2
    && (m.status % 2 == 0 ==> e.status % 2 == (t / depth + 1) % 2)
  }

  lemma LapIsDivision(t: nat, depth: nat)
    requires depth > 0
    ensures Lap(t, depth) == t / depth
  {
    LapIsQuotient(t, depth);
    DivisionIdentity(t, depth);
    MulGap(Lap(t, depth), t / depth, depth);
    MulGap(t / depth, Lap(t, depth), depth);
  }

  lemma EntryTells(m: Message, t: nat, depth: nat, sqDepth: nat, sqId: nat)
    requires depth > 0 && sqDepth > 0
    ensures Tells(EntryOf(m, t, depth, sqDepth, sqId), m, t, depth, sqDepth, sqId)
  {
    WrapIsMod(t + 1, sqDepth);
    LapIsDivision(t, depth);
    PhaseShows(m.status, PhaseOf(t, depth));
  }

  // ---------------------------------------------------------------- room in the ring

  /** The free slots of the ring: one slot always stays free. */
  function Free(head: nat, tail: nat, depth: nat): nat
    requires head < depth && tail < depth
  {
    if head > tail then head - tail - 1 else depth - 1 - (tail - head)
  }

  /** The remainder of C: it takes the sign of the dividend. */
  function Remainder(x: int, n: nat): int
    requires n > 0
  {
    if x >= 0 then x % n else -((-x) % n)
  }

  /** How many slots the poll loop believes to be free. The operands are 16 bits wide, so the difference is computed as
      a signed int, whose remainder keeps its sign, and is then cut to 16 bits. */
  function BelievedFree(head: nat, tail: nat, depth: nat): nat
    requires head < depth && tail < depth < U16
  {
    if head > tail then head - tail - 1
    else if head == 0 && tail == depth - 1 then 0
    else U16 + head - tail - 1
  }

  /** That is what the expression of the source comes to. */
  lemma BelievedFreeIsExpression(head: nat, tail: nat, depth: nat)
    requires head < depth && tail < depth < U16
    ensures var rem := Remainder(head - tail - 1, depth);
            BelievedFree(head, tail, depth) == if rem < 0 then U16 + rem else rem
  {
    if head > tail {
      WrapIsMod(head - tail - 1, depth);
    } else {
      WrapIsMod(tail + 1 - head, depth);
    }
  }

  /** The belief is right if and only if the head is beyond the tail, or the tail is at the end and the head at the
      beginning. */
  lemma BeliefIsRight(head: nat, tail: nat, depth: nat)
    requires head < depth && tail < depth < U16
    ensures BelievedFree(head, tail, depth) == Free(head, tail, depth)
            <==> head > tail || (head == 0 && tail == depth - 1)
  {
  }

  /** An empty ring of four slots: the poll loop believes in more than it has, and takes four entries into three slots. */
  lemma EmptyRingOverrun()
    ensures Free(0, 0, 4) == 3 && BelievedFree(0, 0, 4) == 0xFFFF && Polled(0, 0, 4, 4) == 4
  {
  }

  function Min(a: nat, b: nat): nat {
    if a < b then a else b
  }

  /** The number of messages that polling one queue with `waiting` messages takes, 64 at a time. */
  function Polled(head: nat, tail: nat, depth: nat, waiting: nat): (n: nat)
    requires head < depth && tail < depth < U16
    ensures n <= waiting
    decreases waiting
  {
    var n := Batch(head, tail, depth, waiting);
    if n == MAX_POLL then n + Polled(head, Wrap(tail + n, depth), depth, waiting - n) else n
  }

  /** What one poll takes. */
  function Batch(head: nat, tail: nat, depth: nat, waiting: nat): nat
    requires head < depth && tail < depth < U16
  {
    Min(Min(BelievedFree(head, tail, depth), MAX_POLL), waiting)
  }

  lemma PolledStep(head: nat, tail: nat, depth: nat, waiting: nat)
    requires head < depth && tail < depth < U16
    ensures var n := Batch(head, tail, depth, waiting);
            && n <= waiting
            && Polled(head, tail, depth, waiting)
               == if n == MAX_POLL then n + Polled(head, Wrap(tail + n, depth), depth, waiting - n) else n
  {
  }

  /** The number taken from all queues in turn. */
  function PolledAll(head: nat, tail: nat, depth: nat, waiting: seq<nat>): nat
    requires head < depth && tail < depth < U16
    decreases |waiting|
  {
    if waiting == [] then 0
    else
      var n := Polled(head, tail, depth, waiting[0]);
      n + PolledAll(head, Wrap(tail + n, depth), depth, waiting[1..])
  }

  /** The positions from which polling cannot overrun the ring. */
  predicate Safe(head: nat, tail: nat, depth: nat) {
    head > tail || head >= MAX_POLL || (head == 0 && tail == depth - 1)
  }

  /** So many entries fit into the free slots, and leave a safe position with so many fewer. */
  ghost predicate FitsIn(head: nat, tail: nat, depth: nat, n: nat)
    requires head < depth && tail < depth
  {
    && n <= Free(head, tail, depth) && Safe(head, Wrap(tail + n, depth), depth)
    && Free(head, Wrap(tail + n, depth), depth) == Free(head, tail, depth) - n
  }

  lemma FitsTwice(head: nat, tail: nat, depth: nat, n: nat, more: nat)
    requires head < depth && tail < depth && FitsIn(head, tail, depth, n)
    requires FitsIn(head, Wrap(tail + n, depth), depth, more)
    ensures FitsIn(head, tail, depth, n + more)
  {
    WrapAdd(tail + n, more, depth);
    assert tail + (n + more) == tail + n + more;
  }

  /** One batch of at most 64 from a safe position fits, and leads to a safe position with so many fewer free slots. */
  lemma BatchFits(head: nat, tail: nat, depth: nat, n: nat)
    requires head < depth && tail < depth < U16 && Safe(head, tail, depth)
    requires n <= Min(BelievedFree(head, tail, depth), MAX_POLL)
    ensures FitsIn(head, tail, depth, n)
  {
    assert tail + n < 2 * depth;
    assert Wrap(tail + n, depth) == if tail + n < depth then tail + n else tail + n - depth;
  }

  lemma {:induction false} PolledFits(head: nat, tail: nat, depth: nat, waiting: nat, n: nat)
    requires head < depth && tail < depth < U16 && Safe(head, tail, depth)
    requires n == Polled(head, tail, depth, waiting)
    ensures FitsIn(head, tail, depth, n)
    decreases waiting
  {
    var first := Batch(head, tail, depth, waiting);
    BatchFits(head, tail, depth, first);
    PolledStep(head, tail, depth, waiting);
    if first == MAX_POLL {
      var next := Wrap(tail + first, depth);
      assert next < depth && Safe(head, next, depth);
      PolledFits(head, next, depth, waiting - first, n - first);
      FitsTwice(head, tail, depth, first, n - first);
    }
  }

  lemma {:induction false} PolledAllFits(head: nat, tail: nat, depth: nat, waiting: seq<nat>)
    requires head < depth && tail < depth < U16 && Safe(head, tail, depth)
    ensures PolledAll(head, tail, depth, waiting) <= Free(head, tail, depth)
    decreases |waiting|
  {
    if waiting != [] {
      PolledFits(head, tail, depth, waiting[0], Polled(head, tail, depth, waiting[0]));
      PolledAllFits(head, Wrap(tail + Polled(head, tail, depth, waiting[0]), depth), depth, waiting[1..]);
    }
  }

  /** Before the tail wraps around, polling behind the head takes everything that waits. */
  lemma {:induction false} PolledTakesAll(head: nat, tail: nat, depth: nat, waiting: nat)
    requires head <= tail < depth < U16 && tail + waiting < depth
    requires head > 0 || tail + waiting < depth - 1
    ensures Polled(head, tail, depth, waiting) == waiting
    decreases waiting
  {
    PolledStep(head, tail, depth, waiting);
    if waiting >= MAX_POLL {
      PolledTakesAll(head, tail + MAX_POLL, depth, waiting - MAX_POLL);
    }
  }

  /** From an unsafe position some load of the queues overruns the ring. */
  lemma UnsafeOverruns(head: nat, tail: nat, depth: nat) returns (waiting: seq<nat>)
    requires head < depth && tail < depth < U16 && !Safe(head, tail, depth)
    ensures PolledAll(head, tail, depth, waiting) > Free(head, tail, depth)
  {
    var target := if head > 0 then depth - 1 else depth - 2;
    var first := target - tail;
    var second := if head > 0 then head + 1 else 2;
    PolledTakesAll(head, tail, depth, first);
    assert Polled(head, target, depth, second) == second;
    waiting := [first, second];
    assert waiting[1..] == [second] && [second][1..] == [];
    assert PolledAll(head, target, depth, [second]) == second;
  }

  /** Produced minus consumed stays below the depth, whatever waits in the polled queues, if and only if the position is
      safe: the head is beyond the tail, or at least 64, or the ring is full at the wrap-around. */
  lemma NoOverrunExactlyIfSafe(head: nat, tail: nat, depth: nat)
    requires head < depth && tail < depth < U16
    ensures (forall waiting :: PolledAll(head, tail, depth, waiting) <= Free(head, tail, depth))
            <==> Safe(head, tail, depth)
  {
    if Safe(head, tail, depth) {
      forall waiting ensures PolledAll(head, tail, depth, waiting) <= Free(head, tail, depth) {
        PolledAllFits(head, tail, depth, waiting);
      }
    } else {
      var waiting := UnsafeOverruns(head, tail, depth);
    }
  }

  // ---------------------------------------------------------------- the queue

  /** `count` of `waiting` messages have been taken, and with what further polls bring, if there are any, `whole` will be. */
  ghost predicate StillToPoll(head: nat, tail: nat, depth: nat, waiting: nat, count: nat, more: bool, whole: nat) {
    && head < depth && tail < depth < U16 && count <= waiting
    && whole == count + if more then Polled(head, tail, depth, waiting - count) else 0
  }

  lemma PolledOn(head: nat, tail: nat, depth: nat, waiting: nat, count: nat, whole: nat, t: nat, n: nat,
                 newTail: nat)
    requires StillToPoll(head, tail, depth, waiting, count, true, whole)
    requires n == Batch(head, tail, depth, waiting - count)
    requires tail == Wrap(t, depth) && newTail == Wrap(t + n, depth)
    ensures StillToPoll(head, newTail, depth, waiting, count + n, n == MAX_POLL, whole)
  {
    WrapAdd(t, n, depth);
    PolledStep(head, tail, depth, waiting - count);
  }

  /** The messages taken from the queues in turn, by the counts of `Polled`. */
  ghost function Taken(head: nat, tail: nat, depth: nat, queues: seq<seq<Message>>): (r: seq<Message>)
    requires head < depth && tail < depth < U16
    decreases |queues|
  {
    if queues == [] then []
    else
      var n := Polled(head, tail, depth, |queues[0]|);
      queues[0][..n] + Taken(head, Wrap(tail + n, depth), depth, queues[1..])
  }

  /** The last entries made, as many as the ring has slots, are in the shadow ring: entry `t` in slot `t % depth` with the
      phase of its lap. */
  ghost predicate Recent(shadow: seq<Entry>, made: seq<Message>, sqDepth: nat, sqId: nat) {
    && |shadow| > 0 && sqDepth > 0
    && forall t {:trigger made[t]} :: 0 <= t < |made| && |made| - |shadow| <= t ==>
         shadow[Wrap(t, |shadow|)] == EntryOf(made[t], t, |shadow|, sqDepth, sqId)
  }

  /** Writing the next entry to the next slot keeps the others that are still recent. */
  lemma RecentGrows(shadow: seq<Entry>, made: seq<Message>, sqDepth: nat, sqId: nat, m: Message)
    requires Recent(shadow, made, sqDepth, sqId)
    ensures var t, depth := |made|, |shadow|;
            Recent(shadow[Wrap(t, depth) := EntryOf(m, t, depth, sqDepth, sqId)], made + [m], sqDepth, sqId)
  {
    var t, depth := |made|, |shadow|;
    forall k | 0 <= k < t && t + 1 - depth <= k ensures Wrap(k, depth) != Wrap(t, depth) {
      if Wrap(k, depth) == Wrap(t, depth) {
        ResidueInjective(k, t, depth);
      }
    }
  }

  class CompletionQueue {
    const depth: nat
    const sqDepth: nat
    const sqId: nat
    const shadow: array<Entry>
    const host: array<Entry>
    var tail: nat
    var phase: nat
    var sqHead: nat
    var hostHead: nat
    ghost var made: seq<Message>

    ghost predicate Valid()
      reads this, shadow
    {
      && 0 < depth < U16 && 0 < sqDepth && shadow.Length == host.Length == depth && shadow != host
      && tail == Wrap(|made|, depth) && phase == PhaseOf(|made|, depth) && sqHead == Wrap(|made|, sqDepth)
      && hostHead < depth
      && Recent(shadow[..], made, sqDepth, sqId)
    }

    constructor (depth: nat, sqDepth: nat, sqId: nat, shadow: array<Entry>, host: array<Entry>)
      requires 0 < depth < U16 && 0 < sqDepth && shadow.Length == host.Length == depth && shadow != host
      ensures Valid() && made == [] && this.shadow == shadow && this.host == host && phase == 1 && HostRecent()
    {
      this.depth, this.sqDepth, this.sqId, this.shadow, this.host := depth, sqDepth, sqId, shadow, host;
      tail, phase, sqHead, hostHead := 0, 1, 0, 0;
      made := [];
    }

    /** The host's ring has the entries of the last messages too. */
    ghost predicate HostRecent()
      reads this, host
    {
      Recent(host[..], made, sqDepth, sqId)
    }

    /** Every message still in the ring is told to the host in the slot of its number. */
    lemma HostSees(t: nat)
      requires Valid() && HostRecent() && t < |made| && |made| - depth <= t
      ensures Tells(host[t % depth], made[t], t, depth, sqDepth, sqId)
    {
      WrapIsMod(t, depth);
      EntryTells(made[t], t, depth, sqDepth, sqId);
      assert host[..][Wrap(t, depth)] == EntryOf(made[t], t, depth, sqDepth, sqId);
    }

    /** Makes the entry of one message. */
    method Handle(m: Message)
      requires Valid()
      modifies this`tail, this`phase, this`sqHead, this`made, shadow
      ensures Valid() && made == old(made) + [m]
      ensures tail == if old(tail) + 1 == depth then 0 else old(tail) + 1
      ensures old(tail) == |old(made)| % depth && Tells(shadow[old(tail)], m, |old(made)|, depth, sqDepth, sqId)
      ensures forall j :: 0 <= j < depth && j != old(tail) ==> shadow[j] == old(shadow[j])
    {
      ghost var ring := shadow[..];
      NextPlace(|made|, depth);
      NextPlace(|made|, sqDepth);
      NextPhase(|made|, depth);
      WrapIsMod(|made|, depth);
      EntryTells(m, |made|, depth, sqDepth, sqId);
      RecentGrows(ring, made, sqDepth, sqId, m);
      sqHead := if sqHead + 1 == sqDepth then 0 else sqHead + 1;
      shadow[tail] := Entry(m.result, sqHead, sqId, m.cid, WithPhase(m.status, phase));
      assert shadow[..] == ring[tail := EntryOf(m, |made|, depth, sqDepth, sqId)];
      tail := if tail + 1 == depth then 0 else tail + 1;
      phase := if tail == 0 then 1 - phase else phase;
      made := made + [m];
    }

    /** Makes the entries of several messages. */
    method HandleAll(ms: seq<Message>)
      requires Valid()
      modifies this`tail, this`phase, this`sqHead, this`made, shadow
      ensures Valid() && made == old(made) + ms
      ensures Untouched(old(shadow[..]), shadow[..], old(tail), |ms|)
    {
      ghost var tail0, ring := tail, shadow[..];
      for i := 0 to |ms|
        invariant Valid() && made == old(made) + ms[..i]
        invariant i <= depth ==> tail == Ring(tail0 + i, depth)
        invariant Untouched(ring, shadow[..], tail0, i)
      {
        ghost var before, at := shadow[..], tail;
        Handle(ms[i]);
        SliceOn(old(made), ms, i, 1);
        TouchedNext(ring, before, tail0, i, at, shadow[..]);
      }
      assert ms[..|ms|] == ms;
    }

    /** Only the slots of the entries made since the `base`-th may differ from `ring`. */
    ghost predicate Since(ring: seq<Entry>, base: nat)
      reads this, shadow
    {
      depth > 0 && base <= |made| && Untouched(ring, shadow[..], Wrap(base, depth), |made| - base)
    }

    /** Makes the entries of `ms` after others. */
    method HandleMore(ms: seq<Message>, ghost ring: seq<Entry>, ghost base: nat)
      requires Valid() && Since(ring, base)
      modifies this`tail, this`phase, this`sqHead, this`made, shadow
      ensures Valid() && Since(ring, base) && made == old(made) + ms
    {
      ghost var before, at := shadow[..], tail;
      HandleAll(ms);
      WrapAdd(base, |old(made)| - base, depth);
      UntouchedCompose(ring, before, shadow[..], Wrap(base, depth), |old(made)| - base, at, |ms|);
    }

    /** One poll: takes the next batch of the messages `ms`, of which `count` have been taken. */
    method PollOnce(ms: seq<Message>, count: nat, ghost ring: seq<Entry>, ghost base: nat) returns (n: nat)
      requires Valid() && Since(ring, base) && count <= |ms|
      modifies this`tail, this`phase, this`sqHead, this`made, shadow
      ensures n == Batch(hostHead, old(tail), depth, |ms| - count) && count + n <= |ms|
      ensures Valid() && Since(ring, base) && made == old(made) + ms[count..count + n]
    {
      n := Batch(hostHead, tail, depth, |ms| - count);
      HandleMore(ms[count..count + n], ring, base);
    }

    /** Polls one queue in which the messages `ms` wait, 64 at a time, until a poll brings fewer. */
    method Poll(ms: seq<Message>, ghost ring: seq<Entry>, ghost base: nat) returns (count: nat)
      requires Valid() && Since(ring, base)
      modifies this`tail, this`phase, this`sqHead, this`made, shadow
      ensures Valid() && Since(ring, base) && count <= |ms|
      ensures count == Polled(hostHead, old(tail), depth, |ms|) && made == old(made) + ms[..count]
    {
      ghost var whole := Polled(hostHead, tail, depth, |ms|);
      count := 0;
      var more := true;
      while more
        invariant Valid() && Since(ring, base)
        invariant StillToPoll(hostHead, tail, depth, |ms|, count, more, whole)
        invariant made == old(made) + ms[..count]
        decreases more, |ms| - count
      {
        ghost var t, at := |made|, tail;
        var n := PollOnce(ms, count, ring, base);
        PolledOn(hostHead, at, depth, |ms|, count, whole, t, n, tail);
        SliceOn(old(made), ms, count, n);
        count := count + n;
        more := n == MAX_POLL;
      }
    }

    /** Polls all queues in turn. */
    method PollAll(queues: seq<seq<Message>>) returns (num: nat)
      requires Valid()
      modifies this`tail, this`phase, this`sqHead, this`made, shadow
      ensures Valid() && num == |Taken(hostHead, old(tail), depth, queues)|
      ensures made == old(made) + Taken(hostHead, old(tail), depth, queues)
      ensures Untouched(old(shadow[..]), shadow[..], old(tail), num)
    {
      ghost var base, ring, whole := |made|, shadow[..], Taken(hostHead, tail, depth, queues);
      ghost var taken: seq<Message> := [];
      num := 0;
      assert queues[0..] == queues;
      for i := 0 to |queues|
        invariant Valid() && Since(ring, base) && made == old(made) + taken && num == |taken|
        invariant Remains(hostHead, tail, depth, queues[i..], taken, whole)
      {
        ghost var t, at := |made|, tail;
        var n := Poll(queues[i], ring, base);
        NextLoad(hostHead, at, depth, queues, i, taken, whole, t, n, tail);
        TakeOn(old(made), taken, queues[i][..n]);
        taken, num := taken + queues[i][..n], num + n;
      }
    }

    /** One round of completion handling: reads the host's head, makes the entries of what waits, and pushes them to the
        host. The entries fit into the free slots if the position is safe, and afterwards the host's ring has the entries
        of the last messages if it had before. What is pushed must stay inside the rings: see `CyclicCopy.LastTransferInside`; and
        the count has 16 bits. */
    method HandleCompletions(head: nat, queues: seq<seq<Message>>) returns (num: nat)
      requires Valid() && head < depth && |Taken(head, tail, depth, queues)| <= depth + (depth - tail)
      requires |Taken(head, tail, depth, queues)| < U16
      modifies this`tail, this`phase, this`sqHead, this`made, this`hostHead, shadow, host
      ensures Valid() && made == old(made) + Taken(head, old(tail), depth, queues)
      ensures num == |Taken(head, old(tail), depth, queues)|
      ensures Safe(head, old(tail), depth) ==> num <= Free(head, old(tail), depth)
      ensures old(HostRecent()) ==> HostRecent()
    {
      hostHead := head;
      var oldTail := tail;
      ghost var before, pushed := made, host[..];
      if Safe(head, tail, depth) {
        TakenFits(head, tail, depth, queues);
      }
      num := PollAll(queues);
      if num > 0 {
        var _ := CyclicWrite(shadow, host, oldTail, oldTail, num);
        if Recent(pushed, before, sqDepth, sqId) {
          RecentPushed(pushed, shadow[..], oldTail, num, host[..], before, made, sqDepth, sqId);
        }
      } else {
        assert made == before;
      }
    }
  }

  /** Message `t` lies `t - h` slots after message `h`, going around. */
  lemma PlacesApart(h: nat, t: nat, depth: nat)
    requires depth > 0 && h <= t < h + depth
    ensures Distance(Wrap(h, depth), Wrap(t, depth), depth) == t - h
  {
    WrapAdd(h, t - h, depth);
    RingIsWrap(Wrap(h, depth) + (t - h), depth);
  }

  lemma RingIsWrap(x: nat, depth: nat)
    requires x < 2 * depth
    ensures Wrap(x, depth) == Ring(x, depth)
  {
  }

  /** Pushing the slots of the new messages gives a ring that had the last messages before the last ones again. */
  lemma RecentPushed(a: seq<Entry>, b: seq<Entry>, from: nat, n: nat, r: seq<Entry>, before: seq<Message>,
                     made: seq<Message>, sqDepth: nat, sqId: nat)
    requires |a| == |b| > 0 && from == Wrap(|before|, |a|) && IsCyclicCopy(a, b, from, from, n, r)
    requires before <= made && |made| == |before| + n
    requires Recent(a, before, sqDepth, sqId) && Recent(b, made, sqDepth, sqId)
    ensures Recent(r, made, sqDepth, sqId)
  {
    var depth := |a|;
    forall t | 0 <= t < |made| && |made| - depth <= t
      ensures r[Wrap(t, depth)] == EntryOf(made[t], t, depth, sqDepth, sqId)
    {
      PushedOrOld(|before|, t, n, depth);
      assert t < |before| ==> made[t] == before[t];
    }
  }

  /** The slot of message `t` is among the `n` slots from that of message `h` on, or the message is older. */
  lemma PushedOrOld(h: nat, t: nat, n: nat, depth: nat)
    requires depth > 0 && h + n - depth <= t < h + n
    ensures var from, j := Wrap(h, depth), Wrap(t, depth);
            && Ring(from + Distance(from, j, depth), depth) == j
            && (Distance(from, j, depth) < n || t < h)
  {
    if h <= t < h + depth {
      PlacesApart(h, t, depth);
    }
  }

  /** The numbers of waiting messages. */
  function Loads(queues: seq<seq<Message>>): (r: seq<nat>)
    ensures |r| == |queues|
  {
    seq(|queues|, i requires 0 <= i < |queues| => |queues[i]|)
  }

  /** As many messages are taken as the count says. */
  lemma {:induction false} TakenCount(head: nat, tail: nat, depth: nat, queues: seq<seq<Message>>)
    requires head < depth && tail < depth < U16
    ensures |Taken(head, tail, depth, queues)| == PolledAll(head, tail, depth, Loads(queues))
    decreases |queues|
  {
    if queues != [] {
      var n := Polled(head, tail, depth, |queues[0]|);
      TakenCount(head, Wrap(tail + n, depth), depth, queues[1..]);
      assert Loads(queues)[1..] == Loads(queues[1..]);
    }
  }

  /** From a safe position the messages taken have room in the ring. */
  lemma TakenFits(head: nat, tail: nat, depth: nat, queues: seq<seq<Message>>)
    requires head < depth && tail < depth < U16 && Safe(head, tail, depth)
    ensures |Taken(head, tail, depth, queues)| <= Free(head, tail, depth)
  {
    TakenCount(head, tail, depth, queues);
    PolledAllFits(head, tail, depth, Loads(queues));
  }

  /** What is still to be taken completes what has been taken. */
  ghost predicate Remains(head: nat, tail: nat, depth: nat, queues: seq<seq<Message>>, taken: seq<Message>,
                          whole: seq<Message>)
  {
    head < depth && tail < depth < U16 && taken + Taken(head, tail, depth, queues) == whole
  }

  lemma NextLoad(head: nat, tail: nat, depth: nat, queues: seq<seq<Message>>, i: nat, taken: seq<Message>,
                 whole: seq<Message>, t: nat, n: nat, newTail: nat)
    requires i < |queues| && Remains(head, tail, depth, queues[i..], taken, whole)
    requires n == Polled(head, tail, depth, |queues[i]|)
    requires tail == Wrap(t, depth) && newTail == Wrap(t + n, depth)
    ensures Remains(head, newTail, depth, queues[i + 1..], taken + queues[i][..n], whole)
  {
    var rest := queues[i..];
    WrapAdd(t, n, depth);
    assert rest[0] == queues[i] && rest[1..] == queues[i + 1..];
    TakeOn(taken, rest[0][..n], Taken(head, newTail, depth, rest[1..]));
  }

  lemma TakeOn(a: seq<Message>, b: seq<Message>, c: seq<Message>)
    ensures a + (b + c) == a + b + c
  {
  }

  lemma SliceOn(base: seq<Message>, ms: seq<Message>, count: nat, n: nat)
    requires count + n <= |ms|
    ensures base + ms[..count] + ms[count..count + n] == base + ms[..count + n]
  {
  }

  lemma UntouchedCompose(a: seq<Entry>, b: seq<Entry>, c: seq<Entry>, from: nat, n: nat, at: nat, m: nat)
    requires Untouched(a, b, from, n) && Untouched(b, c, at, m) && at == Wrap(from + n, |a|)
    ensures Untouched(a, c, from, n + m)
  {
    if n + m <= |a| {
      assert at == Ring(from + n, |a|);
      forall j | 0 <= j < |a| && Distance(from, j, |a|) >= n + m ensures c[j] == a[j] {
        assert Distance(at, j, |a|) >= m || n == |a|;
      }
    }
  }

  /** Only the `n` slots from `from` on may differ. */
  ghost predicate Untouched(a: seq<Entry>, b: seq<Entry>, from: nat, n: nat) {
    && |a| == |b| && from < |a|
    && (n <= |a| ==> forall j :: 0 <= j < |a| && Distance(from, j, |a|) >= n ==> b[j] == a[j])
  }

  lemma TouchedNext(a: seq<Entry>, b: seq<Entry>, from: nat, n: nat, at: nat, c: seq<Entry>)
    requires Untouched(a, b, from, n) && at < |a| && |c| == |a|
    requires n <= |a| ==> at == Ring(from + n, |a|)
    requires forall j :: 0 <= j < |a| && j != at ==> c[j] == b[j]
    ensures Untouched(a, c, from, n + 1)
  {
  }
}
