/** The queue around the command machine (ctrl/virtq_common.c): arrival, completion in order of arrival, and
    the life cycle RUNNING, FLUSHING, SUSPENDED with restart from the host's used index.

    The snapshot of a queue also counts what the hardware indices only show modulo 2^16: how many requests the
    queue has accepted and how many the host's queue has handed over. */
module VirtqState {
  import opened Arith
  import opened BlkMachine

  const U16: nat := 0x1_0000

  datatype SwState = Running | Flushing | Suspended

  /** `laps * size == 2^16`: the queue size is a power of two. `accepted` requests have been taken by the queue,
      numbered from 0; `hostNext` is the number of the next request that the host's queue hands over. `exact` says that
      no restart has given a number to two requests. */
  datatype Queue = Queue(size: nat, laps: nat, cmds: seq<Cmd>, q: Counters, sw: SwState, avail: nat,
                         accepted: nat, hostNext: nat, exact: bool)

  ghost function BusySlots(cmds: seq<Cmd>): set<nat> {
    set s: nat | s < |cmds| && cmds[s].busy
  }

  /** The number of commands that wait for an operation of kind `op`. */
  ghost function Waiting(cmds: seq<Cmd>, op: Pending): nat {
    if cmds == [] then 0
    else Waiting(cmds[..|cmds| - 1], op) + One(cmds[|cmds| - 1].pending == op)
  }

  function One(b: bool): nat {
    if b then 1 else 0
  }

  lemma SizeWithout(a: set<nat>, s: nat)
    ensures |a - {s}| == |a| - One(s in a)
  {
    if s !in a {
      assert a - {s} == a;
    }
  }

  lemma BusyCount(cmds: seq<Cmd>, s: nat, d: Cmd)
    requires s < |cmds|
    ensures |BusySlots(cmds[s := d])| == |BusySlots(cmds)| - One(cmds[s].busy) + One(d.busy)
  {
    var n := cmds[s := d];
    assert forall t :: 0 <= t < |n| && t != s ==> n[t] == cmds[t];
    assert BusySlots(n) - {s} == BusySlots(cmds) - {s};
    SizeWithout(BusySlots(n), s);
    SizeWithout(BusySlots(cmds), s);
  }

  lemma {:induction false} WaitingCount(cmds: seq<Cmd>, s: nat, d: Cmd, op: Pending)
    requires s < |cmds|
    ensures Waiting(cmds[s := d], op) == Waiting(cmds, op) - One(cmds[s].pending == op) + One(d.pending == op)
  {
    var k := |cmds| - 1;
    if s == k {
      assert cmds[s := d][..k] == cmds[..k];
    } else {
      assert cmds[s := d][..k] == cmds[..k][s := d];
      WaitingCount(cmds[..k], s, d, op);
    }
  }

  lemma SlotCounts(cmds: seq<Cmd>, s: nat, d: Cmd)
    requires s < |cmds|
    ensures var n := cmds[s := d];
            && |BusySlots(n)| == |BusySlots(cmds)| - One(cmds[s].busy) + One(d.busy)
            && Waiting(n, HostDma) == Waiting(cmds, HostDma) - One(cmds[s].pending == HostDma) + One(d.pending == HostDma)
            && Waiting(n, Bdev) == Waiting(cmds, Bdev) - One(cmds[s].pending == Bdev) + One(d.pending == Bdev)
  {
    BusyCount(cmds, s, d);
    WaitingCount(cmds, s, d, HostDma);
    WaitingCount(cmds, s, d, Bdev);
  }

  /** A slot between events. An accepted command waits for an operation, stands in line, or is lost: none is
      forgotten. */
  ghost predicate Resting(c: Cmd, inOrder: bool, accepted: nat) {
    if c.busy then
      && c.id < accepted && c.availIdx == Wrap(c.id, U16)
      && (if c.pending != Nothing then
            && 1 <= Rank(c.state) <= 8 && c.state != ReadHeader
            && (c.pending != Bdev && c.state == WriteStatus && c.status == Good ==> c.executed)
            && (c.state == OutDataDone || c.state == InDataDone ==> c.pending == Bdev)
            && (c.pending == HostDma ==> AwaitsHost(c.state)) && (c.pending == MemPool ==> AwaitsPool(c)) && Traced(c)
          else c.state == FatalErr || (inOrder && c.state == SendInOrderComp && Going(c)))
    else
      c.pending == Nothing && c.state != SendInOrderComp
  }

  ghost predicate SlotsOk(v: Queue) {
    && |v.cmds| == v.size
    && (forall s :: 0 <= s < v.size ==> Resting(v.cmds[s], v.q.inOrder, v.accepted))
  }

  /** The counters of a queue are exact. */
  ghost predicate CountsOk(v: Queue) {
    && v.q.total == |BusySlots(v.cmds)| == v.accepted - |v.q.sent|
    && v.q.toHost == Waiting(v.cmds, HostDma)
    && v.q.inBdev == Waiting(v.cmds, Bdev)
    && (v.q.fatal == 0 ==> forall s :: 0 <= s < |v.cmds| && v.cmds[s].busy ==> v.cmds[s].state != FatalErr)
  }

  /** The 16-bit indices are the low bits of the counts, and the host never hands over more than a ring full. */
  ghost predicate IndicesOk(v: Queue) {
    && v.size > 0 && v.laps * v.size == U16
    && v.avail == Wrap(v.accepted, U16)
    && v.q.used == Wrap(|v.q.sent|, U16)
    && |v.q.sent| <= v.accepted <= v.hostNext <= |v.q.sent| + v.size
    && (v.sw == Running ==> v.hostNext == v.accepted)
  }

  /** Every request is completed at most once and never while a slot still holds it. */
  ghost predicate OnceOk(v: Queue) {
    && (forall i, j :: 0 <= i < j < |v.q.sent| ==> v.q.sent[i].id != v.q.sent[j].id)
    && (forall i :: 0 <= i < |v.q.sent| ==> v.q.sent[i].id < v.accepted)
    && (forall s, i :: 0 <= s < |v.cmds| && v.cmds[s].busy && 0 <= i < |v.q.sent| ==> v.q.sent[i].id != v.cmds[s].id)
    && (forall s, t :: 0 <= s < t < |v.cmds| && v.cmds[s].busy && v.cmds[t].busy ==> v.cmds[s].id != v.cmds[t].id)
  }

  /** Every completion with a good status is of a request that has been executed and served as its kind asks. */
  ghost predicate HonestOk(v: Queue) {
    forall i :: 0 <= i < |v.q.sent| ==> Honest(v.q.sent[i])
  }

  /** With forced order, completions go out in exact order of arrival and a request lives in the slot of its
      number. */
  ghost predicate OrderOk(v: Queue)
    requires v.size > 0
  {
    v.q.inOrder ==>
      && (forall i :: 0 <= i < |v.q.sent| ==> v.q.sent[i].id == i)
      && (forall s :: 0 <= s < |v.cmds| && v.cmds[s].busy ==> s == Wrap(v.cmds[s].id, v.size))
  }

  /** A suspended queue without lost commands has nothing left to do. */
  ghost predicate DrainedOk(v: Queue) {
    v.sw == Suspended && v.q.fatal == 0 ==> v.q.total == 0
  }

  /** Whether requests can be told apart by their numbers. */
  predicate Numbered(v: Queue) {
    v.exact || v.q.inOrder
  }

  ghost predicate Inv(v: Queue) {
    SlotsOk(v) && CountsOk(v) && IndicesOk(v) && (Numbered(v) ==> OnceOk(v)) && OrderOk(v) && DrainedOk(v)
    && HonestOk(v)
  }

  lemma Inc16Wraps(n: nat)
    ensures Wrap(n, U16) < U16 && Inc16(Wrap(n, U16)) == Wrap(n + 1, U16)
  {
    WrapAdd(n, 1, U16);
    assert Wrap(Wrap(n, U16) + 1, U16) == Inc16(Wrap(n, U16));
  }

  /** The slot of a 16-bit index is the slot of the full count. */
  lemma SlotOfIndex(n: nat, laps: nat, size: nat)
    requires size > 0 && laps * size == U16
    ensures Wrap(Wrap(n, U16), size) == Wrap(n, size)
  {
    WrapWrap(n, laps, U16, size);
  }

  /** A command whose operation has ended, before its run: `base` no longer counts the operation. */
  ghost predicate Resumed(v: Queue, s: nat, c: Cmd, base: Counters) {
    && s < |v.cmds| && v.cmds[s].busy && SameRequest(v.cmds[s], c) && Going(c)
    && base == v.q.(toHost := v.q.toHost - One(v.cmds[s].pending == HostDma),
                    inBdev := v.q.inBdev - One(v.cmds[s].pending == Bdev))
  }

  ghost function Updated(v: Queue, s: nat, d: Cmd, r: Counters): Queue
    requires s < |v.cmds|
  {
    v.(cmds := v.cmds[s := d], q := r)
  }

  /** A command that stays keeps its number. */
  lemma OnceKept(v: Queue, s: nat, d: Cmd, r: Counters)
    requires OnceOk(v) && s < |v.cmds| && v.cmds[s].busy && d.busy && d.id == v.cmds[s].id && r.sent == v.q.sent
    ensures OnceOk(Updated(v, s, d, r))
  {
  }

  lemma KeptWaiting(v: Queue, s: nat, c: Cmd, base: Counters, d: Cmd, r: Counters)
    requires Inv(v) && Resumed(v, s, c, base)
    requires SameRequest(c, d) && EndsWaiting(c, base, d, r)
    ensures Inv(Updated(v, s, d, r))
  {
    SlotCounts(v.cmds, s, d);
    if Numbered(v) {
      OnceKept(v, s, d, r);
    }
  }

  lemma KeptInLine(v: Queue, s: nat, c: Cmd, base: Counters, d: Cmd, r: Counters)
    requires Inv(v) && Resumed(v, s, c, base)
    requires SameRequest(c, d) && EndsInLine(c, base, d, r)
    ensures Inv(Updated(v, s, d, r))
  {
    SlotCounts(v.cmds, s, d);
    if Numbered(v) {
      OnceKept(v, s, d, r);
    }
  }

  lemma KeptDead(v: Queue, s: nat, c: Cmd, base: Counters, d: Cmd, r: Counters)
    requires Inv(v) && Resumed(v, s, c, base)
    requires SameRequest(c, d) && EndsDead(c, base, d, r)
    ensures Inv(Updated(v, s, d, r))
  {
    SlotCounts(v.cmds, s, d);
    if Numbered(v) {
      OnceKept(v, s, d, r);
    }
  }

  /** With forced order, the command whose 16-bit index is the next to complete is the oldest one: the indices
      cannot be confused because no more than a ring full of requests is under way. */
  lemma NextIsOldest(v: Queue, s: nat)
    requires Inv(v) && v.q.inOrder && s < |v.cmds| && v.cmds[s].busy && v.cmds[s].availIdx == v.q.used
    ensures v.cmds[s].id == |v.q.sent|
  {
    NotSentYet(v, s);
    RingBound(v.laps, v.size);
    ResidueInjective(|v.q.sent|, v.cmds[s].id, U16);
  }

  lemma RingBound(laps: nat, size: nat)
    requires laps * size == U16
    ensures size <= U16
  {
    if laps > 0 {
      MulAtLeast(laps, size);
    }
  }

  /** With forced order, a request that is under way is not older than those completed. */
  lemma NotSentYet(v: Queue, s: nat)
    requires OnceOk(v) && v.size > 0 && OrderOk(v) && v.q.inOrder && s < |v.cmds| && v.cmds[s].busy
    ensures v.cmds[s].id >= |v.q.sent|
  {
    var id, u := v.cmds[s].id, |v.q.sent|;
    if u > 0 {
      var k := if id < u then id else u - 1;
      assert v.q.sent[k].id == k && v.q.sent[k].id != id;
    }
  }

  lemma CompletedOnce(v: Queue, s: nat, d: Cmd, r: Counters)
    requires SlotsOk(v) && OnceOk(v) && s < |v.cmds| && v.cmds[s].busy && !d.busy
    requires |r.sent| == |v.q.sent| + 1 && r.sent == v.q.sent + [r.sent[|v.q.sent|]] && r.sent[|v.q.sent|].id == v.cmds[s].id
    ensures OnceOk(Updated(v, s, d, r))
  {
  }

  lemma KeptCompleted(v: Queue, s: nat, c: Cmd, base: Counters, d: Cmd, r: Counters)
    requires Inv(v) && Resumed(v, s, c, base) && base.used < U16
    requires SameRequest(c, d) && EndsCompleted(c, base, d, r)
    ensures Inv(Updated(v, s, d, r))
  {
    SlotCounts(v.cmds, s, d);
    Inc16Wraps(|v.q.sent|);
    if Numbered(v) {
      CompletedOnce(v, s, d, r);
    }
    if v.q.inOrder {
      NextIsOldest(v, s);
    }
  }

  /** The run of a command after the end of its operation keeps the queue consistent. */
  lemma RunKeeps(v: Queue, s: nat, c: Cmd, base: Counters, st: OpStatus, env: nat -> Env)
    requires Inv(v) && Resumed(v, s, c, base)
    ensures base.used < U16
    ensures var run := Run(c, base, st, env, 0); Inv(Updated(v, s, run.c, run.q))
  {
    Inc16Wraps(|v.q.sent|);
    RunEnds(c, base, st, env, 0);
    var run := Run(c, base, st, env, 0);
    var d, r := run.c, run.q;
    if EndsWaiting(c, base, d, r) {
      KeptWaiting(v, s, c, base, d, r);
    } else if EndsInLine(c, base, d, r) {
      KeptInLine(v, s, c, base, d, r);
    } else if EndsDead(c, base, d, r) {
      KeptDead(v, s, c, base, d, r);
    } else {
      KeptCompleted(v, s, c, base, d, r);
    }
  }

  /** With forced order and less than a ring full of requests under way, the slot of the next request is
      free. */
  lemma NextSlotIsFree(v: Queue)
    requires Inv(v) && v.q.inOrder && v.accepted < |v.q.sent| + v.size
    ensures Wrap(v.avail, v.size) == Wrap(v.accepted, v.size)
    ensures !v.cmds[Wrap(v.avail, v.size)].busy
  {
    SlotOfIndex(v.accepted, v.laps, v.size);
    var s := Wrap(v.accepted, v.size);
    if v.cmds[s].busy {
      NotSentYet(v, s);
      ResidueInjective(v.cmds[s].id, v.accepted, v.size);
    }
  }

  /** A queue that has just accepted a request into slot `s`; the new command counts as waiting until its first
      run. */
  ghost function Admitted(v: Queue, s: nat, c: Cmd): Queue
    requires s < |v.cmds| && v.avail < U16
  {
    v.(cmds := v.cmds[s := c.(pending := MemPool)], q := v.q.(total := v.q.total + 1),
       avail := Inc16(v.avail), accepted := v.accepted + 1, hostNext := v.hostNext + 1)
  }

  lemma KeptAdmitted(v: Queue, s: nat, c: Cmd)
    requires Inv(v) && v.sw == Running && v.hostNext < |v.q.sent| + v.size
    requires s < v.size && !v.cmds[s].busy && (v.q.inOrder ==> s == Wrap(v.accepted, v.size))
    requires Going(c) && c.state == FetchDescs && c.id == v.accepted && c.availIdx == v.avail
    ensures v.avail < U16 && Inv(Admitted(v, s, c))
    ensures Resumed(Admitted(v, s, c), s, c, v.q.(total := v.q.total + 1))
  {
    Inc16Wraps(v.accepted);
    SlotCounts(v.cmds, s, c.(pending := MemPool));
    AdmittedSlots(v, s, c);
    if Numbered(v) {
      AdmittedOnce(v, s, c);
    }
  }

  lemma AdmittedSlots(v: Queue, s: nat, c: Cmd)
    requires SlotsOk(v) && s < v.size && v.avail == Wrap(v.accepted, U16) < U16
    requires Going(c) && c.state == FetchDescs && c.id == v.accepted && c.availIdx == v.avail
    ensures SlotsOk(Admitted(v, s, c))
  {
  }

  lemma AdmittedOnce(v: Queue, s: nat, c: Cmd)
    requires SlotsOk(v) && OnceOk(v) && s < v.size && v.avail < U16
    requires c.busy && c.id == v.accepted
    ensures OnceOk(Admitted(v, s, c))
  {
    assert forall t :: 0 <= t < |v.cmds| && v.cmds[t].busy ==> Resting(v.cmds[t], v.q.inOrder, v.accepted);
  }

  ghost function SentIds(v: Queue): set<nat> {
    set i | 0 <= i < |v.q.sent| :: v.q.sent[i].id
  }

  ghost function HeldIds(v: Queue): set<nat> {
    set s | 0 <= s < |v.cmds| && v.cmds[s].busy :: v.cmds[s].id
  }

  lemma SentIdsCount(v: Queue)
    requires OnceOk(v)
    ensures |SentIds(v)| == |v.q.sent|
  {
    var at := Below(|v.q.sent|);
    var f := (i: nat) => if i < |v.q.sent| then v.q.sent[i].id else 0;
    forall a, b | a in at && b in at && a != b ensures f(a) != f(b) {
      assert a < b ==> v.q.sent[a].id != v.q.sent[b].id;
      assert b < a ==> v.q.sent[b].id != v.q.sent[a].id;
    }
    MapSize(at, f);
    forall x | x in SentIds(v) ensures x in MapSet(at, f) {
      var i :| 0 <= i < |v.q.sent| && v.q.sent[i].id == x;
      assert i in at && f(i) == x;
    }
    forall x | x in MapSet(at, f) ensures x in SentIds(v) {
      var i :| i in at && f(i) == x;
      assert v.q.sent[i].id == x;
    }
    assert SentIds(v) == MapSet(at, f);
  }

  lemma HeldIdsCount(v: Queue)
    requires OnceOk(v)
    ensures |HeldIds(v)| == |BusySlots(v.cmds)|
  {
    var at := BusySlots(v.cmds);
    var g := (s: nat) => if s < |v.cmds| then v.cmds[s].id else 0;
    forall a, b | a in at && b in at && a != b ensures g(a) != g(b) {
      assert a < b ==> v.cmds[a].id != v.cmds[b].id;
      assert b < a ==> v.cmds[b].id != v.cmds[a].id;
    }
    MapSize(at, g);
    forall x | x in HeldIds(v) ensures x in MapSet(at, g) {
      var s :| 0 <= s < |v.cmds| && v.cmds[s].busy && v.cmds[s].id == x;
      assert s in at && g(s) == x;
    }
    forall x | x in MapSet(at, g) ensures x in HeldIds(v) {
      var s :| s in at && g(s) == x;
      assert v.cmds[s].busy && v.cmds[s].id == x;
    }
    assert HeldIds(v) == MapSet(at, g);
  }

  /** Every accepted request has either been completed or is still held by a slot, and never both. */
  lemma EveryRequestAccounted(v: Queue)
    requires Inv(v) && Numbered(v)
    ensures SentIds(v) + HeldIds(v) == Below(v.accepted)
    ensures SentIds(v) !! HeldIds(v)
  {
    SentIdsCount(v);
    HeldIdsCount(v);
    var a, b := SentIds(v), HeldIds(v);
    forall x | x in a ensures x !in b {
      var i :| 0 <= i < |v.q.sent| && v.q.sent[i].id == x;
    }
    assert |a + b| == |a| + |b|;
    forall x | x in a + b ensures x in Below(v.accepted) {
      if x in a {
        var i :| 0 <= i < |v.q.sent| && v.q.sent[i].id == x;
      } else {
        var s :| 0 <= s < |v.cmds| && v.cmds[s].busy && v.cmds[s].id == x;
        assert Resting(v.cmds[s], v.q.inOrder, v.accepted);
      }
    }
    SubsetSize(a + b, Below(v.accepted));
  }

  /** A queue suspended without losing a command has completed every request it accepted, once each, and has no
      operation left on the host or the backend. */
  lemma SuspendedIsComplete(v: Queue)
    requires Inv(v) && v.sw == Suspended && v.q.fatal == 0
    ensures |v.q.sent| == v.accepted && (Numbered(v) ==> SentIds(v) == Below(v.accepted))
    ensures v.q.toHost == 0 && v.q.inBdev == 0 && Waiting(v.cmds, MemPool) == 0
  {
    NothingBusy(v);
    if Numbered(v) {
      EveryRequestAccounted(v);
      HeldIdsCount(v);
    }
  }

  lemma NothingBusy(v: Queue)
    requires SlotsOk(v) && |BusySlots(v.cmds)| == 0
    ensures Waiting(v.cmds, HostDma) == 0 && Waiting(v.cmds, Bdev) == 0 && Waiting(v.cmds, MemPool) == 0
  {
    forall s: nat | s < |v.cmds| ensures v.cmds[s].pending == Nothing {
      assert s !in BusySlots(v.cmds);
      assert Resting(v.cmds[s], v.q.inOrder, v.accepted);
    }
    NoneWaiting(v.cmds, HostDma);
    NoneWaiting(v.cmds, Bdev);
    NoneWaiting(v.cmds, MemPool);
  }

  lemma {:induction false} NoneWaiting(cmds: seq<Cmd>, op: Pending)
    requires op != Nothing && forall s :: 0 <= s < |cmds| ==> cmds[s].pending == Nothing
    ensures Waiting(cmds, op) == 0
  {
    if cmds != [] {
      NoneWaiting(cmds[..|cmds| - 1], op);
    }
  }

  /** With forced order the requests under way are the ones after those completed, each in the slot of its own
      number: no two of them share a slot. */
  lemma InOrderSlots(v: Queue, id: nat)
    requires Inv(v) && v.q.inOrder && |v.q.sent| <= id < v.accepted
    ensures v.cmds[Wrap(id, v.size)].busy && v.cmds[Wrap(id, v.size)].id == id
  {
    EveryRequestAccounted(v);
    assert id !in SentIds(v);
    var s :| 0 <= s < |v.cmds| && v.cmds[s].busy && v.cmds[s].id == id;
  }

  // ---------------------------------------------------------------- at rest

  /** The commands that wait for anything. */
  ghost function Unsettled(v: Queue): nat {
    Waiting(v.cmds, HostDma) + Waiting(v.cmds, Bdev) + Waiting(v.cmds, MemPool)
  }

  /** A command that ran because what it waited for has come waits at most for one more thing: without arrivals, the commands
      that wait become no more. */
  lemma RunSettles(v: Queue, s: nat, d: Cmd, r: Counters)
    requires s < |v.cmds| && v.cmds[s].pending != Nothing
    ensures Unsettled(Updated(v, s, d, r)) <= Unsettled(v)
  {
    WaitingCount(v.cmds, s, d, HostDma);
    WaitingCount(v.cmds, s, d, Bdev);
    WaitingCount(v.cmds, s, d, MemPool);
  }

  /** The buffer that a command waits for comes, and the command then has an operation on the host or the backend under
      way. */
  ghost predicate ActsAgain(v: Queue, s: nat, env: nat -> Env)
    requires v.q.used < U16
  {
    && s < |v.cmds| && v.cmds[s].pending == MemPool
    && var run := Run(v.cmds[s].(pending := Nothing), v.q, OpOk, env, 0); run.q.toHost + run.q.inBdev > 0
  }

  lemma {:induction false} SomeWaits(cmds: seq<Cmd>, op: Pending) returns (s: nat)
    requires Waiting(cmds, op) > 0
    ensures s < |cmds| && cmds[s].pending == op
  {
    var k := |cmds| - 1;
    if cmds[k].pending == op {
      s := k;
    } else {
      s := SomeWaits(cmds[..k], op);
    }
  }

  lemma {:induction false} WaitsCounts(cmds: seq<Cmd>, op: Pending, s: nat)
    requires s < |cmds| && cmds[s].pending == op
    ensures Waiting(cmds, op) > 0
  {
    var k := |cmds| - 1;
    if s < k {
      WaitsCounts(cmds[..k], op, s);
    }
  }

  /** Answers with which every command that waited for a buffer posts an operation. */
  const Willing := Env(FetchRead, false, true, Out, false, true, true, true, true, false, false, true, true, true, true, false)

  lemma PoolWaitActs(c: Cmd, q: Counters)
    requires q.used < U16 && q.toHost == 0 && q.inBdev == 0 && AwaitsPool(c)
    ensures var run := Run(c.(pending := Nothing), q, OpOk, _ => Willing, 0); run.q.toHost + run.q.inBdev == 1
  {
    var s := Handle(c.(pending := Nothing), q, OpOk, Willing);
    assert !s.repeat && s.q.toHost + s.q.inBdev == 1;
  }

  /** A queue that has come to rest, with no operation under way, can have one again if and only if a command waits for a
      buffer from the memory pool. */
  lemma RestIsBrokenExactlyIf(v: Queue)
    requires Inv(v) && v.q.toHost == 0 && v.q.inBdev == 0
    ensures v.q.used < U16
    ensures (exists s: nat, env: nat -> Env :: ActsAgain(v, s, env)) <==> Waiting(v.cmds, MemPool) > 0
  {
    Inc16Wraps(|v.q.sent|);
    if Waiting(v.cmds, MemPool) > 0 {
      var s := SomeWaits(v.cmds, MemPool);
      assert Resting(v.cmds[s], v.q.inOrder, v.accepted);
      PoolWaitActs(v.cmds[s], v.q);
      assert ActsAgain(v, s, _ => Willing);
    } else if s: nat, env: nat -> Env :| ActsAgain(v, s, env) {
      WaitsCounts(v.cmds, MemPool, s);
      assert false;
    }
  }

  /** A queue of two slots that came to rest with one command lost and one, a write, waiting for a buffer. */
  const LostAndWaiting := Queue(2, 32768,
                                [Cmd(FatalErr, 0, 0, true, Nothing, IoErr, false, Out, false, Then(Begin, HeaderRead)),
                                 Cmd(ReadData, 1, 1, true, MemPool, Good, false, Out, false, Then(Begin, HeaderRead))],
                                Counters(0, false, 2, 0, 0, 1, []), Suspended, 2, 2, 2, true)

  /** It is consistent, and when the buffer comes an operation on the host is under way. */
  lemma RestingStillActs()
    ensures Inv(LostAndWaiting) && LostAndWaiting.q.toHost == 0 && LostAndWaiting.q.inBdev == 0
    ensures Run(LostAndWaiting.cmds[1].(pending := Nothing), LostAndWaiting.q, OpOk, _ => Willing, 0).q.toHost == 1
  {
    TwoSlots(LostAndWaiting.cmds);
  }

  lemma TwoSlots(cmds: seq<Cmd>)
    requires |cmds| == 2
    ensures |BusySlots(cmds)| == One(cmds[0].busy) + One(cmds[1].busy)
    ensures forall op: Pending :: Waiting(cmds, op) == One(cmds[0].pending == op) + One(cmds[1].pending == op)
  {
    assert BusySlots(cmds) == (if cmds[0].busy then {0} else {}) + if cmds[1].busy then {1} else {};
    forall op: Pending ensures Waiting(cmds, op) == One(cmds[0].pending == op) + One(cmds[1].pending == op) {
      var front := cmds[..1];
      assert front[..0] == [];
      assert Waiting(front, op) == Waiting(front[..0], op) + One(front[0].pending == op);
    }
  }

  const Flushed := Then(Then(Begin, HeaderRead), BdevFlush)

  /** A queue of two slots without forced order that came to rest with request 0 lost and request 1 completed. */
  const LostBefore := Queue(2, 32768,
                            [Cmd(FatalErr, 0, 0, true, Nothing, IoErr, false, Out, false, Then(Begin, HeaderRead)),
                             Cmd(Release, 1, 1, false, Nothing, Good, true, Flush, false, Flushed)],
                            Counters(1, false, 1, 0, 0, 1, [Completion(1, Good, true, Flush, false, Flushed)]), Suspended, 2, 2, 2, true)

  lemma LostBeforeIsConsistent()
    ensures Inv(LostBefore) && 0 in HeldIds(LostBefore) && 1 in SentIds(LostBefore)
  {
    TwoSlots(LostBefore.cmds);
    assert LostBefore.cmds[0].id == 0 && LostBefore.q.sent[0].id == 1;
  }
}
