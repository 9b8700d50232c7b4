/** The virtqueue as an object whose callbacks update commands and counters in place. Between calls `Valid` holds,
    whatever the order of arrivals, ends of operations, progress calls, suspensions and restarts. */
module VirtqQueue {
  import opened Arith
  import opened BlkMachine
  import opened VirtqState

  const IdleCmd := Cmd(Idle, 0, 0, false, Nothing, Good, false, Other, false, Begin)

  class Virtq {
    const size: nat
    const laps: nat
    var cmds: seq<Cmd>
    var q: Counters
    var sw: SwState
    var avail: nat
    var accepted: nat
    var hostNext: nat
    /** Whether every request still has a number of its own: see `Restart`. */
    ghost var exact: bool

    ghost function View(): Queue
      reads this
    {
      Queue(size, laps, cmds, q, sw, avail, accepted, hostNext, exact)
    }

    ghost predicate Valid()
      reads this
    {
      Inv(View())
    }

    /** A new queue, not in recovery: both indices start at 0. */
    constructor (size: nat, laps: nat, inOrder: bool)
      requires size > 0 && laps * size == U16
      ensures Valid() && accepted == 0 && q.sent == [] && q.inOrder == inOrder && sw == Running && exact
    {
      this.size, this.laps := size, laps;
      cmds := seq(size, _ => IdleCmd);
      q := Counters(0, inOrder, 0, 0, 0, 0, []);
      sw := Running;
      avail, accepted, hostNext, exact := 0, 0, 0, true;
      new;
      FreshQueue(View());
    }

    static lemma FreshQueue(v: Queue)
      requires SlotsOk(v) && IndicesOk(v) && |v.q.sent| == v.accepted
      requires v.q.total == v.q.toHost == v.q.inBdev == 0 && v.q.fatal == 0
      requires forall s :: 0 <= s < |v.cmds| ==> v.cmds[s] == IdleCmd
      requires (Numbered(v) ==> OnceOk(v)) && OrderOk(v) && HonestOk(v)
      ensures Inv(v)
    {
      assert BusySlots(v.cmds) == {};
      NoneWaiting(v.cmds, HostDma);
      NoneWaiting(v.cmds, Bdev);
    }

    /** The progress loop of a command: handlers run until one waits. It ends because every handler that goes on
        has moved the command to a later state. */
    method CmdProgress(slot: nat, st: OpStatus, env: nat -> Env)
      requires slot < |cmds| && q.used < U16
      modifies this`cmds, this`q
      ensures var run := Run(old(cmds[slot]), old(q), st, env, 0);
              cmds == old(cmds)[slot := run.c] && q == run.q
    {
      ghost var whole := Run(cmds[slot], q, st, env, 0);
      var k: nat := 0;
      var repeat := true;
      while repeat
        invariant |cmds| == |old(cmds)| && q.used < U16
        invariant cmds == old(cmds)[slot := cmds[slot]]
        invariant if repeat then Run(cmds[slot], q, st, env, k) == whole else cmds[slot] == whole.c && q == whole.q
        decreases repeat, 12 - Rank(cmds[slot].state)
      {
        var s := Handle(cmds[slot], q, st, env(k));
        cmds := cmds[slot := s.c];
        q := s.q;
        repeat := s.repeat;
        k := k + 1;
      }
    }

    /** Runs the command of `slot` after the end of its operation; `c` is the command as the callback leaves it. */
    method Resume(slot: nat, c: Cmd, base: Counters, st: OpStatus, env: nat -> Env)
      requires Valid() && Resumed(View(), slot, c, base)
      modifies this`cmds, this`q
      ensures Valid() && base.used < U16
      ensures var run := Run(c, base, st, env, 0); cmds == old(cmds)[slot := run.c] && q == run.q
    {
      ghost var v := View();
      RunKeeps(v, slot, c, base, st, env);
      cmds := cmds[slot := c];
      q := base;
      CmdProgress(slot, st, env);
      assert cmds == v.cmds[slot := cmds[slot]];
      assert View() == Updated(v, slot, cmds[slot], q);
    }

    /** A request arrives. While the queue is being flushed it is dropped: it is not counted as accepted, and the
        host's queue will hand it over again after a restart. */
    method Receive(head: nat, env: nat -> Env) returns (taken: bool)
      requires Valid() && sw != Suspended && hostNext < |q.sent| + size
      requires !q.inOrder ==> !cmds[Wrap(head, size)].busy
      modifies this
      ensures Valid() && hostNext == old(hostNext) + 1 && sw == old(sw) && exact == old(exact)
      ensures taken <==> old(sw) == Running
      ensures Arrived(old(View()), View(), SlotOf(old(View()), head), taken, env)
    {
      var slot := if q.inOrder then Wrap(avail, size) else Wrap(head, size);
      ArrivalSlot(View(), head, slot);
      taken := Arrive(slot, env);
    }

    /** The slot of an arrival: with forced order that of its number, otherwise that of its first descriptor. */
    static ghost function SlotOf(v: Queue, head: nat): nat
      requires v.size > 0
    {
      if v.q.inOrder then Wrap(v.avail, v.size) else Wrap(head, v.size)
    }

    /** A command that is taken runs in its slot and is counted; one that is dropped only leaves its number there. */
    static ghost predicate Arrived(v: Queue, r: Queue, slot: nat, taken: bool, env: nat -> Env) {
      && slot < |v.cmds| && v.q.used < U16 && v.avail < U16
      && var c := NewCmd(v.cmds[slot], v.avail, v.accepted);
         if taken then
           var run := Run(c.(state := FetchDescs, busy := true), v.q.(total := v.q.total + 1), OpOk, env, 0);
           r.cmds == v.cmds[slot := run.c] && r.q == run.q && r.accepted == v.accepted + 1 && r.avail == Inc16(v.avail)
         else r.cmds == v.cmds[slot := c] && r.q == v.q && r.accepted == v.accepted && r.avail == v.avail
    }

    method Arrive(slot: nat, env: nat -> Env) returns (taken: bool)
      requires Valid() && sw != Suspended && hostNext < |q.sent| + size && slot < size
      requires !cmds[slot].busy && cmds[slot].pending == Nothing
      requires q.inOrder && sw == Running ==> slot == Wrap(accepted, size)
      modifies this
      ensures Valid() && hostNext == old(hostNext) + 1 && sw == old(sw) && exact == old(exact)
      ensures taken <==> old(sw) == Running
      ensures Arrived(old(View()), View(), slot, taken, env)
    {
      var c := NewCmd(cmds[slot], avail, accepted);
      if sw == Flushing {
        Drop(slot, c);
        return false;
      }
      Admit(slot, c.(state := FetchDescs, busy := true), env);
      return true;
    }

    /** The slot of an arrival is free, and a command in it can be admitted. */
    static lemma ArrivalSlot(v: Queue, head: nat, slot: nat)
      requires Inv(v) && v.sw != Suspended && v.hostNext < |v.q.sent| + v.size
      requires slot == SlotOf(v, head)
      requires !v.q.inOrder ==> !v.cmds[slot].busy
      ensures slot < v.size && v.avail < U16 && !v.cmds[slot].busy && v.cmds[slot].pending == Nothing
      ensures v.q.inOrder && v.sw == Running ==> slot == Wrap(v.accepted, v.size)
    {
      if v.q.inOrder {
        NextSlotIsFree(v);
      }
      FreeSlotRests(v, slot);
    }

    /** The fields that an arrival sets before it is decided whether it is taken. */
    static function NewCmd(c: Cmd, avail: nat, id: nat): (r: Cmd)
      ensures r.state == c.state && r.busy == c.busy && r.pending == c.pending
      ensures r.status == Good && !r.executed && r.ops == Begin
    {
      c.(availIdx := avail, status := Good, executed := false, id := id, ops := Begin)
    }

    static lemma FreeSlotRests(v: Queue, slot: nat)
      requires SlotsOk(v) && slot < |v.cmds| && !v.cmds[slot].busy
      ensures v.cmds[slot].pending == Nothing
    {
      assert Resting(v.cmds[slot], v.q.inOrder, v.accepted);
    }

    method Drop(slot: nat, c: Cmd)
      requires Valid() && sw == Flushing && slot < |cmds| && !cmds[slot].busy && hostNext < |q.sent| + size
      requires !c.busy && c.pending == cmds[slot].pending && c.state == cmds[slot].state
      modifies this`cmds, this`hostNext
      ensures Valid() && hostNext == old(hostNext) + 1 && cmds == old(cmds)[slot := c]
    {
      Dropped(View(), slot, c);
      cmds := cmds[slot := c];
      hostNext := hostNext + 1;
    }

    /** The bookkeeping of an accepted request. */
    method Enter(slot: nat, c: Cmd)
      requires slot < |cmds| && avail < U16
      modifies this
      ensures View() == Admitted(old(View()), slot, c)
    {
      avail := Inc16(avail);
      accepted, hostNext := accepted + 1, hostNext + 1;
      cmds := cmds[slot := c.(pending := MemPool)];
      q := q.(total := q.total + 1);
    }

    /** Takes a request into a free slot and runs its command for the first time. */
    method Admit(slot: nat, c: Cmd, env: nat -> Env)
      requires Valid() && sw == Running && hostNext < |q.sent| + size
      requires slot < size && !cmds[slot].busy && (q.inOrder ==> slot == Wrap(accepted, size))
      requires Going(c) && c.state == FetchDescs && c.id == accepted && c.availIdx == avail
      modifies this
      ensures Valid() && sw == Running && hostNext == old(hostNext) + 1 && accepted == old(accepted) + 1
      ensures exact == old(exact)
      ensures old(q).used < U16 && old(avail) < U16 && avail == Inc16(old(avail))
      ensures var run := Run(c, old(q).(total := old(q).total + 1), OpOk, env, 0);
              cmds == old(cmds)[slot := run.c] && q == run.q
    {
      ghost var v := View();
      KeptAdmitted(v, slot, c);
      Enter(slot, c);
      Resume(slot, c, q, OpOk, env);
      assert cmds == v.cmds[slot := cmds[slot]];
    }

    static lemma Dropped(v: Queue, slot: nat, c: Cmd)
      requires Inv(v) && v.sw == Flushing && slot < |v.cmds| && !v.cmds[slot].busy
      requires v.hostNext < |v.q.sent| + v.size
      requires !c.busy && c.pending == v.cmds[slot].pending && c.state == v.cmds[slot].state
      ensures Inv(v.(cmds := v.cmds[slot := c], hostNext := v.hostNext + 1))
    {
      SlotCounts(v.cmds, slot, c);
      assert Resting(v.cmds[slot], v.q.inOrder, v.accepted);
      if Numbered(v) {
        OnceFree(v, slot, c);
      }
    }

    static lemma OnceFree(v: Queue, slot: nat, c: Cmd)
      requires OnceOk(v) && slot < |v.cmds| && !v.cmds[slot].busy && !c.busy
      ensures OnceOk(v.(cmds := v.cmds[slot := c], hostNext := v.hostNext + 1))
    {
    }

    /** An operation on host memory has ended. If it failed, the command is lost and nothing is sent. */
    method DmaDone(slot: nat, st: OpStatus, env: nat -> Env)
      requires Valid() && slot < size && cmds[slot].pending == HostDma
      modifies this`cmds, this`q
      ensures Valid() && old(q).used < U16
      ensures var run := Run(old(cmds)[slot].(pending := Nothing), old(q).(toHost := old(q).toHost - 1), st, env, 0);
              cmds == old(cmds)[slot := run.c] && q == run.q
      ensures st == OpErr ==>
                && cmds[slot].state == FatalErr && cmds[slot].busy
                && q == old(q).(toHost := old(q).toHost - 1, fatal := old(q).fatal + 1)
    {
      assert Resting(cmds[slot], q.inOrder, accepted);
      var c := cmds[slot].(pending := Nothing);
      var base := q.(toHost := q.toHost - 1);
      Resume(slot, c, base, st, env);
      if st == OpErr {
        FailedDmaIsFatal(c, base, env, 0);
      }
    }

    /** The backend has ended an operation. A failure is noted in the status byte, and the command goes on to
        report it. */
    method BdevDone(slot: nat, ok: bool, env: nat -> Env)
      requires Valid() && slot < size && cmds[slot].pending == Bdev
      modifies this`cmds, this`q
      ensures Valid() && old(q).used < U16
      ensures var c := old(cmds)[slot].(pending := Nothing);
              var told := if ok then c.(executed := true) else c.(status := IoErr, state := WriteStatus);
              var run := Run(told, old(q).(inBdev := old(q).inBdev - 1), OpOk, env, 0);
              cmds == old(cmds)[slot := run.c] && q == run.q
    {
      assert Resting(cmds[slot], q.inOrder, accepted);
      var c := cmds[slot].(pending := Nothing);
      if ok {
        c := c.(executed := true);
      } else {
        c := c.(status := IoErr, state := WriteStatus);
      }
      Resume(slot, c, q.(inBdev := q.inBdev - 1), OpOk, env);
    }

    /** A buffer from the memory pool is ready. */
    method MemReady(slot: nat, env: nat -> Env)
      requires Valid() && slot < size && cmds[slot].pending == MemPool
      modifies this`cmds, this`q
      ensures Valid() && old(q).used < U16
      ensures var run := Run(old(cmds)[slot].(pending := Nothing), old(q), OpOk, env, 0);
              cmds == old(cmds)[slot := run.c] && q == run.q
    {
      assert Resting(cmds[slot], q.inOrder, accepted);
      Resume(slot, cmds[slot].(pending := Nothing), q, OpOk, env);
    }

    /** Sends the completion of a command that stands in line and whose turn has come. */
    method CompleteNext(slot: nat, env: nat -> Env)
      requires Valid() && q.inOrder && slot < size
      requires cmds[slot].state == SendInOrderComp && cmds[slot].availIdx == q.used
      modifies this`cmds, this`q
      ensures Valid() && q.inOrder && cmds[slot].state != SendInOrderComp
      ensures if env(0).sendOk then |q.sent| == |old(q.sent)| + 1 else q.sent == old(q.sent) && q.used == old(q.used)
    {
      assert Resting(cmds[slot], q.inOrder, accepted);
      InLineRun(cmds[slot], q, env);
      Resume(slot, cmds[slot], q, OpOk, env);
    }

    static lemma InLineRun(c: Cmd, q: Counters, env: nat -> Env)
      requires q.used < U16 && Going(c) && c.state == SendInOrderComp && c.availIdx == q.used
      ensures var run := Run(c, q, OpOk, env, 0);
              && run.c.state != SendInOrderComp && run.q.inOrder == q.inOrder
              && (if env(0).sendOk then |run.q.sent| == |q.sent| + 1 else run.q.sent == q.sent && run.q.used == q.used)
    {
      var s := Handle(c, q, OpOk, env(0));
      if env(0).sendOk {
        ReleaseRun(s.c, s.q, OpOk, env, 1);
      } else {
        DeadRun(s.c, s.q, OpOk, env, 1);
      }
    }

    /** Completes commands that stand in line, oldest first, until the oldest one under way does not stand in line. */
    method ProgressUnordered(env: nat -> nat -> Env)
      requires Valid() && q.inOrder
      modifies this`cmds, this`q
      ensures Valid() && q.inOrder
      ensures forall s :: 0 <= s < size && cmds[s].busy && cmds[s].state == SendInOrderComp ==> cmds[s].id != |q.sent|
      ensures (forall s :: 0 <= s < size ==> !old(cmds)[s].busy) ==> cmds == old(cmds) && q == old(q)
    {
      var slot := Wrap(q.used, size);
      var n: nat := 0;
      while cmds[slot].state == SendInOrderComp && cmds[slot].availIdx == q.used
        invariant Valid() && q.inOrder && slot == Wrap(q.used, size)
        invariant (forall s :: 0 <= s < size ==> !old(cmds)[s].busy) ==> cmds == old(cmds) && q == old(q)
        decreases accepted - |q.sent|, if cmds[slot].state == SendInOrderComp then 1 else 0
      {
        assert Resting(cmds[slot], q.inOrder, accepted);
        CompleteNext(slot, env(n));
        n := n + 1;
        slot := Wrap(q.used, size);
      }
      NoneInTurn(View(), slot);
    }

    static lemma NoneInTurn(v: Queue, slot: nat)
      requires Inv(v) && v.q.inOrder && slot == Wrap(v.q.used, v.size)
      requires !(v.cmds[slot].state == SendInOrderComp && v.cmds[slot].availIdx == v.q.used)
      ensures forall s :: 0 <= s < v.size && v.cmds[s].busy && v.cmds[s].state == SendInOrderComp
                ==> v.cmds[s].id != |v.q.sent|
    {
      SlotOfIndex(|v.q.sent|, v.laps, v.size);
      forall s | 0 <= s < v.size && v.cmds[s].busy && v.cmds[s].state == SendInOrderComp
        ensures v.cmds[s].id != |v.q.sent|
      {
        assert s == Wrap(v.cmds[s].id, v.size);
        assert Resting(v.cmds[s], v.q.inOrder, v.accepted);
      }
    }

    /** Asks for suspension. Returns false if it was asked for before. */
    method Suspend() returns (ok: bool)
      requires Valid()
      modifies this`sw
      ensures Valid() && ok == (old(sw) == Running)
      ensures sw == if ok then Flushing else old(sw)
    {
      ok := sw == Running;
      if ok {
        sw := Flushing;
      }
    }

    /** The counters of a queue that is being flushed allow it to go to sleep. */
    predicate MayRest()
      reads this
    {
      if q.fatal > 0 then q.inBdev == 0 && q.toHost == 0
      else q.total == 0 && q.inBdev == 0 && q.toHost == 0
    }

    /** No command waits for the host or the backend, and none is under way unless one has been lost. */
    static ghost predicate AtRest(cmds: seq<Cmd>, fatal: nat) {
      && (forall s :: 0 <= s < |cmds| ==> cmds[s].pending != HostDma && cmds[s].pending != Bdev)
      && (fatal > 0 || forall s :: 0 <= s < |cmds| ==> !cmds[s].busy)
    }

    /** The counters allow it if and only if the slots do. */
    static lemma CountersSay(v: Queue)
      requires SlotsOk(v) && CountsOk(v)
      ensures v.q.toHost == 0 && v.q.inBdev == 0 && (v.q.fatal > 0 || v.q.total == 0) <==> AtRest(v.cmds, v.q.fatal)
    {
      if v.q.toHost == 0 {
        NoneWaits(v.cmds, HostDma);
      }
      if v.q.inBdev == 0 {
        NoneWaits(v.cmds, Bdev);
      }
      if v.q.total == 0 {
        forall s: nat | s < |v.cmds| ensures !v.cmds[s].busy {
          assert s !in BusySlots(v.cmds);
        }
      }
      if AtRest(v.cmds, v.q.fatal) {
        WaitingNone(v.cmds, HostDma);
        WaitingNone(v.cmds, Bdev);
        if v.q.fatal == 0 {
          assert BusySlots(v.cmds) == {};
        }
      }
    }

    static lemma {:induction false} WaitingNone(cmds: seq<Cmd>, op: Pending)
      requires forall s :: 0 <= s < |cmds| ==> cmds[s].pending != op
      ensures Waiting(cmds, op) == 0
    {
      if cmds != [] {
        WaitingNone(cmds[..|cmds| - 1], op);
      }
    }

    /** The flush part of a progress call. The queue is suspended if and only if no command waits for the host or the
        backend, and no command is under way unless one has been lost. */
    method ProgressSuspend()
      requires Valid() && sw == Flushing
      modifies this`sw
      ensures Valid() && sw == if AtRest(cmds, q.fatal) then Suspended else Flushing
      ensures sw == Suspended && q.fatal == 0 ==> accepted == |q.sent|
    {
      CountersSay(View());
      if MayRest() {
        sw := Suspended;
      }
    }

    static lemma {:induction false} NoneWaits(cmds: seq<Cmd>, op: Pending)
      requires Waiting(cmds, op) == 0
      ensures forall s :: 0 <= s < |cmds| ==> cmds[s].pending != op
    {
      if cmds != [] {
        NoneWaits(cmds[..|cmds| - 1], op);
      }
    }

    /** One progress call of the queue, apart from the callbacks that it makes: ends of operations and arrivals. */
    method Progress(env: nat -> nat -> Env)
      requires Valid()
      modifies this`cmds, this`q, this`sw
      ensures Valid() && q.inOrder == old(q.inOrder)
      ensures old(sw) == Suspended ==> cmds == old(cmds) && q == old(q) && sw == Suspended
      ensures old(sw) == Running ==> sw == Running
      ensures old(sw) == Flushing ==> sw == if AtRest(cmds, q.fatal) then Suspended else Flushing
      ensures old(sw) == Flushing && (forall s :: 0 <= s < size ==> !old(cmds)[s].busy) ==> sw == Suspended
      ensures q.inOrder && old(sw) != Suspended ==>
                forall s :: 0 <= s < size && cmds[s].busy && cmds[s].state == SendInOrderComp ==> cmds[s].id != |q.sent|
    {
      if sw == Suspended {
        return;
      }
      if q.inOrder {
        ProgressUnordered(env);
      }
      if sw == Flushing {
        FreeIsSettled(View());
        ProgressSuspend();
      }
    }

    static lemma FreeIsSettled(v: Queue)
      requires SlotsOk(v)
      ensures (forall s :: 0 <= s < v.size ==> !v.cmds[s].busy) ==> AtRest(v.cmds, v.q.fatal)
    {
      forall s | 0 <= s < v.size && !v.cmds[s].busy ensures v.cmds[s].pending == Nothing {
        assert Resting(v.cmds[s], v.q.inOrder, v.accepted);
      }
    }

    /** A suspended queue is created anew from the used index that the host has seen. The new queue is consistent. The
        requests keep numbers of their own if and only if every request that was lost is one of those after the completed
        ones: the host's queue goes on with the first request that counts as not accepted, and no request is lost and none
        repeated. With forced order, and if no command was lost, that is always so. */
    method Restart()
      requires Valid() && sw == Suspended
      modifies this
      ensures Valid() && sw == Running && q.sent == old(q.sent) && q.total == q.toHost == q.inBdev == q.fatal == 0
      ensures accepted == hostNext == |q.sent| && avail == q.used && forall s :: 0 <= s < |cmds| ==> cmds[s] == IdleCmd
      ensures exact ==> old(Numbered(View()))
      ensures old(Numbered(View())) ==> (OnceOk(View()) <==> AllFrom(old(HeldIds(View())), |q.sent|))
      ensures old(Numbered(View())) ==> (exact <==> OnceOk(View()))
      ensures old(Numbered(View())) && (old(q.fatal) == 0 || old(q.inOrder)) ==> exact
      ensures exact ==> SentIds(View()) == Below(accepted)
    {
      ghost var v := View();
      if Numbered(v) {
        HeldAfterSent(v);
      }
      cmds := seq(size, _ => IdleCmd);
      accepted := |q.sent|;
      hostNext := |q.sent|;
      q := Counters(q.used, q.inOrder, 0, 0, 0, 0, q.sent);
      avail := q.used;
      sw := Running;
      exact := Numbered(v) && AllBelow(v.q.sent, |v.q.sent|);
      RestartedQueue(v, View());
    }

    static ghost predicate AllBelow(sent: seq<Completion>, n: nat) {
      forall i :: 0 <= i < |sent| ==> sent[i].id < n
    }

    static ghost predicate AllFrom(ids: set<nat>, n: nat) {
      forall id :: id in ids ==> id >= n
    }

    /** The completed requests are the first ones if and only if those still held come after them. */
    static lemma HeldAfterSent(v: Queue)
      requires Inv(v) && Numbered(v)
      ensures AllBelow(v.q.sent, |v.q.sent|) <==> AllFrom(HeldIds(v), |v.q.sent|)
      ensures v.sw == Suspended && v.q.fatal == 0 ==> HeldIds(v) == {}
      ensures v.q.inOrder ==> AllBelow(v.q.sent, |v.q.sent|)
    {
      var n := |v.q.sent|;
      EveryRequestAccounted(v);
      SentIdsCount(v);
      HeldIdsCount(v);
      if AllBelow(v.q.sent, n) {
        assert SentIds(v) <= Below(n);
        SubsetSize(SentIds(v), Below(n));
      } else if AllFrom(HeldIds(v), n) {
        assert Below(n) <= SentIds(v) by {
          forall x | x in Below(n) ensures x in SentIds(v) {
            assert x in Below(v.accepted);
          }
        }
        SubsetSize(Below(n), SentIds(v));
        forall i | 0 <= i < n ensures v.q.sent[i].id < n {
          assert v.q.sent[i].id in SentIds(v);
        }
      }
    }

    static lemma RestartedQueue(v: Queue, r: Queue)
      requires Inv(v) && r == Queue(v.size, v.laps, r.cmds, r.q, Running, v.q.used, |v.q.sent|, |v.q.sent|, r.exact)
      requires r.q == Counters(v.q.used, v.q.inOrder, 0, 0, 0, 0, v.q.sent)
      requires |r.cmds| == v.size && forall s :: 0 <= s < |r.cmds| ==> r.cmds[s] == IdleCmd
      requires r.exact == (Numbered(v) && AllBelow(v.q.sent, |v.q.sent|))
      requires v.q.inOrder ==> AllBelow(v.q.sent, |v.q.sent|)
      ensures Inv(r) && (Numbered(v) ==> (OnceOk(r) <==> AllBelow(v.q.sent, |v.q.sent|)))
      ensures r.exact ==> SentIds(r) == Below(r.accepted)
    {
      FreshQueue(r);
      if r.exact {
        EveryRequestAccounted(r);
        assert HeldIds(r) == {};
      }
    }

    /** A queue without forced order in which request 0 was lost and request 1 completed does not meet the condition. After
        a restart the next request that the host's queue hands over has the number 1 again, which has been completed; the
        lost one has not and is before it. */
    static lemma LostThenRepeated()
      ensures Inv(LostBefore) && LostBefore.sw == Suspended && Numbered(LostBefore)
      ensures !AllFrom(HeldIds(LostBefore), |LostBefore.q.sent|)
      ensures |LostBefore.q.sent| in SentIds(LostBefore) && 0 !in SentIds(LostBefore)
    {
      LostBeforeIsConsistent();
    }
  }
}
