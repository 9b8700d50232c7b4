/** The queues of a controller seen as the controller sees them: every step of a block queue and of an admin queue is one
    that the controller reckons with, and what the controller does to its queues is what happens to them. */
module ControllerQueues {
  import Controller
  import BlkMachine
  import VirtqState
  import VirtqQueue
  import AdminLists
  import AdminQueue

  function BlockMode(sw: VirtqState.SwState): Controller.Mode {
    match sw
    case Running => Controller.InService
    case Flushing => Controller.Flushing
    case Suspended => Controller.Resting
  }

  /** A block queue as the controller sees it; `waited` is how many commands waited for a buffer when it came to rest. */
  ghost function BlockView(v: VirtqState.Queue, waited: nat): Controller.Queue
    requires v.q.toHost >= 0 && v.q.inBdev >= 0
  {
    Controller.Active(false, BlockMode(v.sw), v.q.toHost, v.q.inBdev, VirtqState.Waiting(v.cmds, BlkMachine.MemPool), waited)
  }

  function AdminMode(state: AdminQueue.State): Controller.Mode {
    match state
    case Running => Controller.InService
    case Flushing => Controller.Flushing
    case Suspended => Controller.Resting
  }

  /** An admin queue as the controller sees it: whatever is in flight may have operations on the host under way. */
  function AdminView(state: AdminQueue.State, p: AdminQueue.Pools): Controller.Queue {
    Controller.Active(true, AdminMode(state), |p.inflight|, 0, 0, 0)
  }

  /** At rest, a block queue has no more commands that wait for anything than waited for a buffer when it came to rest. */
  ghost predicate Remembered(v: VirtqState.Queue, waited: nat) {
    v.sw == VirtqState.Suspended ==> VirtqState.Unsettled(v) <= waited
  }

  /** The number of commands that waited for a buffer when the queue came to rest, after a step. */
  ghost function WaitedNow(v: VirtqState.Queue, r: VirtqState.Queue, waited: nat): nat {
    if v.sw != VirtqState.Suspended && r.sw == VirtqState.Suspended then VirtqState.Waiting(r.cmds, BlkMachine.MemPool)
    else waited
  }

  /** A block queue that came to rest without having lost a command had none waiting. */
  lemma WithoutLossNoneWaited(v: VirtqState.Queue)
    requires VirtqState.Inv(v) && v.sw == VirtqState.Suspended && v.q.fatal == 0
    ensures VirtqState.Unsettled(v) == 0
  {
    VirtqState.SuspendedIsComplete(v);
  }

  /** How a step changes the life cycle and what is under way. */
  ghost predicate Moves(v: VirtqState.Queue, r: VirtqState.Queue) {
    && (v.sw != VirtqState.Running ==> r.sw != VirtqState.Running)
    && (v.sw == VirtqState.Suspended ==>
          r.sw == VirtqState.Suspended && VirtqState.Unsettled(r) <= VirtqState.Unsettled(v))
    && (v.sw != VirtqState.Suspended && r.sw == VirtqState.Suspended ==> r.q.toHost == 0 && r.q.inBdev == 0)
  }

  lemma BlockQueueMay(v: VirtqState.Queue, r: VirtqState.Queue, waited: nat)
    requires VirtqState.Inv(v) && VirtqState.Inv(r) && Remembered(v, waited) && Moves(v, r)
    ensures Remembered(r, WaitedNow(v, r, waited))
    ensures Controller.QueueMay(BlockView(v, waited), BlockView(r, WaitedNow(v, r, waited)))
  {
  }

  /** What may happen to a block queue between two steps of the controller. */
  datatype BlockEvent =
    | Arrives(head: nat, env: nat -> BlkMachine.Env)
    | DmaEnds(slot: nat, st: BlkMachine.OpStatus, env: nat -> BlkMachine.Env)
    | BdevEnds(slot: nat, ok: bool, env: nat -> BlkMachine.Env)
    | MemIsReady(slot: nat, env: nat -> BlkMachine.Env)
    | Polled(envs: nat -> nat -> BlkMachine.Env)
    | AskedToSuspend

  /** The event can happen: operations end that are under way, and requests arrive that the host's queue hands over. */
  ghost predicate BlockCan(v: VirtqState.Queue, e: BlockEvent)
    requires VirtqState.Inv(v)
  {
    match e
    case Arrives(head, _) =>
      && v.sw != VirtqState.Suspended && v.hostNext < |v.q.sent| + v.size
      && (!v.q.inOrder ==> !v.cmds[VirtqState.Arith.Wrap(head, v.size)].busy)
    case DmaEnds(slot, _, _) => slot < v.size && v.cmds[slot].pending == BlkMachine.HostDma
    case BdevEnds(slot, _, _) => slot < v.size && v.cmds[slot].pending == BlkMachine.Bdev
    case MemIsReady(slot, _) => slot < v.size && v.cmds[slot].pending == BlkMachine.MemPool
    case Polled(_) => true
    case AskedToSuspend => true
  }

  /** A command whose operation has ended, or whose buffer has come, has run. */
  lemma RanOn(v: VirtqState.Queue, r: VirtqState.Queue, slot: nat)
    requires slot < |v.cmds| && v.cmds[slot].pending != BlkMachine.Nothing
    requires |r.cmds| == |v.cmds| && r.cmds == v.cmds[slot := r.cmds[slot]] && r.sw == v.sw
    ensures Moves(v, r)
  {
    VirtqState.RunSettles(v, slot, r.cmds[slot], v.q);
  }

  /** The end of an operation, or the coming of a buffer. */
  method BlockCallback(vq: VirtqQueue.Virtq, e: BlockEvent)
    requires vq.Valid() && BlockCan(vq.View(), e) && (e.DmaEnds? || e.BdevEnds? || e.MemIsReady?)
    modifies vq
    ensures vq.Valid() && Moves(old(vq.View()), vq.View())
  {
    ghost var v := vq.View();
    match e {
      case DmaEnds(slot, st, env) => vq.DmaDone(slot, st, env);
      case BdevEnds(slot, ok, env) => vq.BdevDone(slot, ok, env);
      case MemIsReady(slot, env) => vq.MemReady(slot, env);
    }
    RanOn(v, vq.View(), e.slot);
  }

  /** Every step of a block queue is one that the controller reckons with. */
  method BlockStep(vq: VirtqQueue.Virtq, e: BlockEvent, ghost waited: nat) returns (ghost waited': nat)
    requires vq.Valid() && BlockCan(vq.View(), e) && Remembered(vq.View(), waited)
    modifies vq
    ensures vq.Valid() && waited' == WaitedNow(old(vq.View()), vq.View(), waited) && Remembered(vq.View(), waited')
    ensures Controller.QueueMay(old(BlockView(vq.View(), waited)), BlockView(vq.View(), waited'))
  {
    ghost var v := vq.View();
    match e {
      case Arrives(head, env) => var _ := vq.Receive(head, env);
      case Polled(envs) =>
        vq.Progress(envs);
        VirtqQueue.Virtq.CountersSay(vq.View());
      case AskedToSuspend => var _ := vq.Suspend();
      case _ => BlockCallback(vq, e);
    }
    assert Moves(v, vq.View());
    waited' := WaitedNow(v, vq.View(), waited);
    BlockQueueMay(v, vq.View(), waited);
  }

  /** A block queue that is asked to suspend is what the controller takes it for. */
  method BlockSuspend(vq: VirtqQueue.Virtq, ghost waited: nat)
    requires vq.Valid()
    modifies vq
    ensures vq.Valid() && BlockView(vq.View(), waited) == Controller.Flushed(old(BlockView(vq.View(), waited)))
  {
    var _ := vq.Suspend();
  }

  /** A block queue that is created anew is what the controller takes a resumed queue for, and goes on as one. */
  method BlockRestart(vq: VirtqQueue.Virtq, ghost waited: nat)
    requires vq.Valid() && vq.sw == VirtqState.Suspended
    modifies vq
    ensures vq.Valid() && Remembered(vq.View(), 0)
    ensures BlockView(vq.View(), 0) == Controller.Resumed(old(BlockView(vq.View(), waited)), Controller.Works, false)
  {
    ghost var was := BlockView(vq.View(), waited);
    BlockAnew(was);
    vq.Restart();
    NoneInIdle(vq.cmds);
    assert BlockView(vq.View(), 0) == Controller.NewQueue(false);
  }

  lemma NoneInIdle(cmds: seq<BlkMachine.Cmd>)
    requires forall s :: 0 <= s < |cmds| ==> cmds[s] == VirtqQueue.IdleCmd
    ensures VirtqState.Waiting(cmds, BlkMachine.MemPool) == 0
  {
    VirtqState.NoneWaiting(cmds, BlkMachine.MemPool);
  }

  lemma BlockAnew(was: Controller.Queue)
    requires was.Active? && !was.admin && was.mode == Controller.Resting
    ensures Controller.Resumed(was, Controller.Works, false) == Controller.NewQueue(false)
  {
  }

  /** What may happen to an admin queue between two steps of the controller. */
  datatype AdminEvent = Starts(n: nat) | Fetches(k: nat) | Fails(k: nat) | Completes(k: nat) | AdminPolled

  ghost predicate AdminCan(q: AdminQueue.Queue, e: AdminEvent)
    reads q
  {
    match e
    case Starts(n) =>
      && q.state == AdminQueue.Running && |q.inflight| + |q.fatal| < q.slots
      && AdminLists.Held(q.inflight) + AdminLists.Held(q.fatal) + n <= q.descs
    case Fetches(k) => k < |q.inflight| && AdminLists.Held(q.inflight) + AdminLists.Held(q.fatal) < q.descs
    case Fails(k) => k < |q.inflight|
    case Completes(k) => k < |q.inflight|
    case AdminPolled => true
  }

  /** Every step of an admin queue is one that the controller reckons with. */
  method AdminStep(q: AdminQueue.Queue, e: AdminEvent)
    requires q.Valid() && AdminCan(q, e)
    modifies q
    ensures q.Valid()
    ensures Controller.QueueMay(old(AdminView(q.state, q.View())), AdminView(q.state, q.View()))
  {
    match e
    case Starts(n) => q.CmdStart(n);
    case Fetches(k) => q.FetchNextDesc(k);
    case Fails(k) => q.CmdFatal(k);
    case Completes(k) => q.CmdComplete(k);
    case AdminPolled => q.Progress();
  }

  /** Suspending and resuming an admin queue is what the controller takes it for. */
  method AdminSuspend(q: AdminQueue.Queue)
    requires q.Valid()
    modifies q
    ensures q.Valid() && AdminView(q.state, q.View()) == Controller.Flushed(old(AdminView(q.state, q.View())))
  {
    q.Suspend();
  }

  method AdminResume(q: AdminQueue.Queue, o: Controller.Outcome)
    requires q.Valid()
    modifies q
    ensures q.Valid() && AdminView(q.state, q.View()) == Controller.Resumed(old(AdminView(q.state, q.View())), o, true)
  {
    q.Resume();
  }
}
