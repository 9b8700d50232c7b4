/** The life cycle of a virtio controller (ctrl/snap_virtio_common_ctrl.c): starting, suspending and stopping its queues
    as the host writes the device's registers, together with the live-migration states that an administrator asks for. */
module Controller {
  datatype State = Stopped | Started | Suspended | Suspending
  datatype Migration = Init | Running | Quiesced | Freezed
  datatype Mode = InService | Flushing | Resting

  /** What the controller has in the place of one queue. A placeholder is made while the controller is suspended and
      gets its implementation when the controller resumes. `Freed` is a queue that a failed start has destroyed without
      clearing its place in the table. `toHost` and `inBdev` count the operations under way, `waits` the commands that wait
      for a buffer from the memory pool, and `waited` is how many of these there were when the queue came to rest. */
  datatype Queue =
    | NoQueue
    | Placeholder
    | Freed
    | Active(admin: bool, mode: Mode, toHost: nat, inBdev: nat, waits: nat, waited: nat)

  /** The registers that the controller watches. */
  datatype Bar = Bar(status: nat, enabled: bool, reset: bool, bdf: nat)

  /** DRIVER_OK is bit 2 of the device status, DEVICE_NEEDS_RESET bit 6 (section 2.1 of VIRTIO v1.1). */
  predicate Live(b: Bar) {
    (b.status / 4) % 2 == 1
  }

  function NeedsReset(status: nat): (r: nat)
    ensures (r / 64) % 2 == 1
  {
    if (status / 64) % 2 == 1 then status else status + 64
  }

  /** In terms of the bits of the register. */
  lemma StatusBits(status: bv8)
    ensures Live(Bar(status as nat, true, false, 0)) <==> status & 4 != 0
    ensures NeedsReset(status as nat) == (status | 64) as nat
  {
    var s := status as nat;
    assert (status >> 2) as nat == s / 4 && (status >> 6) as nat == s / 64;
    assert ((status >> 2) & 1) as nat == ((status >> 2) as nat) % 2;
    assert ((status >> 6) & 1) as nat == ((status >> 6) as nat) % 2;
    assert (status >> 6) & 1 == 0 ==> status | 64 == status + 64 && status <= 191;
    assert (status >> 6) & 1 == 1 ==> status | 64 == status;
  }

  /** What a queue has that may still need the host or the backend. */
  function Unsettled(q: Queue): nat
    requires q.Active?
  {
    q.toHost + q.inBdev + q.waits
  }

  /** What a queue guarantees by itself: at rest it has no more of that than commands waited for a buffer when it came to
      rest. */
  predicate Kept(q: Queue) {
    q.Active? && q.mode == Resting ==> Unsettled(q) <= q.waited
  }

  /** What a queue may do between two steps of the controller: it never goes back towards service; it comes to rest with no
      operation under way; and once at rest it stays at rest and gets no more to do. `ControllerQueues` shows that the
      queues do no more than this. */
  predicate QueueMay(q: Queue, r: Queue) {
    if q.Active? then
      && r.Active? && r.admin == q.admin && Kept(r)
      && (q.mode != InService ==> r.mode != InService)
      && (q.mode == Resting ==> r.mode == Resting && r.waited == q.waited && Unsettled(r) <= Unsettled(q))
      && (q.mode != Resting && r.mode == Resting ==> r.toHost == 0 && r.inBdev == 0 && r.waited == r.waits)
    else r == q
  }

  /** At rest, with no more under way or waiting than commands waited for a buffer when the queue came to rest; if none
      did, there is no operation under way. */
  predicate Quiet(q: Queue) {
    q.Active? ==>
      && q.mode == Resting && Unsettled(q) <= q.waited
      && (q.waited == 0 ==> q.toHost == 0 && q.inBdev == 0)
  }

  ghost predicate AllQuiet(queues: seq<Queue>) {
    forall i :: 0 <= i < |queues| ==> Quiet(queues[i])
  }

  function Flushed(q: Queue): Queue {
    if q.Active? && q.mode == InService then q.(mode := Flushing)
    else if q.Active? && q.admin then q.(mode := Flushing)
    else q
  }

  /** How the hardware answers when a queue is resumed: everything works, the old state cannot be read, or the queue
      cannot be created again. */
  datatype Outcome = Works | NoState | NoCreate

  function NewQueue(admin: bool): Queue {
    Active(admin, InService, 0, 0, 0, 0)
  }

  /** The place of a queue after a start. */
  function Made(was: Queue, enabled: bool, state: State, admin: bool): Queue {
    if !enabled then was else if state == Suspended then Placeholder else NewQueue(admin)
  }

  /** The state of a controller that is to be stopped. It is stopped at once if it is suspended, or has queues that cannot be
      suspended; otherwise when it has been suspended. */
  function Down(s: State, canSuspend: bool, stopOk: bool): State {
    if s == Suspending || (s == Started && canSuspend) then Suspending
    else if s == Stopped || stopOk then Stopped
    else Suspended
  }

  /** A queue of a controller that is to be stopped. */
  function Lowered(q: Queue, s: State, canSuspend: bool): Queue {
    if s == Stopped || s == Suspending then q
    else if s == Started && canSuspend then Flushed(q)
    else NoQueue
  }

  /** A place passed by a start that failed. */
  function Abandoned(was: Queue, enabled: bool): Queue {
    if enabled || was != NoQueue then Freed else NoQueue
  }

  /** A queue after it has been resumed; `admin` says whether its place is that of the admin queue. */
  function Resumed(q: Queue, o: Outcome, admin: bool): Queue {
    match q
    case Active(isAdmin, mode, _, _, _, _) =>
      if isAdmin then q.(mode := InService)
      else if mode != Resting || o == NoState then q
      else if o == NoCreate then Placeholder
      else NewQueue(admin)
    case Placeholder => if o == NoCreate then Placeholder else NewQueue(admin)
    case _ => q
  }

  predicate ResumeFails(q: Queue, o: Outcome) {
    match q
    case Active(isAdmin, mode, _, _, _, _) => !isAdmin && (mode != Resting || o != Works)
    case Placeholder => o == NoCreate
    case Freed => o != Works
    case NoQueue => false
  }

  predicate Serves(q: Queue) {
    q.Active? && q.mode == InService
  }

  /** Resuming works where it can: for an admin queue, a queue at rest and a placeholder. */
  lemma ResumeWorks(q: Queue, admin: bool)
    requires q == Placeholder || (q.Active? && (q.admin || q.mode == Resting))
    ensures !ResumeFails(q, Works) && Serves(Resumed(q, Works, admin))
  {
  }

  /** A queue whose resume failed is not in service unless it already was, keeps what it has unless it could only not be
      created again, and a resume that works brings it to service later. */
  lemma FailedResumeCanBeRepeated(q: Queue, o: Outcome, admin: bool)
    requires (q.Active? || q == Placeholder) && ResumeFails(q, o)
    ensures var r := Resumed(q, o, admin);
            && (Serves(r) ==> r == q)
            && (o != NoCreate || q == Placeholder || q.mode != Resting ==> r == q)
            && (q == Placeholder || q.mode == Resting ==> !ResumeFails(r, Works) && Serves(Resumed(r, Works, admin)))
  {
  }

  /** Whether the controller finds the queue at rest. Of a destroyed queue nothing is known: the hardware's answer
      stands for what is read. */
  predicate FoundResting(q: Queue, o: Outcome) {
    match q
    case Active(_, mode, _, _, _, _) => mode == Resting
    case Freed => o == Works
    case _ => true
  }

  /** What the device, the driver and the application answer during one step. */
  datatype World = World(bar: Bar, barOk: bool, enable: seq<bool>, createOk: seq<bool>, startOk: bool, stopOk: bool,
                         clearOk: bool, validateOk: bool, flrHeld: bool, reopened: bool, resume: seq<Outcome>)

  class Ctrl {
    const maxQueues: nat
    const transitional: bool
    const canSuspend: bool
    const canResume: bool
    /** Whether queue 0 is an admin queue. */
    const hasAdmin: bool
    var state: State
    var lm: Migration
    var isQuiesce: bool
    var pendingReset: bool
    var pendingResume: bool
    var pendingFlr: bool
    var ignoreReset: bool
    var curr: Bar
    var prev: Bar
    var queues: seq<Queue>
    /** The answers to quiesce commands: true is OK. */
    var answers: seq<bool>
    /** Whether queues may be in service although the controller is suspended: after a suspend that only pretends, or
        after a resume that failed half way. */
    ghost var disturbed: bool

    predicate Fits(w: World) {
      |w.enable| == |w.createOk| == |w.resume| == maxQueues
    }

    /** A quiesced or freezed controller is stopped or suspended. */
    ghost predicate Migrating()
      reads this`lm, this`state
    {
      lm == Quiesced || lm == Freezed ==> state == Stopped || state == Suspended
    }

    ghost predicate QueuesOk()
      reads this`state, this`queues, this`disturbed
    {
      && |queues| == maxQueues && (state == Suspending ==> canSuspend)
      && (forall i :: 0 <= i < |queues| ==> Kept(queues[i]))
      && (state == Stopped ==> forall i :: 0 <= i < |queues| ==> !queues[i].Active?)
      && ((state == Stopped || state == Suspended) && !disturbed ==> AllQuiet(queues))
    }

    /** A resume asked for from outside does not wait while a quiesce command does. */
    ghost predicate Valid()
      reads this
    {
      Migrating() && QueuesOk() && !(pendingResume && isQuiesce)
    }

    constructor (maxQueues: nat, transitional: bool, canSuspend: bool, canResume: bool, hasAdmin: bool)
      ensures Valid() && state == Stopped && lm == Init && answers == [] && !disturbed && !pendingResume && !isQuiesce
      ensures this.maxQueues == maxQueues && this.transitional == transitional && this.canSuspend == canSuspend
      ensures this.canResume == canResume && this.hasAdmin == hasAdmin
      ensures !ignoreReset && !pendingReset && !pendingFlr && curr == prev == Bar(0, true, false, 0)
    {
      this.maxQueues, this.transitional := maxQueues, transitional;
      this.canSuspend, this.canResume, this.hasAdmin := canSuspend, canResume, hasAdmin;
      state, lm, isQuiesce, pendingReset, pendingResume, pendingFlr := Stopped, Init, false, false, false, false;
      ignoreReset, curr, prev := false, Bar(0, true, false, 0), Bar(0, true, false, 0);
      queues, answers, disturbed := seq(maxQueues, _ => NoQueue), [], false;
    }

    /** Between two steps of the controller, queue `i` goes on. */
    method QueueEvent(i: nat, q: Queue)
      requires Valid() && i < maxQueues && QueueMay(queues[i], q)
      modifies this`queues
      ensures Valid() && queues == old(queues)[i := q]
    {
      queues := queues[i := q];
    }

    /** What asking a controller to suspend makes of it. */
    ghost predicate Asked(ask: bool, s: State, qs: seq<Queue>)
      reads this`state, this`queues
    {
      && state == (if ask && s == Started then if canSuspend then Suspending else Suspended else s)
      && |queues| == |qs|
      && if ask && s == Started && canSuspend then forall i :: 0 <= i < |qs| ==> queues[i] == Flushed(qs[i])
         else queues == qs
    }

    /** Asks every queue to finish. */
    method Suspend() returns (ok: bool)
      requires QueuesOk() && Migrating()
      modifies this`state, this`queues, this`disturbed
      ensures QueuesOk() && Migrating()
      ensures ok <==> old(state) == Started || old(state) == Suspending
      ensures Asked(true, old(state), old(queues))
      ensures old(state) != Started || canSuspend ==> disturbed == old(disturbed)
    {
      if state == Suspending {
        return true;
      }
      if state != Started {
        return false;
      }
      if !canSuspend {
        state := Suspended;
        disturbed := true;
        return true;
      }
      for i := 0 to maxQueues
        invariant |queues| == maxQueues && state == Started && disturbed == old(disturbed)
        invariant forall j :: 0 <= j < |queues| ==> queues[j] == if j < i then Flushed(old(queues)[j]) else old(queues)[j]
      {
        queues := queues[i := Flushed(queues[i])];
      }
      state := Suspending;
      ok := true;
    }

    /** Destroys all queues. When the application refuses, the state stays as it was. */
    method Stop(w: World) returns (ok: bool)
      requires QueuesOk() && Migrating()
      modifies this`state, this`queues, this`disturbed
      ensures QueuesOk() && Migrating()
      ensures ok <==> old(state) == Stopped || w.stopOk
      ensures state == if ok then Stopped else old(state)
      ensures old(state) != Stopped ==> !disturbed && forall i :: 0 <= i < maxQueues ==> queues[i] == NoQueue
      ensures old(state) == Stopped ==> queues == old(queues) && disturbed == old(disturbed)
    {
      if state == Stopped {
        return true;
      }
      ghost var was := state;
      for i := 0 to maxQueues
        invariant |queues| == maxQueues && state == was
        invariant forall j :: 0 <= j < i ==> queues[j] == NoQueue
      {
        if queues[i] != NoQueue {
          queues := queues[i := NoQueue];
        }
      }
      disturbed := false;
      if !w.stopOk {
        return false;
      }
      state := Stopped;
      ok := true;
    }

    /** The first `k` queues have been resumed, all but the last of them well, and the others are as they were. */
    ghost predicate ResumedTo(was: seq<Queue>, now: seq<Queue>, w: World, k: nat)
      requires Fits(w)
    {
      && |was| == |now| == maxQueues && k <= maxQueues
      && (forall j :: 0 <= j < k ==> now[j] == Resumed(was[j], w.resume[j], hasAdmin && j == 0))
      && (forall j :: k <= j < maxQueues ==> now[j] == was[j])
      && (forall j :: 0 <= j < k - 1 ==> !ResumeFails(was[j], w.resume[j]))
    }

    /** The queues after they were resumed one by one, up to the first that could not be. */
    ghost predicate ResumedUntil(was: seq<Queue>, now: seq<Queue>, w: World, ok: bool)
      requires Fits(w)
    {
      if ok then ResumedTo(was, now, w, maxQueues)
      else exists k :: 0 < k && ResumedTo(was, now, w, k) && ResumeFails(was[k - 1], w.resume[k - 1])
    }

    /** Every queue and every placeholder has become a queue in service. */
    ghost predicate Serving(was: seq<Queue>, now: seq<Queue>) {
      && |was| == |now|
      && forall i :: 0 <= i < |was| && (was[i].Active? || was[i] == Placeholder) ==> Serves(now[i])
    }

    lemma ServingAgain(was: seq<Queue>, now: seq<Queue>, w: World)
      requires Fits(w) && ResumedTo(was, now, w, maxQueues)
      requires forall i :: 0 <= i < maxQueues ==> !ResumeFails(was[i], w.resume[i])
      ensures Serving(was, now)
    {
    }

    /** Resumes the queues one by one, up to the first that cannot be resumed. */
    method ResumeQueues(w: World) returns (ok: bool, some: bool)
      requires |queues| == maxQueues && Fits(w)
      modifies this`queues, this`disturbed
      ensures ok <==> forall i :: 0 <= i < maxQueues ==> !ResumeFails(old(queues)[i], w.resume[i])
      ensures ResumedUntil(old(queues), queues, w, ok) && (ok ==> Serving(old(queues), queues))
      ensures ok ==> (some <==> exists i :: 0 <= i < maxQueues && old(queues)[i] != NoQueue)
      ensures ok && !some ==> disturbed == old(disturbed)
      ensures !ok || some ==> disturbed
    {
      some := false;
      for i := 0 to maxQueues
        invariant ResumedTo(old(queues), queues, w, i)
        invariant forall j :: 0 <= j < i ==> !ResumeFails(old(queues)[j], w.resume[j])
        invariant !some ==> disturbed == old(disturbed) && forall j :: 0 <= j < i ==> old(queues)[j] == NoQueue
        invariant some ==> disturbed && exists j :: 0 <= j < i && old(queues)[j] != NoQueue
      {
        if queues[i] != NoQueue {
          var fails := ResumeFails(queues[i], w.resume[i]);
          disturbed := true;
          queues := queues[i := Resumed(queues[i], w.resume[i], hasAdmin && i == 0)];
          assert ResumedTo(old(queues), queues, w, i + 1);
          if fails {
            return false, some;
          }
          some := true;
        }
      }
      ServingAgain(old(queues), queues, w);
      ok := true;
    }

    /** Whether a resume succeeds, or is put off. */
    ghost predicate Resumes(w: World)
      reads this`state, this`queues
      requires |queues| == maxQueues && Fits(w)
    {
      state == Suspended && canSuspend ==>
        canResume && forall i :: 0 <= i < maxQueues ==> !ResumeFails(queues[i], w.resume[i])
    }

    /** A resume leaves every queue as the hardware lets it be, and after one that succeeds every queue and every placeholder
        is a queue in service. */
    method Resume(w: World) returns (ok: bool)
      requires QueuesOk() && Fits(w)
      modifies this`state, this`queues, this`disturbed, this`pendingResume
      ensures QueuesOk() && (ok <==> old(Resumes(w)))
      ensures old(state) != Suspended ==>
                ok && state == old(state) && queues == old(queues) && disturbed == old(disturbed)
                && pendingResume == (old(pendingResume) || old(state) != Stopped)
      ensures old(state) == Suspended ==>
                && (state == Suspended || (ok && state == Started)) && pendingResume == old(pendingResume)
                && (ok && state == Suspended ==> disturbed == old(disturbed))
      ensures old(state) == Suspended && !canSuspend ==> ok && state == Started && queues == old(queues)
      ensures old(state) == Suspended && canSuspend && !canResume ==> !ok && queues == old(queues)
      ensures old(state) == Suspended && canSuspend && canResume ==>
                && (ok ==> (state == Started <==> exists i :: 0 <= i < maxQueues && old(queues)[i] != NoQueue))
                && ResumedUntil(old(queues), queues, w, ok) && (ok ==> Serving(old(queues), queues))
    {
      if state == Stopped {
        return true;
      }
      if state != Suspended {
        pendingResume := true;
        return true;
      }
      if !canSuspend {
        state := Started;
        return true;
      }
      if !canResume {
        return false;
      }
      var some: bool;
      ok, some := ResumeQueues(w);
      if ok && some {
        state := Started;
      }
    }

    /** Destroys the queues made so far by a start that failed; their places stay taken. */
    method CleanUp(n: nat)
      requires |queues| == maxQueues && n <= maxQueues
      modifies this`queues
      ensures |queues| == maxQueues
      ensures forall i :: 0 <= i < maxQueues ==>
                queues[i] == if i < n && old(queues)[i] != NoQueue then Freed else old(queues)[i]
    {
      for j := 0 to n
        invariant |queues| == maxQueues
        invariant forall i :: 0 <= i < maxQueues ==>
                    queues[i] == if i < j && old(queues)[i] != NoQueue then Freed else old(queues)[i]
      {
        if queues[j] != NoQueue {
          queues := queues[j := Freed];
        }
      }
    }

    /** The registers after an error: the device asks for a reset. */
    function Erred(bar: Bar): (r: Bar)
      ensures !transitional ==> (r.status / 64) % 2 == 1
      ensures r == bar.(status := r.status) && (transitional ==> r == bar)
    {
      if transitional then bar else bar.(status := NeedsReset(bar.status))
    }

    method DeviceError()
      modifies this`curr
      ensures curr == Erred(old(curr))
    {
      if !transitional {
        curr := curr.(status := NeedsReset(curr.status));
      }
    }

    /** Whether every enabled queue can be created. */
    ghost predicate CanMake(w: World)
      requires Fits(w)
    {
      forall i :: 0 <= i < maxQueues && w.enable[i] ==> w.createOk[i]
    }

    /** The queues after a start that failed at place `k`, or was refused by the application when all were made: the queues
        before it are destroyed, the others are as they were. */
    ghost predicate AbandonedAt(was: seq<Queue>, now: seq<Queue>, w: World, k: nat)
      requires Fits(w)
    {
      && |was| == |now| == maxQueues && k <= maxQueues
      && (forall i :: 0 <= i < k && w.enable[i] ==> w.createOk[i])
      && (if k < maxQueues then w.enable[k] && !w.createOk[k] && now[k] == NoQueue else !w.startOk)
      && (forall i :: 0 <= i < k ==> now[i] == Abandoned(was[i], w.enable[i]))
      && (forall i :: k < i < maxQueues ==> now[i] == was[i])
    }

    /** Whether a start succeeds. */
    ghost predicate Starts(s: State, w: World)
      requires Fits(w)
    {
      s == Started || (s != Suspending && w.startOk && CanMake(w))
    }

    /** Whether the application refuses a start for which all queues were created. */
    ghost predicate Refused(s: State, w: World)
      requires Fits(w)
    {
      s != Started && s != Suspending && CanMake(w) && !w.startOk
    }

    /** The queues after a start. */
    ghost predicate Brought(was: seq<Queue>, s: State, w: World, now: seq<Queue>)
      requires Fits(w) && |was| == maxQueues
    {
      && |now| == maxQueues
      && if s == Started || s == Suspending then now == was
         else if Starts(s, w) then
           forall i :: 0 <= i < maxQueues ==> now[i] == Made(was[i], w.enable[i], s, hasAdmin && i == 0)
         else exists k :: AbandonedAt(was, now, w, k)
    }

    /** Makes the enabled queues; placeholders if the controller is suspended. */
    method MakeQueues(w: World) returns (ok: bool)
      requires |queues| == maxQueues && Fits(w)
      modifies this`queues
      ensures |queues| == maxQueues
      ensures ok ==> forall i :: 0 <= i < maxQueues ==>
                       queues[i] == Made(old(queues)[i], w.enable[i], state, hasAdmin && i == 0)
      ensures !ok ==> exists k :: 0 <= k < maxQueues && AbandonedAt(old(queues), queues, w, k)
      ensures ok <==> CanMake(w)
    {
      for i := 0 to maxQueues
        invariant |queues| == maxQueues
        invariant forall j :: i <= j < maxQueues ==> queues[j] == old(queues)[j]
        invariant forall j :: 0 <= j < i ==> queues[j] == Made(old(queues)[j], w.enable[j], state, hasAdmin && j == 0)
        invariant forall j :: 0 <= j < i && w.enable[j] ==> w.createOk[j]
      {
        if w.enable[i] {
          if !w.createOk[i] {
            queues := queues[i := NoQueue];
            CleanUp(i);
            assert AbandonedAt(old(queues), queues, w, i);
            return false;
          }
          queues := queues[i := Made(queues[i], true, state, hasAdmin && i == 0)];
        }
      }
      ok := true;
    }

    /** Starts the controller, or gives a suspended one its placeholders. */
    method Start(w: World) returns (ok: bool)
      requires QueuesOk() && Migrating() && Fits(w)
      modifies this`state, this`lm, this`queues, this`curr
      ensures QueuesOk() && Migrating()
      ensures state == old(state) || (ok && old(state) == Stopped && state == Started)
      ensures ok && old(state) != Suspended ==> state == Started
      ensures lm == if state == Started then Running else old(lm)
      ensures old(state) == Suspending ==> !ok
      ensures ok <==> Starts(old(state), w)
      ensures Brought(old(queues), old(state), w, queues)
      ensures curr == if Refused(old(state), w) then Erred(old(curr)) else old(curr)
    {
      ok := true;
      if state == Started {
        lm := Running;
        return;
      }
      if state == Suspending {
        return false;
      }
      ok := MakeQueues(w);
      if ok && !w.startOk {
        DeviceError();
        CleanUp(maxQueues);
        assert AbandonedAt(old(queues), queues, w, maxQueues);
        ok := false;
      }
      if ok && state != Suspended {
        state := Started;
      }
      if state == Started {
        lm := Running;
      }
    }

    /** Whether no queue has a reason to be in service. */
    ghost predicate Calm()
      reads this`state, this`disturbed
    {
      state == Stopped || state == Suspended ==> !disturbed
    }

    ghost predicate At(s: State, l: Migration, qs: seq<Queue>)
      reads this`state, this`lm, this`queues
    {
      state == s && lm == l && queues == qs
    }

    /** The queues of a controller that is to be stopped. */
    ghost function LoweredAll(qs: seq<Queue>, s: State): seq<Queue> {
      seq(|qs|, i requires 0 <= i < |qs| => Lowered(qs[i], s, canSuspend))
    }

    /** The driver was ready when the controller had state `s`, migration state `l` and queues `qs`: a stopped controller is
        started if and only if validation, creation and start succeed. */
    ghost predicate Readied(w: World, s: State, l: Migration, qs: seq<Queue>)
      reads this`state, this`lm, this`queues
      requires Fits(w) && |qs| == maxQueues
    {
      && state == (if s == Stopped && w.validateOk && Starts(s, w) then Started else s)
      && lm == (if w.validateOk && state == Started then Running else l)
      && if w.validateOk then Brought(qs, s, w, queues) else queues == qs
    }

    /** What the registers have made of a controller that had state `s`, migration state `l` and queues `qs`. Without DRIVER_OK
        a reset takes the controller down. With it, the driver is ready; after a reset too, unless the device has cleared the
        status or has yet to see the reset bit cleared. */
    ghost predicate Obeyed(w: World, bar: Bar, ignored: bool, s: State, l: Migration, qs: seq<Queue>)
      reads this`state, this`lm, this`queues
      requires Fits(w) && |qs| == maxQueues
    {
      var down := Down(s, canSuspend, w.stopOk);
      if !bar.enabled then At(down, if down == Suspending then l else Running, LoweredAll(qs, s))
      else if bar.reset && !ignored then
        if !Live(bar) || transitional || (down == Stopped && bar.bdf != 0 && w.clearOk) then At(down, l, LoweredAll(qs, s))
        else Readied(w, down, l, LoweredAll(qs, s))
      else if Live(bar) && !(transitional && bar.reset) then Readied(w, s, l, qs)
      else At(s, l, qs)
    }

    /** The registers after the reset bit has been cleared: the device then shows status 0. */
    function Cleared(bar: Bar, w: World): Bar {
      bar.(reset := false, status := if w.clearOk then 0 else bar.status)
    }

    /** Stops the controller because the driver has reset the device. */
    method Reset(w: World) returns (ok: bool)
      requires QueuesOk() && Migrating()
      modifies this`state, this`queues, this`disturbed, this`curr
      ensures QueuesOk() && Migrating() && (old(Calm()) ==> Calm())
      ensures state == if old(state) == Stopped || w.stopOk then Stopped else old(state)
      ensures old(state) != Stopped ==> !disturbed && forall i :: 0 <= i < maxQueues ==> queues[i] == NoQueue
      ensures old(state) == Stopped ==> queues == old(queues)
      ensures ok <==> state == Stopped && (transitional || old(curr).bdf == 0 || w.clearOk)
      ensures curr == if state != Stopped || transitional || old(curr).bdf == 0 then old(curr) else Cleared(old(curr), w)
    {
      ok := Stop(w);
      if ok && !transitional && curr.bdf != 0 {
        ok := ClearReset(w);
      }
    }

    method ClearReset(w: World) returns (ok: bool)
      modifies this`curr
      ensures ok == w.clearOk && curr == Cleared(old(curr), w)
    {
      curr := curr.(reset := false);
      ok := w.clearOk;
      if ok {
        curr := curr.(status := 0);
      }
    }

    ghost predicate Rested(w: World)
      reads this`queues
      requires |queues| == maxQueues && Fits(w)
    {
      forall i :: 0 <= i < maxQueues ==> FoundResting(queues[i], w.resume[i])
    }

    /** Whether resuming brings a suspended controller back to service. */
    ghost predicate Restarts(w: World)
      reads this`queues
      requires |queues| == maxQueues && Fits(w)
    {
      && (forall i :: 0 <= i < maxQueues ==> !ResumeFails(queues[i], w.resume[i]))
      && (exists i :: 0 <= i < maxQueues && queues[i] != NoQueue)
    }

    method AllResting(w: World) returns (yes: bool)
      requires |queues| == maxQueues && Fits(w)
      ensures yes <==> Rested(w)
    {
      for i := 0 to maxQueues
        invariant forall j :: 0 <= j < i ==> FoundResting(queues[j], w.resume[j])
      {
        if !FoundResting(queues[i], w.resume[i]) {
          return false;
        }
      }
      yes := true;
    }

    /** The controller has just been suspended, with all queues at rest. A pending reset stops it, a quiesce command that
        waits is answered, and a pending resume brings it back to service. */
    method EndSuspend(w: World)
      requires QueuesOk() && lm != Quiesced && lm != Freezed && state == Suspended && !disturbed && canSuspend && Fits(w)
      modifies this`state, this`queues, this`disturbed, this`curr, this`lm, this`isQuiesce, this`answers,
               this`pendingReset, this`pendingResume
      ensures QueuesOk() && !isQuiesce && !pendingReset && !pendingResume
      ensures answers == old(answers) + (if old(isQuiesce) then [true] else [])
      ensures lm == if old(isQuiesce) then Quiesced else old(lm)
      ensures !old(pendingResume) ==> (state == Stopped || state == Suspended) && !disturbed
      ensures state == Suspended <==>
                && !(old(pendingReset) && w.stopOk)
                && !(old(pendingResume) && !old(pendingReset) && canResume && old(Restarts(w)))
      ensures old(pendingReset) && w.stopOk ==> state == Stopped
      ensures old(pendingReset) ==> forall i :: 0 <= i < maxQueues ==> queues[i] == NoQueue
      ensures !old(pendingReset) && !old(pendingResume) ==> queues == old(queues)
      ensures !old(pendingReset) && old(pendingResume) && canResume && old(Restarts(w)) ==>
                ResumedTo(old(queues), queues, w, maxQueues)
      ensures Migrating() <==> !(old(isQuiesce) && old(pendingResume) && !old(pendingReset)
                                 && canResume && old(Restarts(w)))
    {
      if pendingReset {
        var _ := Reset(w);
        pendingReset := false;
      }
      if isQuiesce {
        lm, isQuiesce, answers := Quiesced, false, answers + [true];
      }
      if pendingResume {
        var _ := Resume(w);
        pendingResume := false;
      }
    }

    /** Looks whether a suspend has come to its end, and if so does what waits for that. A quiesce command that waits is
        answered with OK, and then every queue is at rest; the controller stays stopped or suspended after that answer
        unless a resume was waiting too and brings it back to service. */
    method ProgressSuspend(w: World)
      requires QueuesOk() && Migrating() && state == Suspending && Fits(w)
      modifies this`state, this`queues, this`disturbed, this`curr, this`lm, this`isQuiesce, this`answers,
               this`pendingReset, this`pendingResume
      ensures QueuesOk()
      ensures !old(Rested(w)) ==>
                && At(Suspending, old(lm), old(queues)) && answers == old(answers) && curr == old(curr)
                && isQuiesce == old(isQuiesce) && pendingReset == old(pendingReset) && pendingResume == old(pendingResume)
                && disturbed == old(disturbed)
      ensures old(Rested(w)) ==>
                && !isQuiesce && !pendingReset && !pendingResume
                && answers == old(answers) + (if old(isQuiesce) then [true] else [])
                && lm == (if old(isQuiesce) then Quiesced else old(lm))
                && (!old(pendingResume) ==> (state == Stopped || state == Suspended) && !disturbed && AllQuiet(queues))
                && (state == Suspended <==>
                      && !(old(pendingReset) && w.stopOk)
                      && !(old(pendingResume) && !old(pendingReset) && canResume && old(Restarts(w))))
                && (old(pendingReset) && w.stopOk ==> state == Stopped)
                && (old(pendingReset) ==> forall i :: 0 <= i < maxQueues ==> queues[i] == NoQueue)
                && (!old(pendingReset) && !old(pendingResume) ==> queues == old(queues))
                && (!old(pendingReset) && old(pendingResume) && canResume && old(Restarts(w)) ==>
                      ResumedTo(old(queues), queues, w, maxQueues))
      ensures Migrating() <==> !(old(Rested(w)) && old(isQuiesce) && old(pendingResume) && !old(pendingReset)
                                 && canResume && old(Restarts(w)))
    {
      var rested := AllResting(w);
      if !rested {
        return;
      }
      state := Suspended;
      disturbed := false;
      assert AllQuiet(queues);
      EndSuspend(w);
    }

    /** A function-level reset stops the controller, once it is suspended, ends a migration and opens the device again. */
    method FunctionReset(w: World)
      requires QueuesOk() && Migrating() && Fits(w) && !curr.enabled
      modifies this`state, this`queues, this`disturbed, this`curr, this`lm, this`pendingFlr
      ensures QueuesOk() && Migrating() && (canSuspend && old(Calm()) ==> Calm())
      ensures Obeyed(w, old(curr), ignoreReset, old(state), old(lm), old(queues))
      ensures Noted(w, old(curr), ignoreReset, old(pendingFlr), old(state))
    {
      if state != Stopped {
        if state == Started {
          var _ := Suspend();
        }
        var ok := true;
        if state == Suspended {
          ok := Stop(w);
        }
        if ok && state != Stopped {
          return;
        }
      }
      if lm != Running {
        lm := Running;
      }
      if w.flrHeld {
        return;
      }
      pendingFlr := !w.reopened;
      if !pendingFlr {
        curr := curr.(status := 0, enabled := false, reset := false);
      }
    }

    /** The driver has reset the device: stops the controller now, or once it is suspended. */
    method DriverReset(w: World) returns (ok: bool)
      requires QueuesOk() && Migrating()
      modifies this`state, this`queues, this`disturbed, this`curr, this`ignoreReset, this`pendingReset
      ensures QueuesOk() && Migrating() && (canSuspend && old(Calm()) ==> Calm())
      ensures At(Down(old(state), canSuspend, w.stopOk), lm, LoweredAll(old(queues), old(state)))
      ensures pendingReset == (old(pendingReset) || state == Suspending)
      ensures ignoreReset == (old(ignoreReset) || transitional)
      ensures ok <==> state == Suspending || (state == Stopped && (transitional || old(curr).bdf == 0 || w.clearOk))
      ensures curr == if state != Stopped || transitional || old(curr).bdf == 0 then old(curr) else Cleared(old(curr), w)
    {
      ok := true;
      if transitional {
        ignoreReset := true;
      }
      var _ := Suspend();
      if state == Stopped || state == Suspended {
        ok := Reset(w);
      } else {
        pendingReset := true;
      }
    }

    /** The driver is ready: starts the controller. A transitional device first has its reset bit cleared, and the start
        is left to the next step. */
    method DriverReady(w: World) returns (ok: bool)
      requires QueuesOk() && Migrating() && Fits(w)
      modifies this`state, this`lm, this`queues, this`curr, this`ignoreReset
      ensures QueuesOk() && Migrating() && (old(Calm()) ==> Calm())
      ensures transitional && old(curr).reset ==>
                && At(old(state), old(lm), old(queues)) && ok == w.clearOk
                && curr == Cleared(old(curr), w) && ignoreReset == (old(ignoreReset) && !ok)
      ensures !(transitional && old(curr).reset) ==>
                && (ok <==> w.validateOk && Starts(old(state), w)) && Readied(w, old(state), old(lm), old(queues))
                && curr == (if w.validateOk && Refused(old(state), w) then Erred(old(curr)) else old(curr))
                && ignoreReset == old(ignoreReset)
    {
      if transitional && curr.reset {
        ok := ClearReset(w);
        if ok {
          ignoreReset := false;
        }
        return;
      }
      ok := w.validateOk;
      if ok {
        ok := Start(w);
      }
    }

    /** Whether the reset that the registers ask for is done, or has been put off. */
    predicate ResetOk(w: World, bar: Bar, s: State) {
      var down := Down(s, canSuspend, w.stopOk);
      down == Suspending || (down == Stopped && (transitional || bar.bdf == 0 || w.clearOk))
    }

    /** The registers after the reset that they ask for. */
    function BarReset(w: World, bar: Bar, s: State): Bar {
      if Down(s, canSuspend, w.stopOk) != Stopped || transitional || bar.bdf == 0 then bar else Cleared(bar, w)
    }

    /** Whether a ready driver gets what it asks for. */
    ghost predicate ReadyOk(w: World, bar: Bar, s: State)
      requires Fits(w)
    {
      if transitional && bar.reset then w.clearOk else w.validateOk && Starts(s, w)
    }

    /** The registers after the driver was ready. */
    ghost function BarReady(w: World, bar: Bar, s: State): Bar
      requires Fits(w)
    {
      if transitional && bar.reset then Cleared(bar, w)
      else if w.validateOk && Refused(s, w) then Erred(bar)
      else bar
    }

    /** Whether the driver gets all that it asks for, and the registers then. */
    ghost predicate ActsOk(w: World, bar: Bar, ignored: bool, s: State)
      requires Fits(w)
    {
      var resets := bar.reset && !ignored;
      var b, t := if resets then BarReset(w, bar, s) else bar, if resets then Down(s, canSuspend, w.stopOk) else s;
      if Live(b) then ReadyOk(w, b, t) else resets ==> ResetOk(w, bar, s)
    }

    ghost function BarActed(w: World, bar: Bar, ignored: bool, s: State): Bar
      requires Fits(w)
    {
      var resets := bar.reset && !ignored;
      var b, t := if resets then BarReset(w, bar, s) else bar, if resets then Down(s, canSuspend, w.stopOk) else s;
      if Live(b) then BarReady(w, b, t) else b
    }

    /** Resets are ignored from the first one of a transitional device until a ready driver has had the reset bit cleared. */
    predicate Ignores(w: World, bar: Bar, ignored: bool) {
      if transitional && bar.reset then !(Live(bar) && w.clearOk) else ignored
    }

    /** Whether a pending reset results from the registers. */
    predicate PutsOff(w: World, bar: Bar, ignored: bool, s: State) {
      bar.enabled && bar.reset && !ignored && Down(s, canSuspend, w.stopOk) == Suspending
    }

    /** What the driver has written: a reset, and that it is ready. */
    method DriverActs(w: World) returns (ok: bool)
      requires QueuesOk() && Migrating() && Fits(w) && curr.enabled
      modifies this`state, this`lm, this`queues, this`disturbed, this`curr, this`ignoreReset, this`pendingReset
      ensures QueuesOk() && Migrating() && (canSuspend && old(Calm()) ==> Calm())
      ensures Obeyed(w, old(curr), old(ignoreReset), old(state), old(lm), old(queues))
      ensures pendingReset == (old(pendingReset) || PutsOff(w, old(curr), old(ignoreReset), old(state)))
      ensures ok <==> ActsOk(w, old(curr), old(ignoreReset), old(state))
      ensures curr == BarActed(w, old(curr), old(ignoreReset), old(state))
      ensures ignoreReset == Ignores(w, old(curr), old(ignoreReset))
    {
      ok := true;
      if !ignoreReset && curr.reset {
        ok := DriverReset(w);
      }
      if Live(curr) {
        ok := DriverReady(w);
      }
    }

    /** What the registers and what goes with them have become, for each case of the registers. */
    ghost predicate Noted(w: World, bar: Bar, ignored: bool, held: bool, s: State)
      reads this`curr, this`ignoreReset, this`pendingFlr
      requires Fits(w)
    {
      if bar.enabled then
        && ignoreReset == Ignores(w, bar, ignored) && pendingFlr == held
        && var b := BarActed(w, bar, ignored, s);
           curr == if ActsOk(w, bar, ignored, s) then b else Erred(b)
      else
        var gone := Down(s, canSuspend, w.stopOk) != Suspending && !w.flrHeld;
        && pendingFlr == (if gone then !w.reopened else held) && ignoreReset == ignored
        && curr == if gone && w.reopened then bar.(status := 0, enabled := false, reset := false) else bar
    }

    /** Does what the driver asks for, and shows whether it has. */
    method DriverChange(w: World)
      requires QueuesOk() && Migrating() && Fits(w) && curr.enabled
      modifies this`state, this`lm, this`queues, this`disturbed, this`curr, this`ignoreReset, this`pendingReset
      ensures QueuesOk() && Migrating() && (canSuspend && old(Calm()) ==> Calm())
      ensures Obeyed(w, old(curr), old(ignoreReset), old(state), old(lm), old(queues))
      ensures pendingReset == (old(pendingReset) || PutsOff(w, old(curr), old(ignoreReset), old(state)))
      ensures Noted(w, old(curr), old(ignoreReset), pendingFlr, old(state))
    {
      var ok := DriverActs(w);
      if !ok {
        DeviceError();
      }
    }

    /** Does what the registers ask for. */
    method ChangeStatus(w: World)
      requires QueuesOk() && Migrating() && Fits(w)
      modifies this`state, this`lm, this`queues, this`disturbed, this`curr, this`ignoreReset, this`pendingReset,
               this`pendingFlr
      ensures QueuesOk() && Migrating() && (canSuspend && old(Calm()) ==> Calm())
      ensures Obeyed(w, old(curr), old(ignoreReset), old(state), old(lm), old(queues))
      ensures pendingReset == (old(pendingReset) || PutsOff(w, old(curr), old(ignoreReset), old(state)))
      ensures Noted(w, old(curr), old(ignoreReset), old(pendingFlr), old(state))
    {
      if !curr.enabled {
        FunctionReset(w);
        return;
      }
      DriverChange(w);
    }

    /** Whether the registers call for something. */
    predicate Calls(was: Bar, w: World) {
      w.barOk && (w.bar.status != was.status || w.bar.enabled != was.enabled || w.bar.reset || !w.bar.enabled)
    }

    /** What reading the registers has made of a controller whose registers were `was`. */
    ghost predicate Polled(w: World, was: Bar, ignored: bool, s: State, l: Migration, qs: seq<Queue>)
      reads this`state, this`lm, this`queues
      requires Fits(w) && |qs| == maxQueues
    {
      if Calls(was, w) then Obeyed(w, w.bar, ignored, s, l, qs) else At(s, l, qs)
    }

    /** Exactly the enabled places have queues, in service and with nothing under way, and only the first can be the admin
        queue. */
    ghost predicate ServesEnabled(w: World)
      reads this`queues
      requires Fits(w)
    {
      && |queues| == maxQueues
      && forall i :: 0 <= i < maxQueues ==>
           if w.enable[i] then
             Serves(queues[i]) && Unsettled(queues[i]) == 0 && (queues[i].admin <==> hasAdmin && i == 0)
           else !queues[i].Active?
    }

    /** Obeying the registers never freezes, and a stopped controller with nothing but a ready driver is started if and only if
        validation, start and creation succeed. */
    lemma PolledSays(w: World, was: Bar, ignored: bool, s: State, l: Migration, qs: seq<Queue>)
      requires Fits(w) && |qs| == maxQueues && Polled(w, was, ignored, s, l, qs)
      ensures (lm == Freezed ==> l == Freezed) && (s == Stopped ==> state == Stopped || state == Started)
      ensures s == Stopped && Calls(was, w) && w.bar.enabled && !w.bar.reset && Live(w.bar) ==>
                (state == Started <==> w.validateOk && w.startOk && CanMake(w))
      ensures s == Stopped && state == Started && (forall i :: 0 <= i < maxQueues ==> !qs[i].Active?) ==> ServesEnabled(w)
    {
    }

    /** Reads the registers and does what they ask for. */
    method PollBar(w: World)
      requires QueuesOk() && Migrating() && Fits(w)
      modifies this`state, this`lm, this`queues, this`disturbed, this`curr, this`prev, this`ignoreReset, this`pendingReset,
               this`pendingFlr
      ensures QueuesOk() && Migrating() && (canSuspend && old(Calm()) ==> Calm())
      ensures Polled(w, old(curr), old(ignoreReset), old(state), old(lm), old(queues))
      ensures pendingReset ==
                (old(pendingReset) || (Calls(old(curr), w) && PutsOff(w, w.bar, old(ignoreReset), old(state))))
      ensures prev == old(curr)
      ensures if Calls(old(curr), w) then Noted(w, w.bar, old(ignoreReset), old(pendingFlr), old(state))
              else
                && curr == (if w.barOk then w.bar else old(curr))
                && ignoreReset == old(ignoreReset) && pendingFlr == old(pendingFlr)
    {
      prev := curr;
      if !w.barOk {
        return;
      }
      curr := w.bar;
      if curr.status != prev.status || curr.enabled != prev.enabled || curr.reset || !curr.enabled {
        ChangeStatus(w);
      }
    }

    /** One step of the controller: `w0` is what happens while a suspend is looked after, `w` what follows. */
    method Progress(w0: World, w: World)
      requires Valid() && Fits(w0) && Fits(w)
      modifies this
      ensures Valid() && (lm == Freezed ==> old(lm) == Freezed)
      ensures canSuspend && old(Calm()) && !old(pendingResume) ==> Calm() && !pendingResume
      ensures answers == old(answers) +
                if !old(pendingFlr) && old(state) == Suspending && old(isQuiesce) && old(Rested(w0)) then [true] else []
      ensures old(pendingFlr) ==> At(old(state), old(lm), old(queues)) && pendingReset == old(pendingReset)
      ensures !old(pendingFlr) && !(old(state) == Suspending && old(Rested(w0))) ==>
                && Polled(w, old(curr), old(ignoreReset), old(state), old(lm), old(queues))
                && pendingReset ==
                     (old(pendingReset) || (Calls(old(curr), w) && PutsOff(w, w.bar, old(ignoreReset), old(state))))
      ensures !old(pendingFlr) && old(state) == Stopped && Calls(old(curr), w)
              && w.bar.enabled && !w.bar.reset && Live(w.bar) ==>
                (state == Started <==> w.validateOk && w.startOk && CanMake(w))
      ensures old(state) == Stopped && state == Started ==> ServesEnabled(w)
      ensures !old(pendingFlr) && old(state) == Suspending && old(Rested(w0)) && old(pendingReset) && w0.stopOk ==>
                state == Stopped || state == Started
    {
      if pendingFlr {
        return;
      }
      if state == Suspending {
        ProgressSuspend(w0);
      }
      ghost var was, ignored, s, l, qs := curr, ignoreReset, state, lm, queues;
      PollBar(w);
      PolledSays(w, was, ignored, s, l, qs);
    }

    /** The quiesce command: answered at once with OK if the controller is stopped, with "try again" if it cannot be
        suspended now, and otherwise when it has been suspended. It must not come while a resume waits. */
    method QuiesceCommand() returns (answered: bool)
      requires Valid()
      modifies this`state, this`queues, this`disturbed, this`lm, this`isQuiesce, this`answers
      ensures QueuesOk() && Migrating()
      ensures Valid() <==> answered || !old(pendingResume)
      ensures lm == old(lm) || (lm == Quiesced && state == Stopped && (old(lm) == Running || old(lm) == Init))
      ensures canSuspend && old(Calm()) ==> Calm()
      ensures !answered <==> (old(lm) == Running || old(lm) == Init) && (old(state) == Started || old(state) == Suspending)
      ensures Asked(!answered, old(state), old(queues))
      ensures answered ==> answers == old(answers) + [lm == Quiesced && old(lm) != Quiesced]
                           && (lm == Quiesced <==> (old(lm) == Quiesced || (old(lm) != Freezed && old(state) == Stopped)))
      ensures !answered ==> answers == old(answers) && isQuiesce && lm == old(lm) && (lm == Running || lm == Init)
    {
      var ok := lm == Running || lm == Init;
      if ok && state == Stopped {
        lm := Quiesced;
      } else if ok {
        ok := Suspend();
        if ok {
          isQuiesce := true;
          return false;
        }
      }
      answers := answers + [ok];
      answered := true;
    }

    /** The waiting form of quiesce, which looks again and again until it finds the controller suspended: its first part.
        The result says whether it waits. It looks only between calls of `Progress`, and there it does not find the
        controller suspended if a reset was pending and stopped it, nor later while the controller is not suspended
        again. */
    method Quiesce() returns (ok: bool, waits: bool)
      requires Valid()
      modifies this`state, this`queues, this`disturbed, this`lm
      ensures Valid() && (canSuspend && old(Calm()) ==> Calm())
      ensures lm == if ok && !waits then Quiesced else old(lm)
      ensures ok <==> (old(lm) == Running || old(lm) == Init) && old(state) != Suspended
      ensures waits <==> ok && old(state) != Stopped
      ensures Asked(waits, old(state), old(queues))
    {
      ok, waits := lm == Running || lm == Init, false;
      if ok && state == Stopped {
        lm := Quiesced;
      } else if ok {
        ok := Suspend();
        waits := ok;
      }
    }

    /** Its second part, when it finds the controller suspended. */
    method QuiesceFound()
      requires Valid() && state == Suspended
      modifies this`lm
      ensures Valid() && lm == Quiesced
    {
      lm := Quiesced;
    }

    method Unquiesce(w: World) returns (ok: bool)
      requires Valid() && Fits(w)
      modifies this`state, this`queues, this`disturbed, this`pendingResume, this`lm
      ensures Valid() && (ok ==> old(Calm()) ==> Calm())
      ensures ok <==> old(lm) == Quiesced && old(Resumes(w))
      ensures lm == if ok then Running else old(lm)
      ensures ok && old(state) == Suspended && canSuspend ==>
                && ResumedTo(old(queues), queues, w, maxQueues) && Serving(old(queues), queues)
                && (state == Started <==> exists i :: 0 <= i < maxQueues && old(queues)[i] != NoQueue)
      ensures !ok ==> state == old(state) && (old(lm) != Quiesced ==> queues == old(queues))
    {
      if lm != Quiesced {
        return false;
      }
      ok := Resume(w);
      if ok {
        lm := Running;
      }
    }

    /** Freezing reads the registers once more. */
    method Freeze(bar: Bar) returns (ok: bool)
      requires Valid()
      modifies this`lm, this`curr
      ensures Valid() && (ok <==> old(lm) == Quiesced) && lm == (if ok then Freezed else old(lm))
      ensures curr == if ok then bar else old(curr)
    {
      ok := lm == Quiesced;
      if ok {
        curr, lm := bar, Freezed;
      }
    }

    method Unfreeze() returns (ok: bool)
      requires Valid()
      modifies this`lm
      ensures Valid() && (ok <==> old(lm) == Freezed) && lm == if ok then Quiesced else old(lm)
    {
      ok := lm == Freezed;
      if ok {
        lm := Quiesced;
      }
    }

    /** The admin command that asks for a migration state. An OK answer means that the controller is in that state; the
        answer to a quiesce that waits is given when the suspend has ended. */
    method ModifyStatus(target: Migration, w: World) returns (answered: bool, ok: bool)
      requires Valid() && Fits(w) && (target == Quiesced ==> !pendingResume)
      modifies this
      ensures Valid()
      ensures answered && ok ==> lm == target && target != Init
      ensures !answered ==> target == Quiesced && isQuiesce && lm == old(lm) && (lm == Running || lm == Init)
      ensures answered && !ok ==> lm == old(lm)
      ensures lm == Freezed ==> old(lm) == Freezed || (old(lm) == Quiesced && target == Freezed)
      ensures !answered <==> target == Quiesced && (old(lm) == Running || old(lm) == Init)
                             && (old(state) == Started || old(state) == Suspending)
      ensures answered ==>
                (ok <==> match target
                         case Init => false
                         case Quiesced => old(lm) == Freezed || (old(lm) != Quiesced && old(state) == Stopped)
                         case Freezed => old(lm) == Quiesced
                         case Running => old(lm) == Quiesced && old(Resumes(w)))
    {
      answered, ok := true, false;
      match target
      case Quiesced =>
        if lm == Freezed {
          ok := Unfreeze();
        } else {
          answered := QuiesceCommand();
          ok := answered && answers[|answers| - 1];
        }
      case Freezed =>
        ok := Freeze(w.bar);
      case Running =>
        ok := Unquiesce(w);
      case Init =>
    }

    /** After the state of another controller has been read: the controller must be stopped or suspended, and its queues
        are destroyed; if the state is that of a live device it gets placeholders and stays suspended. `w.bar` has the
        new status, `w.barOk` says whether the device accepted the state. */
    method Restored(w: World) returns (ok: bool)
      requires Valid() && Fits(w)
      modifies this`state, this`lm, this`queues, this`disturbed, this`curr, this`prev
      ensures Valid() && lm == old(lm) && (old(Calm()) ==> Calm())
      ensures old(state) == Started || old(state) == Suspending ==> !ok && state == old(state) && queues == old(queues)
      ensures ok ==> forall i :: 0 <= i < maxQueues ==> !queues[i].Active?
      ensures ok <==> && (old(state) == Stopped || old(state) == Suspended) && w.barOk
                      && (Live(w.bar) ==> Starts(Suspended, w))
      ensures old(state) == Stopped || old(state) == Suspended ==>
                var qs := if old(state) == Stopped then old(queues) else seq(maxQueues, _ => NoQueue);
                var bar := old(curr).(status := w.bar.status);
                && prev == (if w.barOk then curr else old(prev))
                && if w.barOk && Live(w.bar) then
                     && state == Suspended && Brought(qs, Suspended, w, queues)
                     && curr == if Refused(Suspended, w) then Erred(bar) else bar
                   else
                     && state == (if w.stopOk then Stopped else old(state)) && queues == qs && curr == bar
    {
      if state != Stopped && state != Suspended {
        return false;
      }
      if state == Suspended {
        var _ := Stop(w);
      }
      curr := curr.(status := w.bar.status);
      ok := w.barOk;
      if !ok {
        return;
      }
      if Live(curr) {
        state := Suspended;
        ok := Start(w);
      }
      prev := curr;
    }

    /** A resume asked for from outside. It is harmless if no quiesce is under way or done. */
    method AskResume(w: World) returns (ok: bool)
      requires Valid() && Fits(w)
      modifies this`state, this`queues, this`disturbed, this`pendingResume
      ensures QueuesOk() && (!old(isQuiesce) && old(lm) != Quiesced && old(lm) != Freezed ==> Valid())
    {
      ok := Resume(w);
    }

    method Step(e: Event)
      requires Valid() && FitsEvent(e) && Apart(e)
      modifies this
      ensures Valid()
      ensures lm == Freezed ==> old(lm) == Freezed || (old(lm) == Quiesced && e.FreezeIt?)
      ensures canSuspend && old(Calm()) && !old(pendingResume) && Harmless(e) ==>
                && Calm() && !pendingResume
                && (lm == Quiesced || lm == Freezed ==> AllQuiet(queues))
    {
      match e
      case QueueGoesOn(i, q) => QueueEvent(i, q);
      case Progresses(w0, w) => Progress(w0, w);
      case QuiesceIt => var _ := QuiesceCommand();
      case QuiesceAndWait => var _, _ := Quiesce();
      case WaitEnds => if state == Suspended { QuiesceFound(); }
      case UnquiesceIt(w) => var _ := Unquiesce(w);
      case FreezeIt(bar) => var _ := Freeze(bar);
      case UnfreezeIt => var _ := Unfreeze();
      case RestoreIt(w) => var _ := Restored(w);
      case ResumeIt(w) => var _ := AskResume(w);
    }

    /** The event can happen: a queue does what queues do, and the world answers for every queue. */
    predicate FitsEvent(e: Event)
      reads this
      requires |queues| == maxQueues
    {
      match e
      case QueueGoesOn(i, q) => i < maxQueues && QueueMay(queues[i], q)
      case Progresses(w0, w) => Fits(w0) && Fits(w)
      case UnquiesceIt(w) => Fits(w)
      case RestoreIt(w) => Fits(w)
      case ResumeIt(w) => Fits(w)
      case _ => true
    }

    /** A whole run, from any consistent state, of the events that can happen and do not overlap in that way. */
    method Run(es: seq<Event>)
      requires Valid()
      modifies this
      ensures Valid() && (lm == Quiesced || lm == Freezed ==> state == Stopped || state == Suspended)
      ensures canSuspend && old(Calm()) && !old(pendingResume) && (forall e :: e in es ==> Harmless(e)) ==>
                (lm == Quiesced || lm == Freezed ==> AllQuiet(queues))
    {
      for i := 0 to |es|
        invariant Valid()
        invariant canSuspend && old(Calm()) && !old(pendingResume) && (forall e :: e in es ==> Harmless(e)) ==>
                    Calm() && !pendingResume
      {
        if FitsEvent(es[i]) && Apart(es[i]) {
          Step(es[i]);
        }
      }
    }

    /** Quiesce commands and resumes asked for from outside do not overlap. */
    predicate Apart(e: Event)
      reads this
    {
      && (e.QuiesceIt? ==> !pendingResume)
      && (e.ResumeIt? ==> !isQuiesce && lm != Quiesced && lm != Freezed)
    }
  }

  datatype Event =
    | QueueGoesOn(i: nat, q: Queue)
    | Progresses(w0: World, w: World)
    | QuiesceIt
    | QuiesceAndWait
    | WaitEnds
    | UnquiesceIt(w: World)
    | FreezeIt(bar: Bar)
    | UnfreezeIt
    | RestoreIt(w: World)
    | ResumeIt(w: World)

  /** The events after which a suspended controller still has all its queues at rest. */
  predicate Harmless(e: Event) {
    !e.UnquiesceIt? && !e.ResumeIt?
  }
}
