/** The state machine of one block command (ctrl/virtq_common.c, ctrl/snap_virtio_blk_virtq.c).

    Each handler looks at its command, the queue's counters and the status of the operation that just
    ended, posts at most one operation to the host or the backend, and either moves on at once or waits.
    Answers of the host, the backend and the allocator come from an environment record per call. */
module BlkMachine {

  /** In the order of `enum virtq_cmd_sm_state`. */
  datatype State =
    | Idle | FetchDescs | ReadHeader | ParseHeader | ReadData | HandleReq | OutDataDone | InDataDone
    | WriteStatus | SendComp | SendInOrderComp | Release | FatalErr

  function Rank(s: State): nat {
    match s
    case Idle => 0
    case FetchDescs => 1
    case ReadHeader => 2
    case ParseHeader => 3
    case ReadData => 4
    case HandleReq => 5
    case OutDataDone => 6
    case InDataDone => 7
    case WriteStatus => 8
    case SendComp => 9
    case SendInOrderComp => 10
    case Release => 11
    case FatalErr => 12
  }

  /** The status handed to a handler: how the operation that the command waited for ended. */
  datatype OpStatus = OpOk | OpErr

  /** The operation that a command waits for. */
  datatype Pending = Nothing | HostDma | Bdev | MemPool

  /** The status byte of the request's footer. */
  datatype StatusByte = Good | IoErr | Unsupported

  /** The request types of the block device. */
  datatype Kind = Out | In | Flush | GetId | Other

  /** What a command does to the host or the backend: it reads its header, its data or finds that there is none, makes the
      backend write, read or flush, and writes data or a name to the host. */
  datatype Op = HeaderRead | DataRead | NoData | BdevWrite | BdevRead | BdevFlush | DataWrite | IdWrite

  /** The operations posted for a request, one after the other. */
  datatype Trace = Begin | Then(before: Trace, op: Op)

  /** The operations that serve a request: a write has its data read before the backend writes it, a read has its data
      written to the host after the backend has read it, unless the backend moves the data by itself. */
  predicate Served(kind: Kind, zcopy: bool, ops: Trace) {
    var header := Then(Begin, HeaderRead);
    match kind
    case Out =>
      if zcopy then ops == Then(header, BdevWrite)
      else ops == Then(Then(header, DataRead), BdevWrite) || ops == Then(Then(header, NoData), BdevWrite)
    case In => ops == if zcopy then Then(header, BdevRead) else Then(Then(header, BdevRead), DataWrite)
    case Flush => ops == Then(header, BdevFlush)
    case GetId => ops == Then(header, IdWrite)
    case Other => false
  }

  /** The operations posted so far for a command without a failure. */
  predicate Traced(c: Cmd) {
    var header := Then(Begin, HeaderRead);
    c.status == Good ==>
      match c.state
      case Idle => true
      case FetchDescs => c.ops == Begin
      case ReadHeader => c.ops == Begin
      case ParseHeader => c.ops == header
      case ReadData => c.ops == header && c.kind == Out && !c.zcopy
      case HandleReq =>
        if c.kind == Out && !c.zcopy then c.ops == Then(header, DataRead) || c.ops == Then(header, NoData)
        else c.ops == header
      case OutDataDone => c.kind == Out && Served(c.kind, c.zcopy, c.ops)
      case InDataDone => c.kind == In && !c.zcopy && c.ops == Then(header, BdevRead)
      case WriteStatus => Served(c.kind, c.zcopy, c.ops)
      case SendComp => Served(c.kind, c.zcopy, c.ops)
      case SendInOrderComp => Served(c.kind, c.zcopy, c.ops)
      case Release => Served(c.kind, c.zcopy, c.ops)
      case FatalErr => true
  }

  /** A command slot. `id` is the number of the request in the order of arrival, of which the queue only
      knows the low 16 bits, `availIdx`. `busy` says that the command was accepted and its completion
      not sent yet. `executed` says that the backend has done what was asked. `ops` are the operations
      posted for the request. */
  datatype Cmd = Cmd(state: State, availIdx: nat, id: nat, busy: bool, pending: Pending,
                     status: StatusByte, executed: bool, kind: Kind, zcopy: bool, ops: Trace)

  /** A completion sent to the host: which request, the status byte it was given, whether the backend had
      executed it, and what had been done for it. */
  datatype Completion = Completion(id: nat, status: StatusByte, executed: bool, kind: Kind, zcopy: bool, ops: Trace)

  /** A good status is given only to a request that has been executed and served. */
  predicate Honest(m: Completion) {
    m.status == Good ==> m.executed && Served(m.kind, m.zcopy, m.ops)
  }

  function CompletionOf(c: Cmd): Completion {
    Completion(c.id, c.status, c.executed, c.kind, c.zcopy, c.ops)
  }

  /** The queue's fields that handlers use: the next index to complete, the outstanding counters, and
      what has been sent. */
  datatype Counters = Counters(used: nat, inOrder: bool, total: int, toHost: int, inBdev: int, fatal: nat,
                               sent: seq<Completion>)

  datatype Fetch = FetchDone | FetchErr | FetchRead

  /** What a handler call learns from outside. */
  datatype Env = Env(fetch: Fetch, tooFewDescs: bool, dmaOk: bool, kind: Kind, zcopyOk: bool, hasData: bool,
                     hasReadData: bool, memPool: bool, allocOk: bool, oversize: bool, detaching: bool,
                     sectorZero: bool, bdevOk: bool, nameOk: bool, sendOk: bool, auxLost: bool)

  /** The command and the queue after a handler, and whether the machine goes on at once. */
  datatype Step = Step(c: Cmd, q: Counters, repeat: bool)

  /** 16-bit increment. */
  function Inc16(x: nat): (r: nat)
    requires x < 0x1_0000
    ensures r < 0x1_0000
  {
    if x == 0xFFFF then 0 else x + 1
  }

  /** A command between handlers of one run: accepted, waiting for nothing, on its way to a completion,
      and good only if the backend has executed it. */
  predicate Going(c: Cmd) {
    && c.busy && c.pending == Nothing
    && 1 <= Rank(c.state) <= 10
    && (Rank(c.state) >= 6 && c.status == Good ==> c.executed)
    && Traced(c)
  }

  /** The states in which a command can wait for a buffer: one that has just arrived counts as waiting until its first
      run, and a write or a read waits before its data or its request is handled. */
  predicate AwaitsPool(c: Cmd) {
    c.state == FetchDescs || c.state == ReadData || (c.state == HandleReq && (c.kind == In || c.kind == GetId))
  }

  /** The run posted an operation and waits for it. */
  ghost predicate EndsWaiting(c: Cmd, q: Counters, d: Cmd, r: Counters) {
    && d.busy && d.pending != Nothing && 1 <= Rank(d.state) <= 8 && d.state != ReadHeader
    && (d.pending != Bdev && d.state == WriteStatus && d.status == Good ==> d.executed)
    && (d.state == OutDataDone || d.state == InDataDone ==> d.pending == Bdev)
    && (d.pending == HostDma ==> AwaitsHost(d.state)) && (d.pending == MemPool ==> AwaitsPool(d)) && Traced(d)
    && r == q.(toHost := q.toHost + (if d.pending == HostDma then 1 else 0),
               inBdev := q.inBdev + (if d.pending == Bdev then 1 else 0))
  }

  /** The command is done but an earlier one is not. */
  ghost predicate EndsInLine(c: Cmd, q: Counters, d: Cmd, r: Counters) {
    && Going(d) && d.state == SendInOrderComp
    && q.inOrder && d.availIdx != q.used && r == q
  }

  /** The command is lost. */
  ghost predicate EndsDead(c: Cmd, q: Counters, d: Cmd, r: Counters) {
    && d.busy && d.pending == Nothing && d.state == FatalErr
    && r == q.(fatal := q.fatal + 1)
  }

  /** Exactly one completion has been sent, in its turn if order is forced, and only with a good status if the
      request was executed. */
  ghost predicate EndsCompleted(c: Cmd, q: Counters, d: Cmd, r: Counters)
    requires q.used < 0x1_0000
  {
    && !d.busy && d.pending == Nothing && (d.state == Release || d.state == FatalErr)
    && (q.inOrder ==> c.availIdx == q.used)
    && Honest(CompletionOf(d))
    && r == q.(used := Inc16(q.used), total := q.total - 1,
               fatal := q.fatal + (if d.state == FatalErr then 1 else 0),
               sent := q.sent + [CompletionOf(d)])
  }

  ghost predicate SameRequest(c: Cmd, d: Cmd) {
    d.id == c.id && d.availIdx == c.availIdx
  }

  /** The states in which an operation on host memory can be outstanding. */
  predicate AwaitsHost(s: State) {
    s == FetchDescs || s == ParseHeader || s == HandleReq || s == WriteStatus
  }

  /** What every handler promises: it goes on only to a later state, and it treats an accepted command in one of
      five ways - on to a later state with the counters unchanged, to its loss, past its completion, or to one
      of the two ways of waiting. */
  ghost predicate Sound(c: Cmd, q: Counters, s: Step) {
    && q.used < 0x1_0000
    && SameRequest(c, s.c)
    && (s.repeat ==> Rank(s.c.state) > Rank(c.state))
    && (c.state != ParseHeader ==> s.c.kind == c.kind && s.c.zcopy == c.zcopy)
    && (Going(c) ==>
          if !s.repeat then EndsWaiting(c, q, s.c, s.q) || EndsInLine(c, q, s.c, s.q)
          else if s.c.state == FatalErr then s.c.busy && s.c.pending == Nothing && s.q == q
          else if s.c.state == Release then
            && !s.c.busy && s.c.pending == Nothing && Honest(CompletionOf(s.c))
            && (q.inOrder ==> c.availIdx == q.used)
            && s.q == q.(used := Inc16(q.used), sent := q.sent + [CompletionOf(s.c)])
          else Going(s.c) && s.q == q)
  }

  /** A command that starts to wait does so in a later state than the handler found it in, unless it waits for a
      descriptor. */
  predicate Later(c: Cmd, s: Step) {
    c.pending == Nothing && s.c.pending != Nothing ==>
      && !s.repeat
      && (Rank(s.c.state) > Rank(c.state) || c.state == FetchDescs)
      && (s.c.pending == Bdev ==> 6 <= Rank(s.c.state) <= 8)
  }

  function Move(c: Cmd, s: State, q: Counters): Step {
    Step(c.(state := s), q, true)
  }

  function Fail(c: Cmd, b: StatusByte, q: Counters): Step {
    Step(c.(state := WriteStatus, status := b), q, true)
  }

  function Post(c: Cmd, op: Op): Cmd {
    c.(ops := Then(c.ops, op))
  }

  function WaitHost(c: Cmd, s: State, q: Counters): Step {
    Step(c.(state := s, pending := HostDma), q.(toHost := q.toHost + 1), false)
  }

  function WaitBdev(c: Cmd, s: State, q: Counters): Step {
    Step(c.(state := s, pending := Bdev), q.(inBdev := q.inBdev + 1), false)
  }

  function OnFetchDescs(c: Cmd, q: Counters, st: OpStatus, e: Env): (s: Step)
    requires q.used < 0x1_0000 && c.state == FetchDescs
    ensures Sound(c, q, s) && Later(c, s)
  {
    if st != OpOk then Move(c, FatalErr, q)
    else
      match e.fetch
      case FetchErr => Move(c, FatalErr, q)
      case FetchDone => Move(c, if e.tooFewDescs then FatalErr else ReadHeader, q)
      case FetchRead => WaitHost(c, FetchDescs, q)
  }

  function OnReadHeader(c: Cmd, q: Counters, e: Env): (s: Step)
    requires q.used < 0x1_0000 && c.state == ReadHeader
    ensures Sound(c, q, s) && Later(c, s)
  {
    if e.dmaOk then WaitHost(Post(c, HeaderRead), ParseHeader, q) else Move(c, FatalErr, q)
  }

  function OnParseHeader(c: Cmd, q: Counters, st: OpStatus, e: Env): (s: Step)
    requires q.used < 0x1_0000 && c.state == ParseHeader
    ensures Sound(c, q, s) && Later(c, s)
    ensures st == OpOk ==> s.c.kind == e.kind
  {
    if st != OpOk then Fail(c, IoErr, q)
    else
      var d := c.(kind := e.kind, zcopy := e.zcopyOk && e.hasData && e.kind != GetId);
      if d.zcopy then Move(d, HandleReq, q)
      else
        var next := if e.kind == Out then ReadData else HandleReq;
        var needsBuffer := e.hasData && (e.kind == Out || e.kind == In || e.kind == GetId);
        if e.memPool then
          if !needsBuffer then Move(d, next, q)
          else if e.allocOk then Step(d.(state := next, pending := MemPool), q, false)
          else Fail(d, IoErr, q)
        else if e.oversize && !e.allocOk then Fail(d, IoErr, q)
        else Move(d, next, q)
  }

  function OnReadData(c: Cmd, q: Counters, e: Env): (s: Step)
    requires q.used < 0x1_0000 && c.state == ReadData
    ensures Sound(c, q, s) && Later(c, s)
  {
    if !e.hasReadData then Move(Post(c, NoData), HandleReq, q)
    else if e.dmaOk then WaitHost(Post(c, DataRead), HandleReq, q)
    else Move(c, FatalErr, q)
  }

  function OnWrite(c: Cmd, q: Counters, e: Env): (s: Step)
    requires q.used < 0x1_0000 && c.state == HandleReq && c.kind == Out
    ensures Sound(c, q, s) && Later(c, s)
  {
    if e.bdevOk then WaitBdev(Post(c, BdevWrite), OutDataDone, q) else Fail(c, IoErr, q)
  }

  function OnRead(c: Cmd, q: Counters, e: Env): (s: Step)
    requires q.used < 0x1_0000 && c.state == HandleReq && c.kind == In
    ensures Sound(c, q, s) && Later(c, s)
  {
    if e.bdevOk then WaitBdev(Post(c, BdevRead), if c.zcopy then WriteStatus else InDataDone, q) else Fail(c, IoErr, q)
  }

  function OnFlush(c: Cmd, q: Counters, e: Env): (s: Step)
    requires q.used < 0x1_0000 && c.state == HandleReq && c.kind == Flush
    ensures Sound(c, q, s) && Later(c, s)
  {
    if e.sectorZero && e.bdevOk then WaitBdev(Post(c, BdevFlush), WriteStatus, q) else Fail(c, IoErr, q)
  }

  function OnGetId(c: Cmd, q: Counters, e: Env): (s: Step)
    requires q.used < 0x1_0000 && c.state == HandleReq && c.kind == GetId
    ensures Sound(c, q, s) && Later(c, s)
  {
    if !e.nameOk then Fail(c, Unsupported, q)
    else if e.dmaOk then WaitHost(Post(c.(executed := true), IdWrite), WriteStatus, q)
    else Fail(c, IoErr, q)
  }

  function OnHandleReq(c: Cmd, q: Counters, st: OpStatus, e: Env): (s: Step)
    requires q.used < 0x1_0000 && c.state == HandleReq
    ensures Sound(c, q, s) && Later(c, s)
  {
    if st != OpOk || e.detaching then Fail(c, IoErr, q)
    else
      match c.kind
      case Out => OnWrite(c, q, e)
      case In => OnRead(c, q, e)
      case Flush => OnFlush(c, q, e)
      case GetId => OnGetId(c, q, e)
      case Other => Fail(c, Unsupported, q)
  }

  function OnOutDataDone(c: Cmd, q: Counters, st: OpStatus): (s: Step)
    requires q.used < 0x1_0000 && c.state == OutDataDone
    ensures Sound(c, q, s) && Later(c, s)
    ensures s.c.state == WriteStatus && (st != OpOk ==> s.c.status == IoErr)
  {
    if st != OpOk then Fail(c, IoErr, q) else Move(c, WriteStatus, q)
  }

  function OnInDataDone(c: Cmd, q: Counters, st: OpStatus, e: Env): (s: Step)
    requires q.used < 0x1_0000 && c.state == InDataDone
    ensures Sound(c, q, s) && Later(c, s)
  {
    if st != OpOk || !e.dmaOk then Fail(c, IoErr, q) else WaitHost(Post(c, DataWrite), WriteStatus, q)
  }

  function OnWriteStatus(c: Cmd, q: Counters, st: OpStatus, e: Env): (s: Step)
    requires q.used < 0x1_0000 && c.state == WriteStatus
    ensures Sound(c, q, s) && Later(c, s)
  {
    var d := if st != OpOk then c.(status := IoErr) else c;
    Move(d, if e.sendOk then SendComp else FatalErr, q)
  }

  /** Serves both completion states. With forced order a command that is not next waits. */
  function OnSendComp(c: Cmd, q: Counters, st: OpStatus, e: Env): (s: Step)
    requires q.used < 0x1_0000 && (c.state == SendComp || c.state == SendInOrderComp)
    ensures Sound(c, q, s) && Later(c, s)
  {
    if st != OpOk then Move(c, FatalErr, q)
    else if q.inOrder && c.availIdx != q.used then Step(c.(state := SendInOrderComp), q, false)
    else if !e.sendOk then Move(c, FatalErr, q)
    else
      Move(c.(busy := false), Release,
           q.(used := Inc16(q.used), sent := q.sent + [CompletionOf(c)]))
  }

  function OnRelease(c: Cmd, q: Counters, e: Env): Step {
    var r := q.(total := q.total - 1);
    if e.auxLost then Move(c, FatalErr, r) else Step(c, r, false)
  }

  /** The handler table. */
  function Handle(c: Cmd, q: Counters, st: OpStatus, e: Env): (s: Step)
    requires q.used < 0x1_0000
    ensures Sound(c, q, s) && Later(c, s) && s.q.used < 0x1_0000
  {
    match c.state
    case Idle => Step(c, q, false)
    case FetchDescs => OnFetchDescs(c, q, st, e)
    case ReadHeader => OnReadHeader(c, q, e)
    case ParseHeader => OnParseHeader(c, q, st, e)
    case ReadData => OnReadData(c, q, e)
    case HandleReq => OnHandleReq(c, q, st, e)
    case OutDataDone => OnOutDataDone(c, q, st)
    case InDataDone => OnInDataDone(c, q, st, e)
    case WriteStatus => OnWriteStatus(c, q, st, e)
    case SendComp => OnSendComp(c, q, st, e)
    case SendInOrderComp => OnSendComp(c, q, st, e)
    case Release => OnRelease(c, q, e)
    case FatalErr => Step(c, q.(fatal := q.fatal + 1), false)
  }

  /** The progress loop as a function: handlers with answers `env(k)`, `env(k + 1)`, ... until one waits.
      The same status is handed to every handler of the run. */
  function Run(c: Cmd, q: Counters, st: OpStatus, env: nat -> Env, k: nat): (r: Step)
    requires q.used < 0x1_0000
    ensures !r.repeat
    decreases 12 - Rank(c.state)
  {
    var s := Handle(c, q, st, env(k));
    if s.repeat then Run(s.c, s.q, st, env, k + 1) else s
  }

  /** Every run of an accepted command ends in one of four ways: it waits, it stands in line, it is lost, or
      it has been completed exactly once. */
  lemma {:induction false} RunEnds(c: Cmd, q: Counters, st: OpStatus, env: nat -> Env, k: nat)
    requires q.used < 0x1_0000 && Going(c)
    ensures var s := Run(c, q, st, env, k);
            && SameRequest(c, s.c)
            && (|| EndsWaiting(c, q, s.c, s.q) || EndsInLine(c, q, s.c, s.q)
                || EndsDead(c, q, s.c, s.q) || EndsCompleted(c, q, s.c, s.q))
    decreases 12 - Rank(c.state)
  {
    var s := Handle(c, q, st, env(k));
    if s.repeat {
      if s.c.state == FatalErr {
        DeadRun(s.c, s.q, st, env, k + 1);
      } else if s.c.state == Release {
        ReleaseRun(s.c, s.q, st, env, k + 1);
      } else {
        RunEnds(s.c, s.q, st, env, k + 1);
      }
    }
  }

  lemma DeadRun(c: Cmd, q: Counters, st: OpStatus, env: nat -> Env, k: nat)
    requires q.used < 0x1_0000 && c.state == FatalErr
    ensures Run(c, q, st, env, k) == Step(c, q.(fatal := q.fatal + 1), false)
  {
  }

  lemma ReleaseRun(c: Cmd, q: Counters, st: OpStatus, env: nat -> Env, k: nat)
    requires q.used < 0x1_0000 && c.state == Release
    ensures var s, r := Run(c, q, st, env, k), q.(total := q.total - 1);
            s == Step(c, r, false) || s == Step(c.(state := FatalErr), r.(fatal := r.fatal + 1), false)
  {
    if env(k).auxLost {
      DeadRun(c.(state := FatalErr), q.(total := q.total - 1), st, env, k + 1);
    }
  }

  lemma FailedStatusIsFatal(c: Cmd, q: Counters, env: nat -> Env, k: nat)
    requires q.used < 0x1_0000 && c.state == WriteStatus
    ensures var s := Run(c, q, OpErr, env, k);
            s == Step(c.(state := FatalErr, status := IoErr), q.(fatal := q.fatal + 1), false)
  {
    var d := c.(status := IoErr);
    if env(k).sendOk {
      assert Handle(c, q, OpErr, env(k)) == Move(d, SendComp, q);
      DeadRun(d.(state := FatalErr), q, OpErr, env, k + 2);
    } else {
      DeadRun(d.(state := FatalErr), q, OpErr, env, k + 1);
    }
  }

  /** A failed host operation always loses the command: whatever the handlers prepare on the way, the same
      failed status reaches the completion handler, which sends nothing. */
  lemma FailedDmaIsFatal(c: Cmd, q: Counters, env: nat -> Env, k: nat)
    requires q.used < 0x1_0000 && AwaitsHost(c.state)
    ensures var s := Run(c, q, OpErr, env, k);
            && s.c.state == FatalErr && s.q == q.(fatal := q.fatal + 1)
            && s.c.busy == c.busy && s.c.pending == c.pending && SameRequest(c, s.c)
  {
    if c.state == FetchDescs {
      DeadRun(c.(state := FatalErr), q, OpErr, env, k + 1);
    } else if c.state == WriteStatus {
      FailedStatusIsFatal(c, q, env, k);
    } else {
      assert Handle(c, q, OpErr, env(k)) == Fail(c, IoErr, q);
      FailedStatusIsFatal(c.(state := WriteStatus, status := IoErr), q, env, k + 1);
    }
  }
}
