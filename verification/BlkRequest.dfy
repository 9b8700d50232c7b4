/** A block request from its arrival to its completion. The handlers of the state machine and the callbacks of its
    operations, one after the other, do what the request asks: an outcome that can be read off the answers of the host, the
    backend and the allocator in one pass. */
module BlkRequest {
  import opened BlkMachine

  /** How everything answers to a request: what the handler of each state learns, and how its operations end: reading the
      header, reading the data, the backend's work, and writing data or a name back to the host. */
  datatype Answers = Answers(at: State -> Env, headerOk: bool, dataOk: bool, workOk: bool, backOk: bool)

  /** What becomes of a request: it is lost, completed with a status, or stands in line with it because order is forced and
      it is not its turn. */
  datatype Outcome = Lost | Done(status: StatusByte) | InLine(status: StatusByte)

  /** Reporting a status to the host. */
  function Reported(a: Answers, turn: bool, b: StatusByte): Outcome {
    if !a.at(WriteStatus).sendOk then Lost
    else if !turn then InLine(b)
    else if a.at(SendComp).sendOk then Done(b)
    else Lost
  }

  /** Whether the backend moves the data by itself. */
  predicate ZeroCopy(e: Env) {
    e.zcopyOk && e.hasData && e.kind != GetId
  }

  /** Whether a buffer that is needed cannot be had. */
  predicate NoBuffer(e: Env) {
    && !ZeroCopy(e) && !e.allocOk
    && if e.memPool then e.hasData && (e.kind == Out || e.kind == In || e.kind == GetId) else e.oversize
  }

  /** The outcome of a request once its header has been read and a buffer found. */
  function Worked(a: Answers, turn: bool): Outcome {
    var kind, e := a.at(ParseHeader).kind, a.at(HandleReq);
    if e.detaching then Reported(a, turn, IoErr)
    else
      match kind
      case Out => Reported(a, turn, if e.bdevOk && a.workOk then Good else IoErr)
      case In =>
        if !e.bdevOk || !a.workOk then Reported(a, turn, IoErr)
        else if ZeroCopy(a.at(ParseHeader)) then Reported(a, turn, Good)
        else if !a.at(InDataDone).dmaOk then Reported(a, turn, IoErr)
        else if a.backOk then Reported(a, turn, Good)
        else Lost
      case Flush => Reported(a, turn, if e.sectorZero && e.bdevOk && a.workOk then Good else IoErr)
      case GetId =>
        if !e.nameOk then Reported(a, turn, Unsupported)
        else if !e.dmaOk then Reported(a, turn, IoErr)
        else if a.backOk then Reported(a, turn, Good)
        else Lost
      case Other => Reported(a, turn, Unsupported)
  }

  /** The outcome of a request. A failed operation on host memory loses it, anything else that fails is reported. */
  function Expected(a: Answers, turn: bool): Outcome {
    var fetch, parse, read := a.at(FetchDescs), a.at(ParseHeader), a.at(ReadData);
    if fetch.fetch == FetchErr || fetch.tooFewDescs || !a.at(ReadHeader).dmaOk || !a.headerOk then Lost
    else if NoBuffer(parse) then Reported(a, turn, IoErr)
    else if parse.kind == Out && !ZeroCopy(parse) && read.hasReadData && !(read.dmaOk && a.dataOk) then Lost
    else Worked(a, turn)
  }

  // ---------------------------------------------------------------- the machine

  /** Handlers until one waits, each with the answer for its state. */
  function Handles(c: Cmd, q: Counters, st: OpStatus, a: Answers): (r: Step)
    requires q.used < 0x1_0000
    ensures !r.repeat && r.q.used < 0x1_0000
    decreases 12 - Rank(c.state)
  {
    var s := Handle(c, q, st, a.at(c.state));
    if s.repeat then Handles(s.c, s.q, st, a) else s
  }

  /** The state before the `i`-th handler. */
  function StateAt(c: Cmd, q: Counters, st: OpStatus, a: Answers, i: nat): State
    requires q.used < 0x1_0000
    decreases i
  {
    if i == 0 then c.state
    else
      var s := Handle(c, q, st, a.at(c.state));
      StateAt(s.c, s.q, st, a, i - 1)
  }

  /** That is what the progress loop does. */
  lemma {:induction false} HandlesIsRun(c: Cmd, q: Counters, st: OpStatus, a: Answers, env: nat -> Env, k: nat)
    requires q.used < 0x1_0000 && forall i: nat :: env(k + i) == a.at(StateAt(c, q, st, a, i))
    ensures Run(c, q, st, env, k) == Handles(c, q, st, a)
    decreases 12 - Rank(c.state)
  {
    var s := Handle(c, q, st, a.at(c.state));
    assert env(k + 0) == a.at(StateAt(c, q, st, a, 0));
    if s.repeat {
      forall i: nat ensures env(k + 1 + i) == a.at(StateAt(s.c, s.q, st, a, i)) {
        assert env(k + (i + 1)) == a.at(StateAt(c, q, st, a, i + 1));
      }
      HandlesIsRun(s.c, s.q, st, a, env, k + 1);
    }
  }

  /** How the operation on host memory ends for which a command waits in this state. */
  predicate HostOk(s: State, a: Answers) {
    if s == ParseHeader then a.headerOk else if s == HandleReq then a.dataOk else a.backOk
  }

  /** The command as the callback of the backend leaves it. */
  function Told(c: Cmd, ok: bool): Cmd {
    if ok then c.(executed := true) else c.(status := IoErr, state := WriteStatus)
  }

  lemma {:induction false} HandlesLater(c: Cmd, q: Counters, st: OpStatus, a: Answers)
    requires q.used < 0x1_0000 && c.pending == Nothing && a.at(FetchDescs).fetch != FetchRead
    ensures var r := Handles(c, q, st, a);
            && (r.c.pending != Nothing ==> Rank(r.c.state) > Rank(c.state))
            && (r.c.pending == Bdev ==> 6 <= Rank(r.c.state) <= 8)
    decreases 12 - Rank(c.state)
  {
    var s := Handle(c, q, st, a.at(c.state));
    if s.repeat {
      HandlesLater(s.c, s.q, st, a);
    }
  }

  /** The whole life of a command once its last descriptor is there: handlers, and the callback of each operation when it
      ends. A read of a descriptor before that leaves the command and the queue as they were, or loses the command. */
  function Drive(c: Cmd, q: Counters, st: OpStatus, a: Answers): Step
    requires q.used < 0x1_0000 && c.pending == Nothing && a.at(FetchDescs).fetch != FetchRead
    decreases 12 - Rank(c.state)
  {
    HandlesLater(c, q, st, a);
    var r := Handles(c, q, st, a);
    var d := r.c.(pending := Nothing);
    match r.c.pending
    case Nothing => r
    case HostDma => Drive(d, r.q.(toHost := r.q.toHost - 1), if HostOk(d.state, a) then OpOk else OpErr, a)
    case Bdev => Drive(Told(d, a.workOk), r.q.(inBdev := r.q.inBdev - 1), OpOk, a)
    case MemPool => Drive(d, r.q, OpOk, a)
  }

  // ---------------------------------------------------------------- the machine does what is expected

  /** The command can be completed as soon as it is done. */
  predicate Turn(c: Cmd, q: Counters) {
    q.inOrder ==> c.availIdx == q.used
  }

  /** A lost command stays accepted without a completion, and so does one that stands in line. A completed one has sent
      exactly its own. */
  ghost predicate Meets(c: Cmd, q: Counters, r: Step, o: Outcome)
    requires q.used < 0x1_0000
  {
    && r.c.id == c.id
    && match o
       case Lost => r.c.busy && r.c.state == FatalErr && r.q.sent == q.sent && r.q.used == q.used
       case InLine(b) =>
         r.c.busy && r.c.state == SendInOrderComp && r.c.status == b && r.q.sent == q.sent && r.q.used == q.used
       case Done(b) =>
         && !r.c.busy && r.c.status == b
         && r.q.sent == q.sent + [CompletionOf(r.c)] && r.q.used == Inc16(q.used)
  }

  /** A handler that goes on at once. */
  lemma {:induction false} Onward(c: Cmd, q: Counters, st: OpStatus, a: Answers)
    requires q.used < 0x1_0000 && c.pending == Nothing && a.at(FetchDescs).fetch != FetchRead
    requires Handle(c, q, st, a.at(c.state)).repeat
    ensures var s := Handle(c, q, st, a.at(c.state));
            s.c.pending == Nothing && Drive(c, q, st, a) == Drive(s.c, s.q, st, a)
  {
  }

  /** A handler that posts an operation on host memory. */
  lemma {:induction false} OnceRead(c: Cmd, q: Counters, st: OpStatus, a: Answers, d: Cmd)
    requires q.used < 0x1_0000 && c.pending == Nothing && a.at(FetchDescs).fetch != FetchRead && d.pending == Nothing
    requires Handle(c, q, st, a.at(c.state)) == WaitHost(d, d.state, q)
    ensures Drive(c, q, st, a) == Drive(d, q, if HostOk(d.state, a) then OpOk else OpErr, a)
  {
    var r := Handles(c, q, st, a);
    assert r.c.(pending := Nothing) == d && r.q.(toHost := r.q.toHost - 1) == q;
  }

  /** A handler that makes the backend work. */
  lemma {:induction false} OnceWorked(c: Cmd, q: Counters, st: OpStatus, a: Answers, d: Cmd)
    requires q.used < 0x1_0000 && c.pending == Nothing && a.at(FetchDescs).fetch != FetchRead && d.pending == Nothing
    requires Handle(c, q, st, a.at(c.state)) == WaitBdev(d, d.state, q)
    ensures Drive(c, q, st, a) == Drive(Told(d, a.workOk), q, OpOk, a)
  {
    var r := Handles(c, q, st, a);
    assert r.c.(pending := Nothing) == d && r.q.(inBdev := r.q.inBdev - 1) == q;
  }

  lemma {:induction false} Losing(c: Cmd, q: Counters, st: OpStatus, a: Answers)
    requires q.used < 0x1_0000 && c.pending == Nothing && a.at(FetchDescs).fetch != FetchRead
    requires c.state == FatalErr && c.busy
    ensures Meets(c, q, Drive(c, q, st, a), Lost)
  {
  }

  lemma {:induction false} Releasing(c: Cmd, q: Counters, a: Answers)
    requires q.used < 0x1_0000 && c.pending == Nothing && a.at(FetchDescs).fetch != FetchRead && c.state == Release
    ensures var r := Drive(c, q, OpOk, a);
            CompletionOf(r.c) == CompletionOf(c) && r.c.busy == c.busy && r.q.sent == q.sent && r.q.used == q.used
  {
    if a.at(Release).auxLost {
      Onward(c, q, OpOk, a);
    }
  }

  lemma {:induction false} Completing(c: Cmd, q: Counters, a: Answers)
    requires q.used < 0x1_0000 && a.at(FetchDescs).fetch != FetchRead && c.busy && c.pending == Nothing
    requires c.state == SendComp
    ensures Meets(c, q, Drive(c, q, OpOk, a),
                  if !Turn(c, q) then InLine(c.status) else if a.at(SendComp).sendOk then Done(c.status) else Lost)
  {
    if Turn(c, q) {
      Onward(c, q, OpOk, a);
      var s := Handle(c, q, OpOk, a.at(SendComp));
      if a.at(SendComp).sendOk {
        Releasing(s.c, s.q, a);
      }
    }
  }

  lemma {:induction false} Reporting(c: Cmd, q: Counters, st: OpStatus, a: Answers)
    requires q.used < 0x1_0000 && a.at(FetchDescs).fetch != FetchRead && c.busy && c.pending == Nothing
    requires c.state == WriteStatus
    ensures Meets(c, q, Drive(c, q, st, a), if st == OpOk then Reported(a, Turn(c, q), c.status) else Lost)
  {
    Onward(c, q, st, a);
    var s := Handle(c, q, st, a.at(WriteStatus));
    if a.at(WriteStatus).sendOk {
      if st == OpOk {
        Completing(s.c, q, a);
      } else {
        Onward(s.c, q, st, a);
      }
    }
  }

  lemma {:induction false} Failing(c: Cmd, q: Counters, st: OpStatus, b: StatusByte, a: Answers)
    requires q.used < 0x1_0000 && a.at(FetchDescs).fetch != FetchRead && c.busy && c.pending == Nothing
    requires Handle(c, q, st, a.at(c.state)) == Fail(c, b, q)
    ensures Meets(c, q, Drive(c, q, st, a), if st == OpOk then Reported(a, Turn(c, q), b) else Lost)
  {
    Onward(c, q, st, a);
    Reporting(c.(state := WriteStatus, status := b), q, st, a);
  }

  lemma {:induction false} Writing(c: Cmd, q: Counters, a: Answers)
    requires q.used < 0x1_0000 && a.at(FetchDescs).fetch != FetchRead && c.busy && c.pending == Nothing && c.status == Good
    requires c.state == HandleReq && c.kind == Out && !a.at(HandleReq).detaching && a.at(HandleReq).bdevOk
    ensures Meets(c, q, Drive(c, q, OpOk, a), Reported(a, Turn(c, q), if a.workOk then Good else IoErr))
  {
    var w := Post(c.(state := OutDataDone), BdevWrite);
    OnceWorked(c, q, OpOk, a, w);
    var d := Told(w, a.workOk);
    if a.workOk {
      Onward(d, q, OpOk, a);
      Reporting(d.(state := WriteStatus), q, OpOk, a);
    } else {
      Reporting(d, q, OpOk, a);
    }
  }

  lemma {:induction false} Reading(c: Cmd, q: Counters, a: Answers)
    requires q.used < 0x1_0000 && a.at(FetchDescs).fetch != FetchRead && c.busy && c.pending == Nothing && c.status == Good
    requires c.state == HandleReq && c.kind == In && !a.at(HandleReq).detaching && a.at(HandleReq).bdevOk
    ensures Meets(c, q, Drive(c, q, OpOk, a),
                  if !a.workOk then Reported(a, Turn(c, q), IoErr)
                  else if c.zcopy then Reported(a, Turn(c, q), Good)
                  else if !a.at(InDataDone).dmaOk then Reported(a, Turn(c, q), IoErr)
                  else if a.backOk then Reported(a, Turn(c, q), Good)
                  else Lost)
  {
    var w := Post(c.(state := if c.zcopy then WriteStatus else InDataDone), BdevRead);
    OnceWorked(c, q, OpOk, a, w);
    var d := Told(w, a.workOk);
    if !a.workOk || c.zcopy {
      Reporting(d, q, OpOk, a);
    } else if !a.at(InDataDone).dmaOk {
      Failing(d, q, OpOk, IoErr, a);
    } else {
      var b := Post(d.(state := WriteStatus), DataWrite);
      OnceRead(d, q, OpOk, a, b);
      Reporting(b, q, if a.backOk then OpOk else OpErr, a);
    }
  }

  lemma {:induction false} Flushing(c: Cmd, q: Counters, a: Answers)
    requires q.used < 0x1_0000 && a.at(FetchDescs).fetch != FetchRead && c.busy && c.pending == Nothing && c.status == Good
    requires c.state == HandleReq && c.kind == Flush && !a.at(HandleReq).detaching
    requires a.at(HandleReq).sectorZero && a.at(HandleReq).bdevOk
    ensures Meets(c, q, Drive(c, q, OpOk, a), Reported(a, Turn(c, q), if a.workOk then Good else IoErr))
  {
    var w := Post(c.(state := WriteStatus), BdevFlush);
    OnceWorked(c, q, OpOk, a, w);
    Reporting(Told(w, a.workOk), q, OpOk, a);
  }

  lemma {:induction false} Naming(c: Cmd, q: Counters, a: Answers)
    requires q.used < 0x1_0000 && a.at(FetchDescs).fetch != FetchRead && c.busy && c.pending == Nothing && c.status == Good
    requires c.state == HandleReq && c.kind == GetId && !a.at(HandleReq).detaching
    requires a.at(HandleReq).nameOk && a.at(HandleReq).dmaOk
    ensures Meets(c, q, Drive(c, q, OpOk, a), if a.backOk then Reported(a, Turn(c, q), Good) else Lost)
  {
    var b := Post(c.(state := WriteStatus, executed := true), IdWrite);
    OnceRead(c, q, OpOk, a, b);
    Reporting(b, q, if a.backOk then OpOk else OpErr, a);
  }

  /** From the handling of the request on. */
  lemma {:induction false} Working(c: Cmd, q: Counters, a: Answers)
    requires q.used < 0x1_0000 && a.at(FetchDescs).fetch != FetchRead && c.busy && c.pending == Nothing && c.status == Good
    requires c.state == HandleReq && c.kind == a.at(ParseHeader).kind && c.zcopy == ZeroCopy(a.at(ParseHeader))
    ensures Meets(c, q, Drive(c, q, OpOk, a), Worked(a, Turn(c, q)))
  {
    var e := a.at(HandleReq);
    if e.detaching {
      Failing(c, q, OpOk, IoErr, a);
    } else {
      match c.kind
      case Out =>
        if e.bdevOk { Writing(c, q, a); } else { Failing(c, q, OpOk, IoErr, a); }
      case In =>
        if e.bdevOk { Reading(c, q, a); } else { Failing(c, q, OpOk, IoErr, a); }
      case Flush =>
        if e.sectorZero && e.bdevOk { Flushing(c, q, a); } else { Failing(c, q, OpOk, IoErr, a); }
      case GetId =>
        if e.nameOk && e.dmaOk { Naming(c, q, a); }
        else { Failing(c, q, OpOk, if e.nameOk then IoErr else Unsupported, a); }
      case Other => Failing(c, q, OpOk, Unsupported, a);
    }
  }

  /** From the reading of the data on. */
  lemma {:induction false} Loading(c: Cmd, q: Counters, a: Answers)
    requires q.used < 0x1_0000 && a.at(FetchDescs).fetch != FetchRead && c.busy && c.pending == Nothing && c.status == Good
    requires c.state == ReadData && c.kind == Out == a.at(ParseHeader).kind && !c.zcopy && !ZeroCopy(a.at(ParseHeader))
    ensures var e := a.at(ReadData);
            Meets(c, q, Drive(c, q, OpOk, a), if e.hasReadData && !(e.dmaOk && a.dataOk) then Lost else Worked(a, Turn(c, q)))
  {
    var e := a.at(ReadData);
    if !e.hasReadData {
      Onward(c, q, OpOk, a);
      Working(Post(c.(state := HandleReq), NoData), q, a);
    } else if !e.dmaOk {
      Onward(c, q, OpOk, a);
      Losing(c.(state := FatalErr), q, OpOk, a);
    } else {
      var d := Post(c.(state := HandleReq), DataRead);
      OnceRead(c, q, OpOk, a, d);
      if a.dataOk {
        Working(d, q, a);
      } else {
        Failing(d, q, OpErr, IoErr, a);
      }
    }
  }

  /** From the request's header on. */
  lemma {:induction false} Parsing(c: Cmd, q: Counters, a: Answers)
    requires q.used < 0x1_0000 && a.at(FetchDescs).fetch != FetchRead && c.busy && c.pending == Nothing && c.status == Good
    requires c.state == ParseHeader
    ensures var e, read := a.at(ParseHeader), a.at(ReadData);
            Meets(c, q, Drive(c, q, OpOk, a),
                  if NoBuffer(e) then Reported(a, Turn(c, q), IoErr)
                  else if e.kind == Out && !ZeroCopy(e) && read.hasReadData && !(read.dmaOk && a.dataOk) then Lost
                  else Worked(a, Turn(c, q)))
  {
    var e := a.at(ParseHeader);
    var d := c.(kind := e.kind, zcopy := ZeroCopy(e));
    var s := Handle(c, q, OpOk, e);
    if s.repeat {
      Onward(c, q, OpOk, a);
    }
    if NoBuffer(e) {
      Reporting(d.(state := WriteStatus, status := IoErr), q, OpOk, a);
    } else if e.kind == Out && !d.zcopy {
      Loading(d.(state := ReadData), q, a);
    } else {
      Working(d.(state := HandleReq), q, a);
    }
  }

  lemma {:induction false} Starting(c: Cmd, q: Counters, a: Answers)
    requires q.used < 0x1_0000 && a.at(FetchDescs).fetch != FetchRead && c.busy && c.pending == Nothing && c.status == Good
    requires c.state == ReadHeader && a.at(FetchDescs).fetch != FetchErr && !a.at(FetchDescs).tooFewDescs
    ensures Meets(c, q, Drive(c, q, OpOk, a), Expected(a, Turn(c, q)))
  {
    if a.at(ReadHeader).dmaOk {
      var d := Post(c.(state := ParseHeader), HeaderRead);
      OnceRead(c, q, OpOk, a, d);
      if a.headerOk {
        Parsing(d, q, a);
      } else {
        Failing(d, q, OpErr, IoErr, a);
      }
    } else {
      Onward(c, q, OpOk, a);
      Losing(c.(state := FatalErr), q, OpOk, a);
    }
  }

  lemma DescriptorRead(c: Cmd, q: Counters, e: Env)
    requires q.used < 0x1_0000 && c.pending == Nothing && c.state == FetchDescs && e.fetch == FetchRead
    ensures var s := Handle(c, q, OpOk, e);
            s == WaitHost(c, FetchDescs, q) && s.c.(pending := Nothing) == c && s.q.(toHost := s.q.toHost - 1) == q
    ensures Handle(c, q, OpErr, e) == Move(c, FatalErr, q)
  {
  }

  /** Every request has the outcome that is expected of it, whatever the answers. */
  lemma {:induction false} RequestMeets(c: Cmd, q: Counters, a: Answers)
    requires q.used < 0x1_0000 && a.at(FetchDescs).fetch != FetchRead && c.busy && c.pending == Nothing && c.status == Good
    requires c.state == FetchDescs
    ensures Meets(c, q, Drive(c, q, OpOk, a), Expected(a, Turn(c, q)))
  {
    var e := a.at(FetchDescs);
    Onward(c, q, OpOk, a);
    if e.fetch == FetchErr || e.tooFewDescs {
      Losing(c.(state := FatalErr), q, OpOk, a);
    } else {
      Starting(c.(state := ReadHeader), q, a);
    }
  }
}
