/** Forwarding submission entries to the rings of their namespaces (dpa/dpa_nvme_mp.c). */
module NvmeSubmit {
  import opened Arith
  import opened CyclicCopy
  import opened RoundRobin
  import opened NvmeRings
  import opened Batches

  /** The largest namespace number that the table of namespaces has a place for. */
  const MAX_NSID: nat := 32

  /** A place in the table of namespaces. */
  datatype Place = Null | At(space: Space)

  /** What happened to the queue. A sub-batch was forwarded to a ring or rejected: `group` is what was to be sent,
      `entries` what was copied to the ring. Or a command attached, detached or reweighed a ring, and left the
      namespace with `turn`; an attachment may have made the namespace. */
  datatype Event =
    | Forwarded(nsid: nat, lane: nat, start: nat, end: nat, group: seq<Sqe>, entries: seq<Sqe>)
    | Rejected(nsid: nat, start: nat, end: nat, group: seq<Sqe>)
    | Opened(nsid: nat, lane: nat, made: bool, turn: Turn)
    | Closed(nsid: nat, lane: nat, turn: Turn)
    | Reset(nsid: nat, turn: Turn)

  predicate Commanded(p: Event, nsid: nat) {
    p.nsid == nsid && (p.Opened? || p.Closed? || p.Reset?)
  }

  /** The ring's history starts again with this event. */
  predicate Restarts(p: Event, nsid: nat, lane: nat) {
    p.nsid == nsid && ((p.Opened? && (p.made || p.lane == lane)) || (p.Closed? && p.lane == lane))
  }

  /** The memory after a cyclic copy (`CyclicCopy.CyclicWrite` is the sequence of transfers that does it). */
  function Copied(d: seq<Sqe>, s: seq<Sqe>, from: nat, to: nat, n: nat): (r: seq<Sqe>)
    requires |d| == |s| && from < |d| && to < |d|
    ensures IsCyclicCopy(d, s, from, to, n, r)
  {
    seq(|d|, j requires 0 <= j < |d| =>
      var k := Distance(to, j, |d|);
      if k < n then s[Ring(from + k, |d|)] else d[j])
  }

  /** Everything copied to ring `lane` of namespace `nsid` since it was attached, in order. */
  ghost function History(log: seq<Event>, nsid: nat, lane: nat): seq<Sqe> {
    HistoryTo(log, |log|, nsid, lane)
  }

  ghost function HistoryTo(log: seq<Event>, n: nat, nsid: nat, lane: nat): seq<Sqe>
    requires n <= |log|
  {
    if n == 0 then []
    else
      var p := log[n - 1];
      if Restarts(p, nsid, lane) then []
      else
        HistoryTo(log, n - 1, nsid, lane)
        + if p.Forwarded? && p.nsid == nsid && p.lane == lane then p.entries else []
  }

  lemma {:induction false} HistoryKept(log: seq<Event>, p: Event, n: nat, nsid: nat, lane: nat)
    requires n <= |log|
    ensures HistoryTo(log + [p], n, nsid, lane) == HistoryTo(log, n, nsid, lane)
  {
    if n > 0 {
      HistoryKept(log, p, n - 1, nsid, lane);
    }
  }

  lemma HistoryLast(log: seq<Event>, p: Event, nsid: nat, lane: nat)
    ensures History(log + [p], nsid, lane) ==
              if Restarts(p, nsid, lane) then []
              else History(log, nsid, lane)
                   + if p.Forwarded? && p.nsid == nsid && p.lane == lane then p.entries else []
  {
    HistoryKept(log, p, |log|, nsid, lane);
  }

  /** The rings that the sends of a namespace used since its rings last changed, and its turn at that time. */
  ghost function LanesTo(log: seq<Event>, n: nat, nsid: nat): seq<nat>
    requires n <= |log|
  {
    if n == 0 || Commanded(log[n - 1], nsid) then []
    else
      var p := log[n - 1];
      LanesTo(log, n - 1, nsid) + if p.Forwarded? && p.nsid == nsid then [p.lane] else []
  }

  ghost function StartTo(log: seq<Event>, n: nat, nsid: nat): Turn
    requires n <= |log|
  {
    if n == 0 then Turn(0, 0)
    else if Commanded(log[n - 1], nsid) then log[n - 1].turn
    else StartTo(log, n - 1, nsid)
  }

  ghost function Lanes(log: seq<Event>, nsid: nat): seq<nat> {
    LanesTo(log, |log|, nsid)
  }

  ghost function Start(log: seq<Event>, nsid: nat): Turn {
    StartTo(log, |log|, nsid)
  }

  lemma {:induction false} LanesKept(log: seq<Event>, p: Event, n: nat, nsid: nat)
    requires n <= |log|
    ensures LanesTo(log + [p], n, nsid) == LanesTo(log, n, nsid)
    ensures StartTo(log + [p], n, nsid) == StartTo(log, n, nsid)
  {
    if n > 0 {
      LanesKept(log, p, n - 1, nsid);
    }
  }

  lemma LanesLast(log: seq<Event>, p: Event, nsid: nat)
    ensures Lanes(log + [p], nsid) ==
              if Commanded(p, nsid) then []
              else Lanes(log, nsid) + if p.Forwarded? && p.nsid == nsid then [p.lane] else []
    ensures Start(log + [p], nsid) == if Commanded(p, nsid) then p.turn else Start(log, nsid)
  {
    LanesKept(log, p, |log|, nsid);
  }

  function GroupOf(p: Event): seq<Sqe> {
    if p.Forwarded? || p.Rejected? then p.group else []
  }

  ghost function Groups(parts: seq<Event>): seq<seq<Sqe>> {
    if parts == [] then [] else Groups(parts[..|parts| - 1]) + [GroupOf(parts[|parts| - 1])]
  }

  /** The entries answered with an error, in order. */
  ghost function Refused(parts: seq<Event>): seq<Sqe> {
    if parts == [] then []
    else Refused(parts[..|parts| - 1]) + if parts[|parts| - 1].Rejected? then parts[|parts| - 1].group else []
  }

  lemma LogLast(log: seq<Event>, p: Event)
    ensures Groups(log + [p]) == Groups(log) + [GroupOf(p)]
    ensures Refused(log + [p]) == Refused(log) + if p.Rejected? then p.group else []
  {
    assert (log + [p])[..|log|] == log;
  }

  /** The sends since the rings last changed went where the turns of the scheduler sent them. */
  ghost predicate Scheduled(s: Space, lanes: seq<nat>, start: Turn, numQueues: nat) {
    s.turn.active < numQueues ==>
      var w := Weights(s.rbs);
      Ready(w, start) && lanes == Used(w, start, |lanes|) && s.turn == Later(w, start, |lanes|)
  }

  /** The ring holds the end of its history. */
  ghost predicate RingOk(s: Space, l: nat, history: seq<Sqe>, depth: nat)
    requires l < |s.rbs| == |s.mem|
  {
    |s.mem[l]| == depth && Holds(s.mem[l], s.rbs[l].tail, history)
  }

  ghost predicate SpaceOk(nsid: nat, s: Space, log: seq<Event>, depth: nat, numQueues: nat) {
    && Sound(s, numQueues) && Scheduled(s, Lanes(log, nsid), Start(log, nsid), numQueues)
    && forall l :: 0 <= l < numQueues ==> RingOk(s, l, History(log, nsid, l), depth)
  }

  ghost predicate AllOk(spaces: seq<Place>, log: seq<Event>, depth: nat, numQueues: nat) {
    forall n :: 0 <= n < |spaces| && spaces[n].At? ==> SpaceOk(n, spaces[n].space, log, depth, numQueues)
  }

  /** The namespace exists and has a ring. */
  predicate Live(spaces: seq<Place>, nsid: nat, numQueues: nat) {
    nsid < |spaces| && spaces[nsid].At? && spaces[nsid].space.turn.active < numQueues
  }

  /** The namespace after a sub-batch has been sent. */
  ghost function Served(s: Space, buf: seq<Sqe>, start: nat, n: nat): (r: Space)
    requires |s.rbs| == |s.mem| && Ready(Weights(s.rbs), s.turn) && start < |buf| && n < |buf|
    requires var a := Sent(Weights(s.rbs), s.turn).active; |s.mem[a]| == |buf| && s.rbs[a].tail < |buf|
  {
    var t := Sent(Weights(s.rbs), s.turn);
    var rb, slots := s.rbs[t.active], s.mem[t.active];
    Space(t, s.rbs[t.active := rb.(tail := Ring(rb.tail + n, |buf|))],
          s.mem[t.active := Copied(slots, buf, start, rb.tail, n)])
  }

  /** A send goes to an attached ring and keeps the namespace sound. */
  lemma ServedSound(s: Space, numQueues: nat, buf: seq<Sqe>, start: nat, n: nat)
    requires Sound(s, numQueues) && s.turn.active < numQueues && start < |buf| && n < |buf|
    requires var a := Sent(Weights(s.rbs), s.turn).active; |s.mem[a]| == |buf| && s.rbs[a].tail < |buf|
    ensures var a := Sent(Weights(s.rbs), s.turn).active; s.rbs[a].addr != 0
    ensures Sound(Served(s, buf, start, n), numQueues)
    ensures Weights(Served(s, buf, start, n).rbs) == Weights(s.rbs)
  {
    var w := Weights(s.rbs);
    if s.turn.credits == 0 {
      assert w[Sent(w, s.turn).active] > 0;
    }
    var r := Served(s, buf, start, n);
    assert Weights(r.rbs) == w;
    forall i | 0 <= i < numQueues && r.rbs[i].weight > 0 ensures r.rbs[i].addr != 0 {
      assert s.rbs[i].weight > 0;
    }
  }

  /** One more send is one more turn. */
  lemma ServedScheduled(w: seq<nat>, t: Turn, lanes: seq<nat>, start: Turn)
    requires Ready(w, start) && lanes == Used(w, start, |lanes|) && t == Later(w, start, |lanes|)
    ensures lanes + [Sent(w, t).active] == Used(w, start, |lanes| + 1)
    ensures Sent(w, t) == Later(w, start, |lanes| + 1)
  {
    UsedSplit(w, start, |lanes|, 1);
    LaterSplit(w, start, |lanes|, 1);
    OneSend(w, t);
  }

  /** Sending appends the copied entries to the history of one ring and keeps every other ring as it was. */
  lemma ServedOk(nsid: nat, s: Space, log: seq<Event>, depth: nat, numQueues: nat, buf: seq<Sqe>, start: nat, n: nat, p: Event)
    requires SpaceOk(nsid, s, log, depth, numQueues) && s.turn.active < numQueues
    requires |buf| == depth && start < depth && n < depth
    requires p.Forwarded? && p.nsid == nsid && p.lane == Sent(Weights(s.rbs), s.turn).active
    requires p.entries == Window(buf, start, n)
    ensures RingOk(s, p.lane, History(log, nsid, p.lane), depth)
    ensures SpaceOk(nsid, Served(s, buf, start, n), log + [p], depth, numQueues)
  {
    assert RingOk(s, p.lane, History(log, nsid, p.lane), depth);
    var r := Served(s, buf, start, n);
    ServedSound(s, numQueues, buf, start, n);
    LanesLast(log, p, nsid);
    ServedScheduled(Weights(s.rbs), s.turn, Lanes(log, nsid), Start(log, nsid));
    forall l | 0 <= l < numQueues ensures RingOk(r, l, History(log + [p], nsid, l), depth) {
      assert RingOk(s, l, History(log, nsid, l), depth);
      ServedRing(nsid, s, log, depth, buf, start, n, p, l);
    }
  }

  lemma ServedRing(nsid: nat, s: Space, log: seq<Event>, depth: nat, buf: seq<Sqe>, start: nat, n: nat, p: Event, l: nat)
    requires |s.rbs| == |s.mem| && Ready(Weights(s.rbs), s.turn) && |buf| == depth && start < depth && n < depth
    requires p.Forwarded? && p.nsid == nsid && p.lane == Sent(Weights(s.rbs), s.turn).active
    requires p.entries == Window(buf, start, n) && l < |s.rbs| && RingOk(s, p.lane, History(log, nsid, p.lane), depth)
    requires RingOk(s, l, History(log, nsid, l), depth)
    ensures RingOk(Served(s, buf, start, n), l, History(log + [p], nsid, l), depth)
  {
    HistoryLast(log, p, nsid, l);
    if l == p.lane {
      CopyAppends(s.mem[l], s.rbs[l].tail, History(log, nsid, l), buf, start, n, Served(s, buf, start, n).mem[l]);
    } else {
      assert History(log + [p], nsid, l) == History(log, nsid, l);
    }
  }

  /** An event of another namespace, or a rejection, leaves a namespace as it was. */
  lemma OtherOk(n: nat, s: Space, log: seq<Event>, depth: nat, numQueues: nat, p: Event)
    requires SpaceOk(n, s, log, depth, numQueues) && (p.Rejected? || n != p.nsid)
    ensures SpaceOk(n, s, log + [p], depth, numQueues)
  {
    LanesLast(log, p, n);
    assert Lanes(log + [p], n) == Lanes(log, n);
    forall l | 0 <= l < numQueues ensures RingOk(s, l, History(log + [p], n, l), depth) {
      assert RingOk(s, l, History(log, n, l), depth);
      HistoryLast(log, p, n, l);
      assert History(log + [p], n, l) == History(log, n, l);
    }
  }

  lemma RejectedOk(spaces: seq<Place>, log: seq<Event>, depth: nat, numQueues: nat, p: Event)
    requires AllOk(spaces, log, depth, numQueues) && p.Rejected?
    ensures AllOk(spaces, log + [p], depth, numQueues)
  {
    forall n | 0 <= n < |spaces| && spaces[n].At? ensures SpaceOk(n, spaces[n].space, log + [p], depth, numQueues) {
      OtherOk(n, spaces[n].space, log, depth, numQueues, p);
    }
  }

  /** After an event of one namespace everything is in order if and only if that namespace is. */
  lemma Replaced(spaces: seq<Place>, log: seq<Event>, depth: nat, numQueues: nat, p: Event, r: Space)
    requires AllOk(spaces, log, depth, numQueues) && p.nsid < |spaces|
    ensures AllOk(spaces[p.nsid := At(r)], log + [p], depth, numQueues) <==> SpaceOk(p.nsid, r, log + [p], depth, numQueues)
  {
    var spaces' := spaces[p.nsid := At(r)];
    assert spaces'[p.nsid] == At(r);
    forall n | 0 <= n < |spaces| && spaces[n].At? && n != p.nsid
      ensures spaces'[n] == spaces[n] && SpaceOk(n, spaces'[n].space, log + [p], depth, numQueues)
    {
      OtherOk(n, spaces[n].space, log, depth, numQueues, p);
    }
  }

  lemma AllServed(spaces: seq<Place>, log: seq<Event>, depth: nat, numQueues: nat, buf: seq<Sqe>, start: nat, n: nat,
                  p: Event)
    requires AllOk(spaces, log, depth, numQueues) && Live(spaces, p.nsid, numQueues)
    requires |buf| == depth && start < depth && n < depth
    requires p.Forwarded? && p.lane == Sent(Weights(spaces[p.nsid].space.rbs), spaces[p.nsid].space.turn).active
    requires p.entries == Window(buf, start, n)
    ensures RingOk(spaces[p.nsid].space, p.lane, History(log, p.nsid, p.lane), depth)
    ensures AllOk(spaces[p.nsid := At(Served(spaces[p.nsid].space, buf, start, n))], log + [p], depth, numQueues)
    ensures SameLive(spaces[p.nsid := At(Served(spaces[p.nsid].space, buf, start, n))], spaces, numQueues)
  {
    var s := spaces[p.nsid].space;
    ServedOk(p.nsid, s, log, depth, numQueues, buf, start, n, p);
    Replaced(spaces, log, depth, numQueues, p, Served(s, buf, start, n));
  }

  /** A command leaves a namespace in order if and only if it leaves it sound: the histories of the rings that it
      attaches or detaches start again, the others go on, and so do the rings. */
  lemma CommandOk(nsid: nat, s: Space, log: seq<Event>, depth: nat, numQueues: nat, p: Event, r: Space)
    requires |s.rbs| == |s.mem| == |r.rbs| == |r.mem| == numQueues && Commanded(p, nsid) && p.turn == r.turn
    requires forall l :: 0 <= l < numQueues && !Restarts(p, nsid, l) ==>
               RingOk(s, l, History(log, nsid, l), depth) && r.mem[l] == s.mem[l] && r.rbs[l].tail == s.rbs[l].tail
    requires forall l :: 0 <= l < numQueues && Restarts(p, nsid, l) ==> |r.mem[l]| == depth && r.rbs[l].tail == 0
    requires depth > 0
    ensures SpaceOk(nsid, r, log + [p], depth, numQueues) <==> Sound(r, numQueues)
  {
    LanesLast(log, p, nsid);
    forall l | 0 <= l < numQueues ensures RingOk(r, l, History(log + [p], nsid, l), depth) {
      HistoryLast(log, p, nsid, l);
      if !Restarts(p, nsid, l) {
        assert RingOk(s, l, History(log, nsid, l), depth);
        assert History(log + [p], nsid, l) == History(log, nsid, l);
      }
    }
  }

  /** Chooses a ring and copies `n` entries from `start` on to it. */
  method Serve(s: Space, buf: seq<Sqe>, start: nat, n: nat)
    returns (r: Space)
    requires |s.rbs| == |s.mem| && Ready(Weights(s.rbs), s.turn) && start < |buf| && n < |buf|
    requires var a := Sent(Weights(s.rbs), s.turn).active; |s.mem[a]| == |buf| && s.rbs[a].tail < |buf|
    ensures r == Served(s, buf, start, n)
  {
    var t := TakeTurn(Weights(s.rbs), s.turn);
    var rb := s.rbs[t.active];
    var slots := Copied(s.mem[t.active], buf, start, rb.tail, n);
    r := Space(t, s.rbs[t.active := rb.(tail := Ring(rb.tail + n, |buf|))], s.mem[t.active := slots]);
  }

  /** The part says what was sent: its group is the window from `start` to `end`; it was rejected if and only if its
      namespace has no ring; and what was copied has the length that `Count` computes. */
  ghost predicate PartOk(p: Event, buf: seq<Sqe>, spaces: seq<Place>, numQueues: nat) {
    && (p.Forwarded? || p.Rejected?) && p.start < |buf| <= U32 && p.end < |buf|
    && p.group == Window(buf, p.start, Distance(p.start, p.end, |buf|))
    && (p.Rejected? <==> !Live(spaces, p.nsid, numQueues))
    && (p.Forwarded? ==> p.entries == Window(buf, p.start, Count(p.start, p.end, |buf|)))
  }

  ghost predicate SameLive(a: seq<Place>, b: seq<Place>, numQueues: nat) {
    forall n :: Live(a, n, numQueues) == Live(b, n, numQueues)
  }

  ghost predicate AllParts(parts: seq<Event>, buf: seq<Sqe>, spaces: seq<Place>, numQueues: nat) {
    forall i :: 0 <= i < |parts| ==>
      PartOk(parts[i], buf, spaces, numQueues) && parts[i].group != [] && parts[i].nsid == parts[i].group[0].nsid
  }

  lemma NextGroup(p: Event, buf: seq<Sqe>, spaces: seq<Place>, numQueues: nat, batch: seq<Sqe>, from: nat, j: nat, k: nat)
    requires PartOk(p, buf, spaces, numQueues) && from < |buf| && |batch| < |buf| && batch == Window(buf, from, |batch|)
    requires j < k <= |batch| && p.start == Ring(from + j, |buf|) && p.end == Ring(from + k, |buf|)
    requires p.nsid == batch[j].nsid
    ensures p.group == batch[j..k] && p.group != [] && p.nsid == p.group[0].nsid
  {
    WindowSlice(buf, from, |batch|, j, k);
    assert Distance(p.start, p.end, |buf|) == k - j;
    assert batch[j..k][0] == batch[j];
  }

  lemma Appended(parts: seq<Event>, p: Event, log0: seq<Event>, refused0: seq<Sqe>)
    ensures log0 + (parts + [p]) == log0 + parts + [p] && Groups(parts + [p]) == Groups(parts) + [GroupOf(p)]
    ensures refused0 + Refused(parts + [p]) == refused0 + Refused(parts) + if p.Rejected? then p.group else []
  {
    LogLast(parts, p);
  }

  lemma PartAdded(parts: seq<Event>, p: Event, buf: seq<Sqe>, spaces: seq<Place>, numQueues: nat)
    requires AllParts(parts, buf, spaces, numQueues)
    requires PartOk(p, buf, spaces, numQueues) && p.group != [] && p.nsid == p.group[0].nsid
    ensures AllParts(parts + [p], buf, spaces, numQueues)
  {
  }

  /** A sub-batch that is forwarded arrives whole if and only if it does not wrap or the depth divides 2^32. */
  lemma ForwardedWhole(p: Event, buf: seq<Sqe>, spaces: seq<Place>, numQueues: nat)
    requires PartOk(p, buf, spaces, numQueues) && p.Forwarded?
    ensures p.entries == p.group <==> p.start <= p.end || Wrap(U32, |buf|) == 0
  {
    CountIsDistance(p.start, p.end, |buf|);
    assert |p.entries| == |p.group| ==> p.entries == p.group;
  }

  /** The batch is what lies between `from` and `last`; entry `j` is in slot `arm` and entry `k` in slot `i`. */
  ghost predicate Located(buf: seq<Sqe>, from: nat, last: nat, batch: seq<Sqe>, j: nat, k: nat, arm: nat, i: nat) {
    && from < |buf| && last < |buf| && 0 < |batch| == Distance(from, last, |buf|)
    && batch == Window(buf, from, |batch|) && j <= k <= |batch|
    && arm == Ring(from + j, |buf|) && i == Ring(from + k, |buf|)
  }

  lemma LocatedNext(buf: seq<Sqe>, from: nat, last: nat, batch: seq<Sqe>, j: nat, k: nat, arm: nat, i: nat)
    requires Located(buf, from, last, batch, j, k, arm, i) && i != last
    ensures k < |batch| && i < |buf| && buf[i] == batch[k]
    ensures Located(buf, from, last, batch, j, k + 1, arm, Step(i, |buf|))
    ensures Located(buf, from, last, batch, k, k + 1, i, Step(i, |buf|))
  {
    assert k < |batch|;
  }

  /** Where the loop over a batch stands: at entry `k`, with the entries before `j` sent. */
  ghost predicate Cursor(buf: seq<Sqe>, from: nat, last: nat, batch: seq<Sqe>, j: nat, k: nat, arm: nat, i: nat,
                         groups: seq<seq<Sqe>>, prev: nat)
  {
    && Located(buf, from, last, batch, j, k, arm, i) && (k == 0 ==> prev == batch[0].nsid)
    && Splitting(batch, k, j, groups, prev)
  }

  lemma CursorStep(buf: seq<Sqe>, from: nat, last: nat, batch: seq<Sqe>, j: nat, k: nat, arm: nat, i: nat,
                   groups: seq<seq<Sqe>>, prev: nat)
    requires Cursor(buf, from, last, batch, j, k, arm, i, groups, prev) && i != last
    ensures k < |batch| && from < |buf| && |batch| < |buf| && batch == Window(buf, from, |batch|)
    ensures buf[i].nsid == prev ==> Cursor(buf, from, last, batch, j, k + 1, arm, Step(i, |buf|), groups, prev)
    ensures buf[i].nsid != prev ==>
              && j < k && batch[j].nsid == prev && arm == Ring(from + j, |buf|) && i == Ring(from + k, |buf|)
              && Cursor(buf, from, last, batch, k, k + 1, i, Step(i, |buf|), groups + [batch[j..k]], buf[i].nsid)
  {
    LocatedNext(buf, from, last, batch, j, k, arm, i);
    if buf[i].nsid == prev {
      SameRun(batch, k, j, groups, prev);
    } else {
      NextRun(batch, k, j, groups, prev);
    }
  }

  lemma CursorEnd(buf: seq<Sqe>, from: nat, last: nat, batch: seq<Sqe>, j: nat, k: nat, arm: nat, i: nat,
                  groups: seq<seq<Sqe>>, prev: nat)
    requires Cursor(buf, from, last, batch, j, k, arm, i, groups, prev) && i == last
    ensures j < k == |batch| < |buf| && from < |buf| && batch == Window(buf, from, |batch|) && batch[j].nsid == prev
    ensures arm == Ring(from + j, |buf|) && last == Ring(from + k, |buf|)
    ensures IsSplit(batch, groups + [batch[j..k]])
  {
    assert k == |batch|;
    LastPart(batch, k, j, groups, prev);
    assert batch[..k] == batch;
  }

  /** The last sends of a namespace, as many as its weights add up to, if there have been so many since its rings last
      changed. */
  ghost function LastWindow(lanes: seq<nat>, w: seq<nat>): seq<nat>
    requires Total(w) <= |lanes|
  {
    lanes[|lanes| - Total(w)..]
  }

  lemma {:induction false} WindowOf(w: seq<nat>, t: Turn, lanes: seq<nat>, k: nat)
    requires Ready(w, t) && lanes == Used(w, t, |lanes|) && k <= |lanes|
    ensures lanes[k..] == Used(w, Later(w, t, k), |lanes| - k)
  {
    UsedSplit(w, t, k, |lanes| - k);
  }

  lemma {:induction false} LanesFair(w: seq<nat>, t: Turn, lanes: seq<nat>, r: nat)
    requires Ready(w, t) && lanes == Used(w, t, |lanes|) && Total(w) <= |lanes| && r < |w|
    requires t.credits <= w[t.active] || t.credits <= |lanes| - Total(w)
    ensures Times(LastWindow(lanes, w), r) == w[r]
  {
    var k := |lanes| - Total(w);
    var u := Later(w, t, k);
    WindowOf(w, t, lanes, k);
    assert WindowFair(w, u) by {
      if t.credits <= w[t.active] {
        FairExactlyIfProper(w, u);
      } else {
        FairInTheEnd(w, t, k);
      }
    }
  }

  /** In every state of the queue, the last window of sends of a namespace used each ring exactly as often as its weight
      if the namespace was fair when its rings last changed, or has since used up the credits it had then. */
  lemma {:induction false} LastWindowFair(nsid: nat, s: Space, log: seq<Event>, depth: nat, numQueues: nat, r: nat)
    requires SpaceOk(nsid, s, log, depth, numQueues) && s.turn.active < numQueues && r < numQueues
    requires Total(Weights(s.rbs)) <= |Lanes(log, nsid)|
    requires var t := Start(log, nsid);
             || t.credits <= Weights(s.rbs)[t.active]
             || t.credits <= |Lanes(log, nsid)| - Total(Weights(s.rbs))
    ensures Times(LastWindow(Lanes(log, nsid), Weights(s.rbs)), r) == Weights(s.rbs)[r]
  {
    LanesFair(Weights(s.rbs), Start(log, nsid), Lanes(log, nsid), r);
  }

  /** Every lookup in the table of namespaces that the sub-batches of a batch make stays inside the table if and only if
      every entry of the batch names a namespace that the table has a place for. */
  lemma {:induction false} LookupsInside(batch: seq<Sqe>, groups: seq<seq<Sqe>>)
    requires IsSplit(batch, groups)
    ensures (forall i :: 0 <= i < |groups| ==> groups[i][0].nsid <= MAX_NSID)
            <==> InTable(batch)
    decreases |groups|
  {
    if groups == [] {
      NoGroups(batch, groups);
    } else {
      var n, g := |groups| - 1, groups[|groups| - 1];
      var front := batch[..|batch| - |g|];
      SplitFront(batch, groups);
      LastRun(batch, groups);
      LookupsInside(front, groups[..n]);
      assert forall i :: 0 <= i < n ==> groups[..n][i] == groups[i];
      assert forall k :: 0 <= k < |front| ==> front[k] == batch[k];
      assert batch[|batch| - |g|].nsid == g[0].nsid;
    }
  }

  ghost predicate InTable(batch: seq<Sqe>) {
    forall k :: 0 <= k < |batch| ==> batch[k].nsid <= MAX_NSID
  }

  /** A batch of one entry for namespace 33: its only lookup is outside the table of 33 places. */
  lemma LookupOutside(cid: nat)
    ensures IsSplit([Sqe(33, cid)], [[Sqe(33, cid)]]) && [[Sqe(33, cid)]][0][0].nsid > MAX_NSID
  {
    ConcatLast([], [Sqe(33, cid)]);
  }

  /** Copying the new part of one ring to the same place of another appends it to what the other has from `arm` on. */
  lemma ReadAppends(buf: seq<Sqe>, host: seq<Sqe>, arm: nat, last: nat, tail: nat)
    requires |buf| == |host| && arm < |buf| && last < |buf| && tail < |buf|
    requires Distance(arm, last, |buf|) + Distance(last, tail, |buf|) < |buf|
    ensures var n := Distance(last, tail, |buf|);
            Window(Copied(buf, host, last, last, n), arm, Distance(arm, tail, |buf|))
            == Window(buf, arm, Distance(arm, last, |buf|)) + Window(host, last, n)
  {
    var depth, d, n := |buf|, Distance(arm, last, |buf|), Distance(last, tail, |buf|);
    var r := Copied(buf, host, last, last, n);
    assert Distance(arm, tail, depth) == d + n;
    var got, want := Window(r, arm, d + n), Window(buf, arm, d) + Window(host, last, n);
    forall k | 0 <= k < d + n ensures got[k] == want[k] {
      var j := Ring(arm + k, depth);
      assert Distance(last, j, depth) == if k < d then depth - d + k else k - d;
      assert got[k] == r[j];
    }
  }

  class Submission {
    const depth: nat
    const numQueues: nat
    var buffer: seq<Sqe>
    var armTail: nat
    var lastRead: nat
    var spaces: seq<Place>
    var refused: seq<Sqe>
    ghost var log: seq<Event>

    ghost predicate Valid()
      reads this
    {
      && 0 < depth <= U32 && |buffer| == depth && armTail < depth && lastRead < depth && |spaces| == MAX_NSID + 1
      && AllOk(spaces, log, depth, numQueues)
    }

    /** A new queue. Of the table of namespaces that comes with the command only the first place is cleared. */
    constructor (depth: nat, numQueues: nat, buffer: seq<Sqe>, armTail: nat, given: seq<Place>)
      requires 0 < depth <= U32 && |buffer| == depth && armTail < depth && |given| == MAX_NSID + 1
      requires forall n :: 1 <= n <= MAX_NSID ==> given[n].Null?
      ensures Valid() && log == [] && refused == [] && this.depth == depth && this.numQueues == numQueues
      ensures forall n :: 0 <= n <= MAX_NSID ==> spaces[n].Null?
    {
      this.depth, this.numQueues, this.buffer, this.armTail := depth, numQueues, buffer, armTail;
      spaces := given[0 := Null];
      lastRead, refused, log := 0, [], [];
    }

    /** Attaches a ring with memory `slots` to a namespace, which is made if it does not exist. The queue stays in order
        if and only if the new ring or another one of the namespace has a weight. */
    method Attach(nsid: nat, qp: nat, addr: nat, weight: nat, slots: seq<Sqe>)
      requires Valid() && nsid <= MAX_NSID && qp < numQueues && addr != 0 && |slots| == depth
      modifies this`spaces, this`log
      ensures |spaces| == |old(spaces)| && spaces[nsid].At?
      ensures spaces[nsid].space.turn == Turn(qp, weight) && log == old(log) + [Opened(nsid, qp, old(spaces)[nsid].Null?, Turn(qp, weight))]
      ensures old(spaces)[nsid].At? ==> spaces[nsid].space == Attached(old(spaces)[nsid].space, qp, addr, weight, slots)
      ensures forall n :: 0 <= n <= MAX_NSID && n != nsid ==> spaces[n] == old(spaces)[n]
      ensures Valid() <==> weight > 0 || (old(spaces)[nsid].At? && OtherWeighted(old(spaces)[nsid].space.rbs, qp))
      ensures Valid() ==> Fair(spaces[nsid].space, numQueues)
    {
      var made := spaces[nsid].Null?;
      var s := if made then Blank(numQueues, seq(numQueues, _ => slots)) else spaces[nsid].space;
      var r := Attached(s, qp, addr, weight, slots);
      ghost var p := Opened(nsid, qp, made, r.turn);
      AttachKeeps(s, qp, addr, weight, slots, numQueues);
      if !made {
        assert SpaceOk(nsid, s, log, depth, numQueues);
      }
      CommandOk(nsid, s, log, depth, numQueues, p, r);
      Replaced(spaces, log, depth, numQueues, p, r);
      spaces := spaces[nsid := At(r)];
      log := log + [p];
    }

    /** Detaches a ring. The queue stays in order if and only if another ring of the namespace has a weight, or no other is
        attached. */
    method Detach(nsid: nat, qp: nat)
      requires Valid() && nsid <= MAX_NSID && qp < numQueues && spaces[nsid].At?
      modifies this`spaces, this`log
      ensures |spaces| == |old(spaces)| && spaces[nsid].At? && IsDetached(old(spaces)[nsid].space, qp, spaces[nsid].space)
      ensures log == old(log) + [Closed(nsid, qp, spaces[nsid].space.turn)]
      ensures forall n :: 0 <= n <= MAX_NSID && n != nsid ==> spaces[n] == old(spaces)[n]
      ensures var rbs := old(spaces)[nsid].space.rbs; Valid() <==> OtherWeighted(rbs, qp) || !OtherAttached(rbs, qp)
      ensures Valid() && old(Fair(spaces[nsid].space, numQueues)) ==> Fair(spaces[nsid].space, numQueues)
    {
      var s := spaces[nsid].space;
      assert SpaceOk(nsid, s, log, depth, numQueues);
      assert RingOk(s, qp, History(log, nsid, qp), depth);
      var r := NvmeRings.Detach(s, qp);
      ghost var p := Closed(nsid, qp, r.turn);
      DetachKeeps(s, qp, r, numQueues);
      CommandOk(nsid, s, log, depth, numQueues, p, r);
      Replaced(spaces, log, depth, numQueues, p, r);
      spaces := spaces[nsid := At(r)];
      log := log + [p];
    }

    /** Gives a ring another weight. The queue stays in order exactly under the conditions of `ReweighKeeps`. */
    method Modify(nsid: nat, qp: nat, weight: nat)
      requires Valid() && nsid <= MAX_NSID && qp < numQueues && spaces[nsid].At?
      modifies this`spaces, this`log
      ensures |spaces| == |old(spaces)| && spaces[nsid] == At(Reweighed(old(spaces)[nsid].space, qp, weight))
      ensures log == old(log) + [Reset(nsid, spaces[nsid].space.turn)]
      ensures forall n :: 0 <= n <= MAX_NSID && n != nsid ==> spaces[n] == old(spaces)[n]
      ensures Valid() <==> Sound(spaces[nsid].space, numQueues)
    {
      var s := spaces[nsid].space;
      assert SpaceOk(nsid, s, log, depth, numQueues);
      var r := Reweighed(s, qp, weight);
      ghost var p := Reset(nsid, r.turn);
      CommandOk(nsid, s, log, depth, numQueues, p, r);
      Replaced(spaces, log, depth, numQueues, p, r);
      spaces := spaces[nsid := At(r)];
      log := log + [p];
    }

    /** The entries read from the host and not yet sent. */
    ghost function Batch(): seq<Sqe>
      reads this
      requires Valid()
    {
      Window(buffer, armTail, Distance(armTail, lastRead, depth))
    }

    /** Reads new entries from the host's ring, up to its tail. If the count of them is right, they join what has been read
        and not yet sent. The host must not overrun the ring. */
    method ReadEntries(hostRing: seq<Sqe>, tail: nat)
      requires Valid() && |hostRing| == depth && tail < depth
      requires Distance(armTail, lastRead, depth) + Distance(lastRead, tail, depth) < depth
      modifies this`buffer, this`lastRead
      ensures Valid() && lastRead == tail
      ensures old(lastRead) <= tail || Wrap(Batches.U64, depth) == 0 ==>
                Batch() == old(Batch()) + Window(hostRing, old(lastRead), Distance(old(lastRead), tail, depth))
    {
      if tail != lastRead {
        var n := ReadCount(lastRead, tail, depth);
        ReadCountIsDistance(lastRead, tail, depth);
        if n == Distance(lastRead, tail, depth) {
          ReadAppends(buffer, hostRing, armTail, lastRead, tail);
        }
        buffer := Copied(buffer, hostRing, lastRead, lastRead, n);
        lastRead := tail;
      }
    }

    /** Answers every entry from `start` up to `end` with an error. */
    method Reject(start: nat, end: nat)
      requires |buffer| == depth && start < depth && end < depth
      modifies this`refused
      ensures refused == old(refused) + Window(buffer, start, Distance(start, end, depth))
    {
      var i := start;
      ghost var n, k := Distance(start, end, depth), 0;
      ghost var group := Window(buffer, start, n);
      while i != end
        invariant k <= n && i == Ring(start + k, depth) && refused == old(refused) + group[..k]
        decreases n - k
      {
        refused := refused + [buffer[i]];
        assert group[..k + 1] == group[..k] + [buffer[i]];
        i, k := Step(i, depth), k + 1;
      }
      assert group[..n] == group;
    }

    /** Sends the entries from `start` up to `end` to the ring in turn. */
    method Forward(nsid: nat, start: nat, end: nat) returns (ghost p: Event)
      requires Valid() && start < depth && end < depth && Live(spaces, nsid, numQueues)
      modifies this`spaces, this`log
      ensures Valid() && SameLive(spaces, old(spaces), numQueues) && log == old(log) + [p]
      ensures p.Forwarded? && p.nsid == nsid && p.start == start && p.end == end
      ensures var s := old(spaces)[nsid].space;
              Ready(Weights(s.rbs), s.turn) && p.lane == Sent(Weights(s.rbs), s.turn).active
      ensures PartOk(p, buffer, old(spaces), numQueues)
    {
      var num := Count(start, end, depth);
      var s := spaces[nsid].space;
      assert SpaceOk(nsid, s, log, depth, numQueues);
      p := Forwarded(nsid, Sent(Weights(s.rbs), s.turn).active, start, end,
                     Window(buffer, start, Distance(start, end, depth)), Window(buffer, start, num));
      AllServed(spaces, log, depth, numQueues, buffer, start, num, p);
      var space := Serve(s, buffer, start, num);
      spaces := spaces[nsid := At(space)];
      log := log + [p];
    }

    /** Sends a sub-batch, or answers its entries with errors if its namespace has no ring. The lookup in the table of
        namespaces is not guarded. */
    method Send(nsid: nat, start: nat, end: nat) returns (ghost p: Event)
      requires Valid() && start < depth && end < depth && nsid <= MAX_NSID
      modifies this`spaces, this`log, this`refused
      ensures Valid() && SameLive(spaces, old(spaces), numQueues) && log == old(log) + [p]
      ensures (p.Forwarded? || p.Rejected?) && p.nsid == nsid && p.start == start && p.end == end
      ensures PartOk(p, buffer, old(spaces), numQueues)
      ensures refused == old(refused) + if p.Rejected? then p.group else []
    {
      var place := spaces[nsid];
      if place.Null? || place.space.turn.active >= numQueues {
        p := Rejected(nsid, start, end, Window(buffer, start, Distance(start, end, depth)));
        RejectedOk(spaces, log, depth, numQueues, p);
        Reject(start, end);
        log := log + [p];
      } else {
        p := Forward(nsid, start, end);
        assert refused == old(refused) + [];
      }
    }

    /** What has been done since `log0`, `refused0` and `spaces0`. */
    ghost predicate Done(parts: seq<Event>, log0: seq<Event>, refused0: seq<Sqe>, spaces0: seq<Place>)
      reads this
    {
      && log == log0 + parts && refused == refused0 + Refused(parts) && SameLive(spaces, spaces0, numQueues)
      && AllParts(parts, buffer, spaces0, numQueues)
    }

    /** Sends the next sub-batch of a batch that starts at `from`. */
    method SendPart(nsid: nat, end: nat, ghost batch: seq<Sqe>, ghost from: nat, ghost j: nat, ghost k: nat,
                    ghost parts: seq<Event>, ghost log0: seq<Event>, ghost refused0: seq<Sqe>, ghost spaces0: seq<Place>)
      returns (ghost parts': seq<Event>)
      requires Valid() && from < depth && |batch| < depth && batch == Window(buffer, from, |batch|)
      requires j < k <= |batch| && batch[j].nsid == nsid <= MAX_NSID
      requires armTail == Ring(from + j, depth) && end == Ring(from + k, depth)
      requires Done(parts, log0, refused0, spaces0)
      modifies this`spaces, this`log, this`refused
      ensures Valid() && Done(parts', log0, refused0, spaces0) && Groups(parts') == Groups(parts) + [batch[j..k]]
    {
      ghost var p := Send(nsid, armTail, end);
      NextGroup(p, buffer, spaces0, numQueues, batch, from, j, k);
      PartAdded(parts, p, buffer, spaces0, numQueues);
      Appended(parts, p, log0, refused0);
      parts' := parts + [p];
    }

    /** Looks at the entry in slot `i`: if it is of another namespace than the ones before it, those are sent. */
    method Visit(i: nat, prev: nat, ghost batch: seq<Sqe>, ghost from: nat, ghost j: nat, ghost k: nat,
                 ghost parts: seq<Event>, ghost log0: seq<Event>, ghost refused0: seq<Sqe>, ghost spaces0: seq<Place>)
      returns (curr: nat, ghost j': nat, ghost parts': seq<Event>)
      requires Valid() && i < depth && i != lastRead
      requires Cursor(buffer, from, lastRead, batch, j, k, armTail, i, Groups(parts), prev) && InTable(batch)
      requires Done(parts, log0, refused0, spaces0)
      modifies this`armTail, this`spaces, this`log, this`refused
      ensures Valid() && Done(parts', log0, refused0, spaces0) && k < |batch|
      ensures Cursor(buffer, from, lastRead, batch, j', k + 1, armTail, Step(i, depth), Groups(parts'), curr)
    {
      curr, j', parts' := buffer[i].nsid, j, parts;
      CursorStep(buffer, from, lastRead, batch, j, k, armTail, i, Groups(parts), prev);
      if prev != curr {
        parts' := SendPart(prev, i, batch, from, j, k, parts, log0, refused0, spaces0);
        armTail := i;
        j' := k;
      }
    }

    /** The loop over a batch: sends every run but the last. */
    method SendRuns(ghost batch: seq<Sqe>)
      returns (curr: nat, ghost j: nat, ghost k: nat, ghost parts: seq<Event>)
      requires Valid() && armTail != lastRead && batch == Batch() && InTable(batch)
      modifies this`armTail, this`spaces, this`log, this`refused
      ensures Valid() && Cursor(buffer, old(armTail), lastRead, batch, j, k, armTail, lastRead, Groups(parts), curr)
      ensures Done(parts, old(log), old(refused), old(spaces))
    {
      ghost var from := armTail;
      j, k, parts := 0, 0, [];
      var prev: nat, i: nat := buffer[armTail].nsid, armTail;
      curr := prev;
      SplitStarts(batch, prev);
      while i != lastRead
        invariant Valid() && armTail < depth && i < depth && curr == prev
        invariant Cursor(buffer, from, lastRead, batch, j, k, armTail, i, Groups(parts), prev)
        invariant Done(parts, old(log), old(refused), old(spaces))
        decreases |batch| - k
      {
        curr, j, parts := Visit(i, prev, batch, from, j, k, parts, old(log), old(refused), old(spaces));
        prev, i, k := curr, Step(i, depth), k + 1;
      }
    }

    /** Sends the last run of a batch. */
    method SendLast(curr: nat, ghost batch: seq<Sqe>, ghost from: nat, ghost j: nat, ghost k: nat,
                    ghost parts: seq<Event>, ghost log0: seq<Event>, ghost refused0: seq<Sqe>, ghost spaces0: seq<Place>)
      returns (ghost parts': seq<Event>)
      requires Valid() && InTable(batch) && Done(parts, log0, refused0, spaces0)
      requires Cursor(buffer, from, lastRead, batch, j, k, armTail, lastRead, Groups(parts), curr)
      modifies this`armTail, this`spaces, this`log, this`refused
      ensures Valid() && armTail == lastRead && Done(parts', log0, refused0, spaces0) && IsSplit(batch, Groups(parts'))
    {
      CursorEnd(buffer, from, lastRead, batch, j, k, armTail, lastRead, Groups(parts), curr);
      parts' := SendPart(curr, lastRead, batch, from, j, k, parts, log0, refused0, spaces0);
      armTail := lastRead;
    }

    /** Handles a batch: splits it into its runs of one namespace and sends each of them, in order. Every entry must name
        a namespace that the table has a place for: see `LookupsInside`. */
    method HandleBatch() returns (ghost parts: seq<Event>)
      requires Valid() && armTail != lastRead && InTable(Batch())
      modifies this`armTail, this`spaces, this`log, this`refused
      ensures Valid() && armTail == lastRead && log == old(log) + parts && refused == old(refused) + Refused(parts)
      ensures IsSplit(old(Batch()), Groups(parts)) && AllParts(parts, buffer, old(spaces), numQueues)
    {
      ghost var from, batch := armTail, Batch();
      var curr: nat;
      ghost var j: nat, k: nat;
      curr, j, k, parts := SendRuns(batch);
      parts := SendLast(curr, batch, from, j, k, parts, old(log), old(refused), old(spaces));
    }
  }
}
