/** Moving data between a local buffer and the descriptors of an admin command (ctrl/snap_vq.c, ctrl/snap_vq_adm.c). */
module ScatterGather {
  import opened Records

  /** A descriptor: a piece of host memory, and whether the device may write to it. */
  datatype Seg = Seg(addr: nat, len: nat, writable: bool)

  /** One transfer between a place in the local buffer and a host address. */
  datatype Dma = Dma(local: nat, remote: nat, len: nat)

  /** Where descriptor `i` starts in the chain. */
  function Base(segs: seq<Seg>, i: nat): nat
    requires i <= |segs|
  {
    if i == 0 then 0 else Base(segs, i - 1) + segs[i - 1].len
  }

  function Total(segs: seq<Seg>): nat {
    Base(segs, |segs|)
  }

  lemma {:induction false} BaseGrows(segs: seq<Seg>, i: nat, j: nat)
    requires i <= j <= |segs|
    ensures Base(segs, i) <= Base(segs, j)
  {
    if i < j {
      BaseGrows(segs, i, j - 1);
    }
  }

  /** The host address of byte `n` of the chain, found by walking from descriptor `i` on. */
  function AddrFrom(segs: seq<Seg>, i: nat, n: nat): nat
    requires i <= |segs| && Base(segs, i) <= n < Total(segs)
    decreases |segs| - i
  {
    if n < Base(segs, i + 1) then segs[i].addr + (n - Base(segs, i)) else AddrFrom(segs, i + 1, n)
  }

  function Addr(segs: seq<Seg>, n: nat): nat
    requires n < Total(segs)
  {
    AddrFrom(segs, 0, n)
  }

  lemma {:induction false} AddrIn(segs: seq<Seg>, j: nat, i: nat, n: nat)
    requires j <= i < |segs| && Base(segs, i) <= n < Base(segs, i + 1)
    ensures Base(segs, j) <= n < Total(segs) && AddrFrom(segs, j, n) == segs[i].addr + (n - Base(segs, i))
    decreases i - j
  {
    BaseGrows(segs, j, i);
    BaseGrows(segs, i + 1, |segs|);
    if j < i {
      BaseGrows(segs, j + 1, i);
      AddrIn(segs, j + 1, i, n);
    }
  }

  /** The length of all descriptors together. */
  method TotalLen(segs: seq<Seg>) returns (total: nat)
    ensures total == Total(segs)
  {
    total := 0;
    for i := 0 to |segs|
      invariant total == Base(segs, i)
    {
      total := total + segs[i].len;
    }
  }

  /** Finds the descriptor that an offset into the chain lies in, empty descriptors passed over, and where in it; behind
      the end of the chain nothing is found. */
  method SkipTo(segs: seq<Seg>, offset: nat) returns (i: nat, rest: nat)
    ensures i <= |segs| && Base(segs, i) + rest == offset
    ensures if offset < Total(segs) then i < |segs| && rest < segs[i].len else i == |segs|
  {
    i, rest := 0, offset;
    while i < |segs| && segs[i].len <= rest
      invariant i <= |segs| && Base(segs, i) + rest == offset
    {
      rest := rest - segs[i].len;
      i := i + 1;
    }
    if i < |segs| {
      BaseGrows(segs, i + 1, |segs|);
    }
  }

  function Min(a: nat, b: nat): nat {
    if a < b then a else b
  }

  predicate Inside(segs: seq<Seg>, size: nat) {
    forall s :: s in segs ==> s.addr + s.len <= size
  }

  /** Byte `t` of the local buffer is byte `start + t` of the chain. */
  ghost predicate SameByte(host: seq<byte>, segs: seq<Seg>, start: nat, t: nat, buf: seq<byte>) {
    && t < |buf| && start + t < Total(segs) && Addr(segs, start + t) < |host|
    && buf[t] == host[Addr(segs, start + t)]
  }

  /** The local buffer has received `moved` bytes of the chain, from byte `start` on, and is otherwise as it was. */
  ghost predicate Received(host: seq<byte>, segs: seq<Seg>, start: nat, moved: nat, buf: seq<byte>, before: seq<byte>) {
    && Inside(segs, |host|) && start + moved <= Total(segs) && moved <= |buf| == |before|
    && (forall t :: 0 <= t < moved ==> SameByte(host, segs, start, t, buf))
    && (forall t :: moved <= t < |buf| ==> buf[t] == before[t])
  }

  lemma ReceivedMore(host: seq<byte>, segs: seq<Seg>, start: nat, moved: nat, buf: seq<byte>, before: seq<byte>,
                     i: nat, len: nat, buf': seq<byte>)
    requires Received(host, segs, start, moved, buf, before) && i < |segs| && moved + len <= |buf| == |buf'|
    requires Base(segs, i) <= start + moved && start + moved + len <= Base(segs, i + 1)
    requires forall t :: 0 <= t < |buf| && (t < moved || moved + len <= t) ==> buf'[t] == buf[t]
    requires forall t :: moved <= t < moved + len ==>
               var a := segs[i].addr + (start + t - Base(segs, i)); a < |host| && buf'[t] == host[a]
    ensures Received(host, segs, start, moved + len, buf', before)
  {
    BaseGrows(segs, i + 1, |segs|);
    forall t | 0 <= t < moved + len ensures SameByte(host, segs, start, t, buf') {
      if t < moved {
        assert SameByte(host, segs, start, t, buf);
      } else {
        AddrIn(segs, 0, i, start + t);
        var a := segs[i].addr + (start + t - Base(segs, i));
        assert a < |host| && buf'[t] == host[a];
      }
    }
    forall t | moved + len <= t < |buf| ensures buf'[t] == before[t] {
      assert buf'[t] == buf[t];
    }
  }

  /** A transfer from host memory. */
  method CopyIn(host: seq<byte>, buf: array<byte>, d: Dma)
    requires d.local + d.len <= buf.Length && d.remote + d.len <= |host|
    modifies buf
    ensures forall t :: 0 <= t < buf.Length && (t < d.local || d.local + d.len <= t) ==> buf[t] == old(buf[t])
    ensures forall t :: d.local <= t < d.local + d.len ==> buf[t] == host[d.remote + (t - d.local)]
  {
    forall t | 0 <= t < d.len {
      buf[d.local + t] := host[d.remote + t];
    }
  }

  /** The transfer stays inside descriptor `i`, at the place that belongs to its place in the local buffer. */
  ghost predicate Fitting(segs: seq<Seg>, i: nat, start: nat, d: Dma) {
    && i < |segs| && Base(segs, i) <= start + d.local && start + d.local + d.len <= Base(segs, i + 1)
    && d.remote == segs[i].addr + (start + d.local - Base(segs, i))
  }

  /** Where the transfer before transfer `k` ends in the local buffer. */
  ghost function EndBefore(dmas: seq<Dma>, k: nat): nat
    requires k <= |dmas|
  {
    if k == 0 then 0 else dmas[k - 1].local + dmas[k - 1].len
  }

  /** The transfers posted are one for each descriptor from `first` on, also for empty ones; each stays inside its
      descriptor and continues where the one before stopped, in the local buffer and in the chain. */
  ghost predicate Posted(segs: seq<Seg>, first: nat, start: nat, dmas: seq<Dma>) {
    forall k {:trigger EndBefore(dmas, k)} :: 0 <= k < |dmas| ==>
      Fitting(segs, first + k, start, dmas[k]) && dmas[k].local == EndBefore(dmas, k)
  }

  lemma PostedMore(segs: seq<Seg>, first: nat, start: nat, dmas: seq<Dma>, d: Dma)
    requires Posted(segs, first, start, dmas) && Fitting(segs, first + |dmas|, start, d)
    requires d.local == EndBefore(dmas, |dmas|)
    ensures Posted(segs, first, start, dmas + [d])
  {
    var all := dmas + [d];
    forall k | 0 <= k < |all| ensures Fitting(segs, first + k, start, all[k]) && all[k].local == EndBefore(all, k) {
      assert EndBefore(all, k) == EndBefore(dmas, k);
      if k < |dmas| {
        assert all[k] == dmas[k];
      }
    }
  }

  /** Reads up to `total` bytes of the chain, from byte `off` of descriptor `first` on. `accepted` says how many
      transfers the hardware accepts. The pending count grows by one for every transfer posted, and by one more when a
      post fails. */
  method ReadDescs(host: seq<byte>, segs: seq<Seg>, first: nat, off: nat, buf: array<byte>, total: nat, accepted: nat,
                   pending: nat)
    returns (ok: bool, pending': nat, ghost dmas: seq<Dma>, ghost moved: nat)
    requires Inside(segs, |host|) && total <= buf.Length
    requires first <= |segs| && (first < |segs| ==> off <= segs[first].len)
    modifies buf
    ensures Received(host, segs, Min(Base(segs, first) + off, Total(segs)), moved, buf[..], old(buf[..]))
    ensures Posted(segs, first, Base(segs, first) + off, dmas) && |dmas| <= accepted
    ensures pending' == pending + |dmas| + (if ok then 0 else 1)
    ensures ok ==> moved == Min(total, Total(segs) - Min(Base(segs, first) + off, Total(segs)))
    ensures !ok ==> |dmas| == accepted && moved < total
    ensures total == 0 || first == |segs| ==> dmas == []
  {
    ghost var start, before := Base(segs, first) + off, buf[..];
    var i: nat, offset: nat, local: nat, left: nat, posts := first, off, 0, total, 0;
    ok, pending', dmas, moved := true, pending, [], 0;
    StartInside(segs, first, off);
    while left > 0 && i < |segs|
      invariant i == first + |dmas| <= |segs| && posts == |dmas| <= accepted && pending' == pending + |dmas|
      invariant local == moved && moved + left == total
      invariant left > 0 && i < |segs| ==> offset <= segs[i].len && Base(segs, i) + offset == start + moved
      invariant left > 0 && i == |segs| && first < |segs| ==> start + moved == Total(segs)
      invariant Received(host, segs, Min(start, Total(segs)), moved, buf[..], before)
      invariant Posted(segs, first, start, dmas) && moved == EndBefore(dmas, |dmas|)
      invariant total == 0 || first == |segs| ==> dmas == []
    {
      var len := Min(left, segs[i].len - offset);
      var d := Dma(local, segs[i].addr + offset, len);
      pending' := pending' + 1;
      if posts == accepted {
        return false, pending', dmas, moved;
      }
      assert segs[i] in segs;
      ghost var was := buf[..];
      CopyIn(host, buf, d);
      ReceivedMore(host, segs, start, moved, was, before, i, len, buf[..]);
      PostedMore(segs, first, start, dmas, d);
      dmas, posts := dmas + [d], posts + 1;
      local, left, moved := local + len, left - len, moved + len;
      i, offset := i + 1, 0;
    }
  }

  lemma StartInside(segs: seq<Seg>, i: nat, off: nat)
    requires i < |segs| ==> off <= segs[i].len
    requires i <= |segs|
    ensures i < |segs| ==> Base(segs, i) + off <= Total(segs)
  {
    if i < |segs| {
      BaseGrows(segs, i + 1, |segs|);
    }
  }

  /** Reads `total` bytes at an offset into the data of a command: exactly the bytes from `offset` up to `offset + total`
      of the chain, or to its end, arrive at the beginning of the buffer, in order. */
  method LayoutRead(host: seq<byte>, segs: seq<Seg>, buf: array<byte>, total: nat, offset: nat, accepted: nat, pending: nat)
    returns (ok: bool, pending': nat, ghost dmas: seq<Dma>, ghost moved: nat)
    requires Inside(segs, |host|) && total <= buf.Length
    modifies buf
    ensures Received(host, segs, Min(offset, Total(segs)), moved, buf[..], old(buf[..]))
    ensures pending' == pending + |dmas| + (if ok then 0 else 1) && (offset >= Total(segs) || total == 0 ==> dmas == [])
    ensures ok ==> moved == Min(total, Total(segs) - Min(offset, Total(segs)))
    ensures !ok ==> |dmas| == accepted && moved < total
  {
    var first, rest := SkipTo(segs, offset);
    ok, pending', dmas, moved := ReadDescs(host, segs, first, rest, buf, total, accepted, pending);
  }

  // ---------------------------------------------------------------- writing

  ghost predicate Disjoint(segs: seq<Seg>) {
    forall i, j :: 0 <= i < |segs| && 0 <= j < |segs| && i != j ==>
      segs[i].addr + segs[i].len <= segs[j].addr || segs[j].addr + segs[j].len <= segs[i].addr
  }

  /** Host memory has received the first `moved` bytes of the local buffer at the addresses of the chain from byte `start`
      on, if the descriptors do not overlap; no other address has changed. */
  ghost predicate Sent(before: seq<byte>, segs: seq<Seg>, start: nat, moved: nat, buf: seq<byte>, host: seq<byte>) {
    && |host| == |before| && Inside(segs, |host|) && start + moved <= Total(segs) && moved <= |buf|
    && (Disjoint(segs) ==> forall t :: 0 <= t < moved ==> SameByte(host, segs, start, t, buf))
    && (forall a :: 0 <= a < |host| && host[a] != before[a] ==> Touched(segs, start, moved, a))
  }

  ghost predicate Touched(segs: seq<Seg>, start: nat, moved: nat, a: nat) {
    exists n :: start <= n < start + moved && n < Total(segs) && Addr(segs, n) == a
  }

  /** The descriptor that byte `n` of the chain is in. */
  lemma {:induction false} SegOf(segs: seq<Seg>, i: nat, n: nat) returns (j: nat)
    requires i <= |segs| && Base(segs, i) <= n < Total(segs)
    ensures i <= j < |segs| && Base(segs, j) <= n < Base(segs, j + 1)
    decreases |segs| - i
  {
    if n < Base(segs, i + 1) {
      j := i;
    } else {
      j := SegOf(segs, i + 1, n);
    }
  }

  /** A byte before another one of descriptor `i` has another address. */
  lemma EarlierIsElsewhere(segs: seq<Seg>, i: nat, n: nat, m: nat)
    requires Disjoint(segs) && i < |segs| && n < m && Base(segs, i) <= m < Base(segs, i + 1)
    ensures n < Total(segs) && Addr(segs, n) != segs[i].addr + (m - Base(segs, i))
  {
    BaseGrows(segs, i + 1, |segs|);
    var j := SegOf(segs, 0, n);
    AddrIn(segs, 0, j, n);
    if j > i {
      BaseGrows(segs, i + 1, j);
    }
  }

  /** Host memory after the bytes from `moved` up to `moved + len` have gone to descriptor `i`. */
  ghost predicate WroteNext(segs: seq<Seg>, start: nat, moved: nat, buf: seq<byte>, host: seq<byte>, i: nat, len: nat,
                            host': seq<byte>)
  {
    && i < |segs| && moved + len <= |buf| && |host'| == |host|
    && Base(segs, i) <= start + moved && start + moved + len <= Base(segs, i + 1)
    && var at := segs[i].addr + (start + moved - Base(segs, i));
       && at + len <= |host|
       && (forall a :: 0 <= a < |host| && (a < at || at + len <= a) ==> host'[a] == host[a])
       && (forall a :: at <= a < at + len ==> host'[a] == buf[moved + (a - at)])
  }

  lemma SentMore(before: seq<byte>, segs: seq<Seg>, start: nat, moved: nat, buf: seq<byte>, host: seq<byte>,
                 i: nat, len: nat, host': seq<byte>)
    requires Sent(before, segs, start, moved, buf, host) && WroteNext(segs, start, moved, buf, host, i, len, host')
    ensures Sent(before, segs, start, moved + len, buf, host')
  {
    BaseGrows(segs, i + 1, |segs|);
    if Disjoint(segs) {
      forall t | 0 <= t < moved + len ensures SameByte(host', segs, start, t, buf) {
        SentAt(before, segs, start, moved, buf, host, i, len, host', t);
      }
    }
    forall a | 0 <= a < |host'| && host'[a] != before[a] ensures Touched(segs, start, moved + len, a) {
      TouchedAt(before, segs, start, moved, buf, host, i, len, host', a);
    }
  }

  lemma SentAt(before: seq<byte>, segs: seq<Seg>, start: nat, moved: nat, buf: seq<byte>, host: seq<byte>,
               i: nat, len: nat, host': seq<byte>, t: nat)
    requires Sent(before, segs, start, moved, buf, host) && WroteNext(segs, start, moved, buf, host, i, len, host')
    requires Disjoint(segs) && t < moved + len
    ensures SameByte(host', segs, start, t, buf)
  {
    if t < moved {
      assert SameByte(host, segs, start, t, buf);
      SentBefore(segs, start, moved, buf, host, i, len, host', t);
    } else {
      SentNow(segs, start, moved, buf, host, i, len, host', t);
    }
  }

  lemma SentBefore(segs: seq<Seg>, start: nat, moved: nat, buf: seq<byte>, host: seq<byte>, i: nat, len: nat,
                   host': seq<byte>, t: nat)
    requires WroteNext(segs, start, moved, buf, host, i, len, host') && SameByte(host, segs, start, t, buf)
    requires Disjoint(segs) && t < moved
    ensures SameByte(host', segs, start, t, buf)
  {
    KeptElsewhere(segs, i, start, moved, len, t);
  }

  lemma SentNow(segs: seq<Seg>, start: nat, moved: nat, buf: seq<byte>, host: seq<byte>, i: nat, len: nat,
                host': seq<byte>, t: nat)
    requires WroteNext(segs, start, moved, buf, host, i, len, host') && moved <= t < moved + len
    ensures SameByte(host', segs, start, t, buf)
  {
    AddrIn(segs, 0, i, start + t);
    var at, a := segs[i].addr + (start + moved - Base(segs, i)), segs[i].addr + (start + t - Base(segs, i));
    assert host'[a] == buf[moved + (a - at)];
  }

  lemma TouchedAt(before: seq<byte>, segs: seq<Seg>, start: nat, moved: nat, buf: seq<byte>, host: seq<byte>,
                  i: nat, len: nat, host': seq<byte>, a: nat)
    requires Sent(before, segs, start, moved, buf, host) && WroteNext(segs, start, moved, buf, host, i, len, host')
    requires a < |host'| && host'[a] != before[a]
    ensures Touched(segs, start, moved + len, a)
  {
    var at := segs[i].addr + (start + moved - Base(segs, i));
    if at <= a < at + len {
      var n := start + moved + (a - at);
      AddrIn(segs, 0, i, n);
      assert Addr(segs, n) == a;
    } else {
      assert Touched(segs, start, moved, a);
    }
  }

  lemma KeptElsewhere(segs: seq<Seg>, i: nat, start: nat, moved: nat, len: nat, t: nat)
    requires Disjoint(segs) && i < |segs| && t < moved
    requires Base(segs, i) <= start + moved && start + moved + len <= Base(segs, i + 1)
    ensures len > 0 ==> start + t < Total(segs)
    ensures len > 0 ==>
              var at := segs[i].addr + (start + moved - Base(segs, i));
              Addr(segs, start + t) < at || at + len <= Addr(segs, start + t)
  {
    if len > 0 {
      var at := segs[i].addr + (start + moved - Base(segs, i));
      EarlierIsElsewhere(segs, i, start + t, start + moved);
      var a := Addr(segs, start + t);
      if at <= a < at + len {
        EarlierIsElsewhere(segs, i, start + t, start + moved + (a - at));
      }
    }
  }

  /** A transfer to host memory. */
  method CopyOut(buf: seq<byte>, host: array<byte>, d: Dma)
    requires d.local + d.len <= |buf| && d.remote + d.len <= host.Length
    modifies host
    ensures forall a :: 0 <= a < host.Length && (a < d.remote || d.remote + d.len <= a) ==> host[a] == old(host[a])
    ensures forall a :: d.remote <= a < d.remote + d.len ==> host[a] == buf[d.local + (a - d.remote)]
  {
    forall k | 0 <= k < d.len {
      host[d.remote + k] := buf[d.local + k];
    }
  }

  /** Writes up to `total` bytes to the descriptors from `first` on. The length reported to the host grows by the bytes of
      the transfers posted. */
  method WriteDescs(buf: seq<byte>, segs: seq<Seg>, first: nat, host: array<byte>, total: nat, accepted: nat, pending: nat,
                    written: nat)
    returns (ok: bool, pending': nat, written': nat, ghost dmas: seq<Dma>, ghost moved: nat)
    requires Inside(segs, host.Length) && total <= |buf| && first <= |segs|
    modifies host
    ensures Sent(old(host[..]), segs, Base(segs, first), moved, buf, host[..]) && written' == written + moved
    ensures Posted(segs, first, Base(segs, first), dmas) && pending' == pending + |dmas| + (if ok then 0 else 1)
    ensures ok ==> moved == Min(total, Total(segs) - Base(segs, first))
    ensures !ok ==> |dmas| == accepted && moved < total
  {
    ghost var start, before := Base(segs, first), host[..];
    var i: nat, left: nat, posts := first, total, 0;
    ok, pending', written', dmas, moved := true, pending, written, [], 0;
    BaseGrows(segs, first, |segs|);
    while left > 0 && i < |segs|
      invariant i == first + |dmas| <= |segs| && posts == |dmas| <= accepted && pending' == pending + |dmas|
      invariant written' == written + moved && moved + left == total
      invariant left > 0 ==> Base(segs, i) == start + moved
      invariant Sent(before, segs, start, moved, buf, host[..])
      invariant Posted(segs, first, start, dmas) && moved == EndBefore(dmas, |dmas|)
    {
      var len := Min(left, segs[i].len);
      var d := Dma(total - left, segs[i].addr, len);
      pending' := pending' + 1;
      if posts == accepted {
        return false, pending', written', dmas, moved;
      }
      assert segs[i] in segs;
      ghost var was := host[..];
      CopyOut(buf, host, d);
      SentMore(before, segs, start, moved, buf, was, i, len, host[..]);
      PostedMore(segs, first, start, dmas, d);
      dmas, posts := dmas + [d], posts + 1;
      written', left, moved := written' + len, left - len, moved + len;
      i := i + 1;
    }
  }

  /** Writes to a command: starts at its first writable descriptor. */
  method LayoutWrite(buf: seq<byte>, segs: seq<Seg>, host: array<byte>, total: nat, accepted: nat, pending: nat, written: nat)
    returns (ok: bool, pending': nat, written': nat, first: nat, ghost dmas: seq<Dma>, ghost moved: nat)
    requires Inside(segs, host.Length) && total <= |buf|
    modifies host
    ensures first <= |segs| && (forall i :: 0 <= i < first ==> !segs[i].writable) && (first < |segs| ==> segs[first].writable)
    ensures Sent(old(host[..]), segs, Base(segs, first), moved, buf, host[..]) && written' == written + moved
    ensures Posted(segs, first, Base(segs, first), dmas) && pending' == pending + |dmas| + (if ok then 0 else 1)
    ensures ok ==> moved == Min(total, Total(segs) - Base(segs, first))
    ensures !ok ==> |dmas| == accepted && moved < total
  {
    first := 0;
    while first < |segs| && !segs[first].writable
      invariant first <= |segs| && forall i :: 0 <= i < first ==> !segs[i].writable
    {
      first := first + 1;
    }
    BaseGrows(segs, first, |segs|);
    ok, pending', written', dmas, moved := WriteDescs(buf, segs, first, host, total, accepted, pending, written);
  }
}
