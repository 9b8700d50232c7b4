/** Saving the state of a controller to a buffer and restoring it (ctrl/snap_virtio_common_ctrl.c). */
module StateBuffer {
  import opened Records
  import opened StateFormat

  /** A field stands at this place of the buffer. */
  ghost predicate Stands(buf: seq<byte>, off: nat, f: Field) {
    && off + 8 + |f.data| <= |buf|
    && Number(buf[off..off + 4]) == f.kind && Number(buf[off + 4..off + 8]) == |f.data|
    && buf[off + 8..off + 8 + |f.data|] == f.data
  }

  /** Where field `k` starts. */
  ghost function At(fs: seq<Field>, k: nat): nat
    requires k <= |fs|
  {
    4 + LenTo(fs, k)
  }

  /** The buffer holds these fields, one after the other, from its fifth byte on. */
  ghost predicate Holds(buf: seq<byte>, fs: seq<Field>) {
    && 4 + Len(fs) <= |buf|
    && forall k {:trigger Stands(buf, At(fs, k), fs[k])} :: 0 <= k < |fs| ==> Stands(buf, At(fs, k), fs[k])
  }

  /** The number of fields that stands in the first four bytes. */
  function CountIn(buf: seq<byte>): nat
    requires |buf| >= 4
  {
    Number(buf[..4])
  }

  ghost predicate HoldsCounted(buf: seq<byte>, fs: seq<Field>) {
    Holds(buf, fs) && CountIn(buf) == |fs|
  }

  /** The first four bytes and those from `end` on are the same. */
  ghost predicate Outside(a: seq<byte>, b: seq<byte>, end: nat) {
    |a| == |b| && forall j :: 0 <= j < |a| && (j < 4 || end <= j) ==> a[j] == b[j]
  }

  lemma SameCount(a: seq<byte>, b: seq<byte>, end: nat)
    requires Outside(a, b, end) && |a| >= 4
    ensures CountIn(a) == CountIn(b)
  {
    assert a[..4] == b[..4];
  }

  /** The bytes of a field, written at some place, are the field there. */
  lemma EncodedStands(buf: seq<byte>, off: nat, f: Field)
    requires off + 8 + |f.data| <= |buf| && FieldFits(f) && buf[off..off + 8 + |f.data|] == Encode(f)
    ensures Stands(buf, off, f)
  {
    var end := off + 8 + |f.data|;
    FieldReadBack(f, buf[off..end]);
    SliceOfSlice(buf, off, end, 0, 4);
    SliceOfSlice(buf, off, end, 4, 8);
    SliceOfSlice(buf, off, end, 8, end - off);
  }

  lemma SliceOfSlice(s: seq<byte>, from: nat, to: nat, i: nat, j: nat)
    requires from <= to <= |s| && i <= j <= to - from
    ensures s[from..to][i..j] == s[from + i..from + j]
  {
    forall k | 0 <= k < j - i ensures s[from..to][i..j][k] == s[from + i..from + j][k] {
      assert s[from..to][i + k] == s[from + (i + k)];
    }
  }

  /** A field stays where it is when other bytes change. */
  lemma StillStands(a: seq<byte>, b: seq<byte>, off: nat, f: Field)
    requires Stands(a, off, f) && |a| == |b| && forall j :: off <= j < off + 8 + |f.data| ==> a[j] == b[j]
    ensures Stands(b, off, f)
  {
    assert a[off..off + 4] == b[off..off + 4];
    assert a[off + 4..off + 8] == b[off + 4..off + 8];
    assert a[off + 8..off + 8 + |f.data|] == b[off + 8..off + 8 + |f.data|];
  }

  lemma {:induction false} LenGrows(fs: seq<Field>, k: nat, n: nat)
    requires k <= n <= |fs|
    ensures LenTo(fs, k) <= LenTo(fs, n)
  {
    if k < n {
      LenGrows(fs, k, n - 1);
    }
  }

  /** Steps from one field to the next, by the length that stands in the buffer. */
  method NextField(buf: array<byte>, fld: nat, ghost fs: seq<Field>, ghost k: nat) returns (next: nat)
    requires Holds(buf[..], fs) && k < |fs| && fld == At(fs, k)
    ensures next == At(fs, k + 1) <= buf.Length
  {
    assert Stands(buf[..], At(fs, k), fs[k]);
    LenGrows(fs, k + 1, |fs|);
    assert buf[fld + 4..fld + 8] == buf[..][fld + 4..fld + 8];
    next := fld + 8 + Number(buf[fld + 4..fld + 8]);
  }

  method PutBytes(buf: array<byte>, off: nat, s: seq<byte>)
    requires off + |s| <= buf.Length
    modifies buf
    ensures buf[off..off + |s|] == s
    ensures forall j :: 0 <= j < buf.Length && (j < off || off + |s| <= j) ==> buf[j] == old(buf[j])
  {
    forall i | 0 <= i < |s| {
      buf[off + i] := s[i];
    }
  }

  /** Writes a field after the others. */
  method PutField(buf: array<byte>, f: Field, ghost fs: seq<Field>, fld: nat)
    requires Holds(buf[..], fs) && FieldFits(f) && fld == At(fs, |fs|) && fld + 8 + |f.data| <= buf.Length
    modifies buf
    ensures Holds(buf[..], fs + [f]) && At(fs + [f], |fs|) == fld && At(fs + [f], |fs| + 1) == fld + 8 + |f.data|
    ensures Outside(buf[..], old(buf[..]), fld + 8 + |f.data|)
  {
    ghost var before := buf[..];
    PutBytes(buf, fld, Encode(f));
    assert buf[..][fld..fld + 8 + |f.data|] == Encode(f);
    EncodedStands(buf[..], fld, f);
    FieldAppended(before, fs, f, buf[..]);
  }

  lemma FieldAppended(before: seq<byte>, fs: seq<Field>, f: Field, after: seq<byte>)
    requires Holds(before, fs) && Stands(after, At(fs, |fs|), f) && |after| == |before|
    requires forall j :: 0 <= j < At(fs, |fs|) ==> after[j] == before[j]
    ensures Holds(after, fs + [f])
    ensures At(fs + [f], |fs|) == At(fs, |fs|) && At(fs + [f], |fs| + 1) == At(fs, |fs|) + 8 + |f.data|
  {
    var fs' := fs + [f];
    LenPrefix(fs, [f], |fs|);
    forall k | 0 <= k < |fs'| ensures Stands(after, At(fs', k), fs'[k]) {
      FieldKept(before, fs, f, after, k);
    }
  }

  lemma FieldKept(before: seq<byte>, fs: seq<Field>, f: Field, after: seq<byte>, k: nat)
    requires Holds(before, fs) && Stands(after, At(fs, |fs|), f) && |after| == |before| && k <= |fs|
    requires forall j :: 0 <= j < At(fs, |fs|) ==> after[j] == before[j]
    ensures Stands(after, At(fs + [f], k), (fs + [f])[k])
  {
    LenPrefix(fs, [f], k);
    if k < |fs| {
      LenGrows(fs, k + 1, |fs|);
      assert Stands(before, At(fs, k), fs[k]);
      StillStands(before, after, At(fs, k), fs[k]);
    }
  }

  // ---------------------------------------------------------------- saving

  /** The fields after `n` queues have been saved. */
  ghost function SavedTo(s: Saved, n: nat): seq<Field>
    requires n <= |s.queues| == |s.progress|
  {
    [CommonField(s.common)] + QueueFields(s, n)
  }

  /** After `n` queues there is room left for all the others and for the device. */
  lemma RoomLeft(s: Saved, n: nat)
    requires n <= |s.queues| == |s.progress|
    ensures 4 + Len(SavedTo(s, n)) == 44 + 46 * n + 14 * Running(s, n)
    ensures 4 + Len(SavedTo(s, n)) + 60 * (|s.queues| - n) + (if s.device.Some? then 8 + |s.device.value| else 0)
            <= ReportedSize(s)
  {
    var c, q := [CommonField(s.common)], QueueFields(s, n);
    Sizes();
    QueueBytes(s, n);
    LenJoin(c, q, |q|);
    assert LenTo(c, 1) == LenTo(c, 0) + 8 + |c[0].data|;
  }

  lemma RecordsFit(c: CommonCfg, i: nat, q: QueueCfg, p: Progress)
    ensures FieldFits(CommonField(c)) && |CommonField(c).data| == 32
    ensures FieldFits(QueueField(i, q)) && |QueueField(i, q).data| == 38
    ensures FieldFits(RunField(i, p)) && |RunField(i, p).data| == 6
  {
    Sizes();
  }

  lemma SavedNext(s: Saved, k: nat)
    requires k < |s.queues| == |s.progress|
    ensures var fs := SavedTo(s, k) + [QueueField(k, s.queues[k])];
            SavedTo(s, k + 1) == if Runs(s, k) then fs + [RunField(k, s.progress[k].value)] else fs
  {
    var c, q, f := [CommonField(s.common)], QueueFields(s, k), [QueueField(k, s.queues[k])];
    if Runs(s, k) {
      var g := [RunField(k, s.progress[k].value)];
      assert c + (q + f + g) == c + q + f + g;
    } else {
      assert c + (q + f + []) == c + q + f;
    }
  }

  /** Writes a field after the last one, which is at `fld`. */
  method AddField(buf: array<byte>, f: Field, ghost fs: seq<Field>, fld: nat) returns (last: nat)
    requires fs != [] && Holds(buf[..], fs) && FieldFits(f) && fld == At(fs, |fs| - 1)
    requires At(fs, |fs|) + 8 + |f.data| <= buf.Length
    modifies buf
    ensures Holds(buf[..], fs + [f]) && last == At(fs, |fs|) == At(fs + [f], |fs|)
    ensures At(fs + [f], |fs| + 1) == last + 8 + |f.data|
    ensures Outside(buf[..], old(buf[..]), last + 8 + |f.data|)
  {
    last := NextField(buf, fld, fs, |fs| - 1);
    PutField(buf, f, fs, last);
  }

  /** Writes one field, or two. */
  method AddFields(buf: array<byte>, f: Field, g: Option<Field>, ghost fs: seq<Field>, fld: nat, ghost fs': seq<Field>)
    returns (last: nat, count: nat)
    requires fs != [] && Holds(buf[..], fs) && FieldFits(f) && (g.Some? ==> FieldFits(g.value)) && fld == At(fs, |fs| - 1)
    requires At(fs, |fs|) + 8 + |f.data| + (if g.Some? then 8 + |g.value.data| else 0) <= buf.Length
    requires fs' == if g.Some? then fs + [f] + [g.value] else fs + [f]
    modifies buf
    ensures Holds(buf[..], fs') && last == At(fs', |fs'| - 1) && |fs'| == |fs| + count
    ensures Outside(buf[..], old(buf[..]), At(fs', |fs'|))
  {
    last := AddField(buf, f, fs, fld);
    count := 1;
    if g.Some? {
      last := AddField(buf, g.value, fs + [f], last);
      count := 2;
    }
  }

  /** Saves one queue after `k` others: its configuration, and its progress if it is enabled and has any. `fld` is the
      last field written. */
  method SaveQueue(s: Saved, k: nat, buf: array<byte>, fld: nat) returns (last: nat, count: nat)
    requires |s.progress| == |s.queues| && k < |s.queues| && ReportedSize(s) <= buf.Length
    requires Holds(buf[..], SavedTo(s, k)) && fld == At(SavedTo(s, k), |SavedTo(s, k)| - 1)
    modifies buf
    ensures Holds(buf[..], SavedTo(s, k + 1)) && last == At(SavedTo(s, k + 1), |SavedTo(s, k + 1)| - 1)
    ensures |SavedTo(s, k)| + count == |SavedTo(s, k + 1)|
    ensures Outside(buf[..], old(buf[..]), At(SavedTo(s, k + 1), |SavedTo(s, k + 1)|))
  {
    RoomLeft(s, k);
    SavedNext(s, k);
    RecordsFit(s.common, k, s.queues[k], if s.progress[k].Some? then s.progress[k].value else Progress(0, 0));
    var g := if Runs(s, k) then Some(RunField(k, s.progress[k].value)) else None;
    last, count := AddFields(buf, QueueField(k, s.queues[k]), g, SavedTo(s, k), fld, SavedTo(s, k + 1));
  }

  ghost predicate AllRead(s: Saved, readable: seq<bool>)
    requires |readable| == |s.queues| == |s.progress|
  {
    forall i :: 0 <= i < |s.queues| && Runs(s, i) ==> readable[i]
  }

  /** A buffer that holds fields holds those before the last, */
  lemma HoldsBefore(buf: seq<byte>, fs: seq<Field>, f: Field)
    requires Holds(buf, fs + [f])
    ensures Holds(buf, fs)
  {
    LenPrefix(fs, [f], |fs|);
    LenGrows(fs + [f], |fs|, |fs| + 1);
    forall k | 0 <= k < |fs| ensures Stands(buf, At(fs, k), fs[k]) {
      LenPrefix(fs, [f], k);
      assert Stands(buf, At(fs + [f], k), (fs + [f])[k]);
    }
  }

  /** and the first one. */
  lemma {:induction false} HoldsFirst(buf: seq<byte>, fs: seq<Field>)
    requires Holds(buf, fs) && fs != []
    ensures Holds(buf, fs[..1])
    decreases |fs|
  {
    if |fs| > 1 {
      assert fs == fs[..|fs| - 1] + [fs[|fs| - 1]];
      HoldsBefore(buf, fs[..|fs| - 1], fs[|fs| - 1]);
      HoldsFirst(buf, fs[..|fs| - 1]);
      assert fs[..|fs| - 1][..1] == fs[..1];
    } else {
      assert fs[..1] == fs;
    }
  }

  /** Saves all queues after the common field. Fails at the first queue whose progress cannot be read. */
  method SaveQueues(s: Saved, readable: seq<bool>, buf: array<byte>) returns (ok: bool, count: nat)
    requires |s.progress| == |s.queues| == |readable| && ReportedSize(s) <= buf.Length
    requires Holds(buf[..], SavedTo(s, 0))
    modifies buf
    ensures ok <==> AllRead(s, readable)
    ensures !ok ==> Holds(buf[..], SavedTo(s, 0))
    ensures ok ==> Holds(buf[..], SavedTo(s, |s.queues|)) && |SavedTo(s, |s.queues|)| == count + 1
    ensures ok ==> Outside(buf[..], old(buf[..]), At(SavedTo(s, |s.queues|), |SavedTo(s, |s.queues|)|))
    ensures buf.Length >= 4 && CountIn(buf[..]) == old(CountIn(buf[..]))
  {
    ghost var fs := SavedTo(s, 0);
    var fld: nat := 4;
    count := 0;
    for k := 0 to |s.queues|
      invariant fs == SavedTo(s, k) && |fs| == count + 1
      invariant Holds(buf[..], fs) && fld == At(fs, |fs| - 1)
      invariant Outside(buf[..], old(buf[..]), At(fs, |fs|))
      invariant CountIn(buf[..]) == old(CountIn(buf[..]))
      invariant forall i :: 0 <= i < k && Runs(s, i) ==> readable[i]
    {
      if Runs(s, k) && !readable[k] {
        SaveUnread(s, k, buf, fld);
        return false, count;
      }
      var n;
      EndsGrow(s, k);
      fld, n := SaveQueue(s, k, buf, fld);
      fs, count := SavedTo(s, k + 1), count + n;
      SameCount(buf[..], old(buf[..]), At(fs, |fs|));
    }
    ok := true;
  }

  lemma EndsGrow(s: Saved, k: nat)
    requires k < |s.queues| == |s.progress|
    ensures At(SavedTo(s, k), |SavedTo(s, k)|) <= At(SavedTo(s, k + 1), |SavedTo(s, k + 1)|)
  {
    RoomLeft(s, k);
    RoomLeft(s, k + 1);
  }

  /** The record of a queue whose progress cannot be read is written but not counted. */
  method SaveUnread(s: Saved, k: nat, buf: array<byte>, fld: nat)
    requires |s.progress| == |s.queues| && k < |s.queues| && ReportedSize(s) <= buf.Length
    requires Holds(buf[..], SavedTo(s, k)) && fld == At(SavedTo(s, k), |SavedTo(s, k)| - 1)
    modifies buf
    ensures Holds(buf[..], SavedTo(s, 0)) && buf.Length >= 4 && CountIn(buf[..]) == old(CountIn(buf[..]))
  {
    ghost var fs, f := SavedTo(s, k), QueueField(k, s.queues[k]);
    RoomLeft(s, k);
    RecordsFit(s.common, k, s.queues[k], Progress(0, 0));
    var last := AddField(buf, QueueField(k, s.queues[k]), fs, fld);
    SameCount(buf[..], old(buf[..]), last + 8 + |f.data|);
    HoldsFirst(buf[..], fs + [f]);
    assert (fs + [f])[..1] == SavedTo(s, 0);
  }

  /** Walks over `count` fields, from the first. */
  method Rewalk(buf: array<byte>, count: nat, ghost fs: seq<Field>) returns (fld: nat)
    requires Holds(buf[..], fs) && count < |fs|
    ensures fld == At(fs, count)
  {
    fld := 4;
    for i := 0 to count
      invariant fld == At(fs, i)
    {
      fld := NextField(buf, fld, fs, i);
    }
  }

  method PutCount(buf: array<byte>, count: nat, ghost fs: seq<Field>)
    requires Holds(buf[..], fs) && count < Cap(4)
    modifies buf
    ensures Holds(buf[..], fs) && CountIn(buf[..]) == count
    ensures forall j :: 4 <= j < buf.Length ==> buf[j] == old(buf[j])
  {
    ghost var before := buf[..];
    PutBytes(buf, 0, Le(count, 4));
    assert buf[..][..4] == Le(count, 4);
    NumberOfLe(count, 4);
    forall k | 0 <= k < |fs| ensures Stands(buf[..], At(fs, k), fs[k]) {
      assert Stands(before, At(fs, k), fs[k]);
      StillStands(before, buf[..], At(fs, k), fs[k]);
    }
  }

  lemma FewFields(s: Saved)
    requires InRange(s)
    ensures |SavedTo(s, |s.queues|)| <= |FieldsOf(s)| < Cap(4)
  {
    Sizes();
    FewQueueFields(s, |s.queues|);
  }

  lemma {:induction false} FewQueueFields(s: Saved, n: nat)
    requires n <= |s.queues| == |s.progress|
    ensures |QueueFields(s, n)| <= 2 * n
  {
    if n > 0 {
      FewQueueFields(s, n - 1);
    }
  }

  /** Saving succeeds: the buffer is not shorter than the reported size, the progress of every running queue can be
      read, and the device gives its own state if it has one. */
  ghost predicate Saves(s: Saved, readable: seq<bool>, deviceOk: bool, length: nat)
    requires |readable| == |s.queues| == |s.progress|
  {
    ReportedSize(s) <= length && (s.device.Some? ==> deviceOk) && AllRead(s, readable)
  }

  /** The bytes from `end` on are the same. */
  ghost predicate SameFrom(a: seq<byte>, b: seq<byte>, end: nat) {
    |a| == |b| && forall j :: end <= j < |a| ==> a[j] == b[j]
  }

  /** The fields of the queues end before those of the whole state do. */
  lemma EndsInside(s: Saved)
    requires |s.progress| == |s.queues|
    ensures 44 <= 4 + Len(SavedTo(s, |s.queues|)) <= 4 + Len(FieldsOf(s))
  {
    var fs := SavedTo(s, |s.queues|);
    RoomLeft(s, |s.queues|);
    if s.device.Some? {
      LenPrefix(fs, [Field(DEVICE, s.device.value)], |fs|);
      LenGrows(FieldsOf(s), |fs|, |fs| + 1);
    } else {
      assert FieldsOf(s) == fs;
    }
  }

  /** Writes the common field and those of the queues, and counts them. */
  method SaveRecords(s: Saved, readable: seq<bool>, buf: array<byte>) returns (ok: bool, count: nat)
    requires |s.progress| == |s.queues| == |readable| && ReportedSize(s) <= buf.Length
    requires |SavedTo(s, |s.queues|)| < Cap(4)
    modifies buf
    ensures ok <==> AllRead(s, readable)
    ensures HoldsCounted(buf[..], SavedTo(s, if ok then |s.queues| else 0))
    ensures ok ==> count + 1 == |SavedTo(s, |s.queues|)|
    ensures ok ==> SameFrom(buf[..], old(buf[..]), 4 + Len(SavedTo(s, |s.queues|)))
  {
    SaveCommon(s, buf);
    ok, count := SaveQueues(s, readable, buf);
    RoomLeft(s, |s.queues|);
    if ok {
      PutCount(buf, count + 1, SavedTo(s, |s.queues|));
    }
  }

  /** Writes the field of the device, if there is one, behind the others, and counts it if the device gave its state. */
  method SaveDevice(s: Saved, deviceOk: bool, buf: array<byte>, count: nat, fld: nat) returns (ok: bool)
    requires |s.progress| == |s.queues| && ReportedSize(s) <= buf.Length
    requires var fs := SavedTo(s, |s.queues|); Holds(buf[..], fs) && count == |fs| && fld == At(fs, count - 1)
    requires (s.device.Some? ==> |s.device.value| < Cap(4)) && CountIn(buf[..]) == count && |FieldsOf(s)| < Cap(4)
    modifies buf
    ensures ok <==> (s.device.Some? ==> deviceOk)
    ensures HoldsCounted(buf[..], if ok then FieldsOf(s) else SavedTo(s, |s.queues|))
    ensures ok ==> SameFrom(buf[..], old(buf[..]), 4 + Len(FieldsOf(s)))
  {
    ghost var fs := SavedTo(s, |s.queues|);
    RoomLeft(s, |s.queues|);
    ok := true;
    if s.device.Some? {
      var last := AddField(buf, Field(DEVICE, s.device.value), fs, fld);
      if !deviceOk {
        SameCount(buf[..], old(buf[..]), last + 8 + |s.device.value|);
        HoldsBefore(buf[..], fs, Field(DEVICE, s.device.value));
        return false;
      }
      PutCount(buf, count + 1, FieldsOf(s));
    } else {
      assert FieldsOf(s) == fs;
    }
  }

  /** Saves the state. The fields written are those of the state, and no byte after them is touched. Whenever the buffer is
      long enough, the count in it is that of the fields it holds: all of them, all but that of a device which gave no state,
      or only the common one if the progress of a queue could not be read. */
  method Save(s: Saved, readable: seq<bool>, deviceOk: bool, buf: array<byte>) returns (ok: bool, size: nat)
    requires InRange(s) && |readable| == |s.queues|
    modifies buf
    ensures ok <==> Saves(s, readable, deviceOk, buf.Length)
    ensures buf.Length < ReportedSize(s) ==> buf[..] == old(buf[..])
    ensures ok ==> size == ReportedSize(s) && SameFrom(buf[..], old(buf[..]), 4 + Len(FieldsOf(s)))
    ensures ReportedSize(s) <= buf.Length ==> HoldsCounted(buf[..], Written(s, readable, ok))
  {
    size := ReportedSize(s);
    if buf.Length < size {
      return false, size;
    }
    FewFields(s);
    EndsInside(s);
    var count;
    ok, count := SaveRecords(s, readable, buf);
    if ok {
      var fld := Rewalk(buf, count, SavedTo(s, |s.queues|));
      ok := SaveDevice(s, deviceOk, buf, count + 1, fld);
    }
  }

  ghost function Written(s: Saved, readable: seq<bool>, ok: bool): seq<Field>
    requires |readable| == |s.queues| == |s.progress|
  {
    if ok then FieldsOf(s) else SavedTo(s, if AllRead(s, readable) then |s.queues| else 0)
  }

  /** Writes the common field as the first one. */
  method SaveCommon(s: Saved, buf: array<byte>)
    requires |s.progress| == |s.queues| && ReportedSize(s) <= buf.Length
    modifies buf
    ensures Holds(buf[..], SavedTo(s, 0)) && CountIn(buf[..]) == 1
    ensures forall j :: 44 <= j < buf.Length ==> buf[j] == old(buf[j])
  {
    RecordsFit(s.common, 0, QueueCfg(0, 0, 0, 0, 0, 0, 0), Progress(0, 0));
    PutCount(buf, 0, []);
    PutField(buf, CommonField(s.common), [], 4);
    assert SavedTo(s, 0) == [] + [CommonField(s.common)];
    PutCount(buf, 1, SavedTo(s, 0));
  }

  // ---------------------------------------------------------------- restoring

  datatype Restored =
    | Refused
    | Accepted(common: CommonCfg, queues: seq<QueueCfg>, progress: seq<Progress>, device: seq<byte>)

  /** What the reader takes for granted: records are complete. */
  predicate Complete(f: Field) {
    && (f.kind == COMMON ==> |f.data| >= Size(COMMON_WIDTHS))
    && (f.kind == QUEUE ==> |f.data| >= Size(QUEUE_WIDTHS))
    && (f.kind == RUN ==> |f.data| >= Size(RUN_WIDTHS))
  }

  /** What it also takes for granted: a record of a queue is written to a place that the controller has. */
  predicate WritesInside(f: Field, maxQueues: nat)
    requires Complete(f)
  {
    f.kind == QUEUE || f.kind == RUN ==> IndexOf(f.data) < maxQueues
  }

  predicate Readable(f: Field, maxQueues: nat) {
    Complete(f) && WritesInside(f, maxQueues)
  }

  /** What has been gathered from the first `n` fields. */
  ghost predicate Gathered(fs: seq<Field>, n: nat, common: Option<seq<byte>>, device: Option<seq<byte>>,
                           queues: seq<QueueCfg>, progress: seq<Progress>)
  {
    && n <= |fs| && |queues| == |progress|
    && common == Lookup(fs, n, CommonKey) && device == Lookup(fs, n, DeviceKey)
    && forall i :: 0 <= i < |queues| ==>
         queues[i] == ReadQueue(Lookup(fs, n, QueueKey(i))) && progress[i] == ReadProgress(Lookup(fs, n, RunKey(i)))
  }

  /** Takes in one field. */
  method Gather(f: Field, maxQueues: nat, common: Option<seq<byte>>, device: Option<seq<byte>>, queues: seq<QueueCfg>,
                progress: seq<Progress>, ghost fs: seq<Field>, ghost n: nat)
    returns (common': Option<seq<byte>>, device': Option<seq<byte>>, queues': seq<QueueCfg>, progress': seq<Progress>)
    requires n < |fs| && f == fs[n] && Readable(f, maxQueues) && |queues| == maxQueues
    requires Gathered(fs, n, common, device, queues, progress)
    ensures Gathered(fs, n + 1, common', device', queues', progress') && |queues'| == maxQueues
  {
    common', device', queues', progress' := common, device, queues, progress;
    if f.kind == COMMON {
      common' := Some(f.data);
    } else if f.kind == QUEUE {
      queues' := queues[IndexOf(f.data) := ReadQueue(Some(f.data))];
    } else if f.kind == RUN {
      progress' := progress[IndexOf(f.data) := ReadProgress(Some(f.data))];
    } else if f.kind == DEVICE {
      device' := Some(f.data);
    }
  }

  ghost predicate AllReadable(fs: seq<Field>, maxQueues: nat) {
    forall f :: f in fs ==> Readable(f, maxQueues)
  }

  /** Reads the field at `fld`. */
  method ReadField(buf: array<byte>, fld: nat, ghost fs: seq<Field>, ghost n: nat) returns (f: Field)
    requires Holds(buf[..], fs) && n < |fs| && fld == At(fs, n)
    ensures f == fs[n] && fld + 8 + |f.data| == At(fs, n + 1) <= buf.Length
  {
    assert Stands(buf[..], At(fs, n), fs[n]);
    LenGrows(fs, n + 1, |fs|);
    assert buf[fld..fld + 4] == buf[..][fld..fld + 4] && buf[fld + 4..fld + 8] == buf[..][fld + 4..fld + 8];
    var kind, size := Number(buf[fld..fld + 4]), Number(buf[fld + 4..fld + 8]);
    assert buf[fld + 8..fld + 8 + size] == buf[..][fld + 8..fld + 8 + size];
    f := Field(kind, buf[fld + 8..fld + 8 + size]);
  }

  /** Restores a state: refused if the buffer has no room for the count, if the device cannot take a state, or if no
      common or no device field is found. The reader counts the bytes of the data, not those of the headers, so what
      ends its loop is always the number of fields. */
  method Restore(buf: array<byte>, maxQueues: nat, canSet: bool, ghost fs: seq<Field>) returns (r: Restored)
    requires buf.Length >= 4 ==> Holds(buf[..], fs) && CountIn(buf[..]) == |fs| && AllReadable(fs, maxQueues)
    ensures r.Accepted? <==> buf.Length >= 4 && canSet && Find(fs, CommonKey).Some? && Find(fs, DeviceKey).Some?
    ensures r.Accepted? ==>
              && r.common == ReadCommon(Find(fs, CommonKey)) && Some(r.device) == Find(fs, DeviceKey)
              && |r.queues| == |r.progress| == maxQueues
              && forall i :: 0 <= i < maxQueues ==>
                   r.queues[i] == ReadQueue(Find(fs, QueueKey(i))) && r.progress[i] == ReadProgress(Find(fs, RunKey(i)))
  {
    if buf.Length < 4 || !canSet {
      return Refused;
    }
    var common: Option<seq<byte>>, device: Option<seq<byte>> := None, None;
    var queues, progress := NoQueues(maxQueues), NoProgress(maxQueues);
    var totalLen: nat, fld: nat, n: nat := 4, 4, 0;
    while totalLen < buf.Length && n < CountIn(buf[..])
      invariant n <= |fs| && totalLen <= fld == At(fs, n)
      invariant |queues| == maxQueues && Gathered(fs, n, common, device, queues, progress)
      decreases |fs| - n
    {
      var f := ReadField(buf, fld, fs, n);
      assert f in fs;
      common, device, queues, progress := Gather(f, maxQueues, common, device, queues, progress, fs, n);
      totalLen, fld, n := totalLen + |f.data|, fld + 8 + |f.data|, n + 1;
    }
    assert n == |fs| by {
      if n < |fs| {
        LenGrows(fs, n + 1, |fs|);
      }
    }
    if common.None? || device.None? {
      return Refused;
    }
    r := Accepted(ReadCommon(common), queues, progress, device.value);
  }

  function NoQueues(n: nat): (r: seq<QueueCfg>)
    ensures |r| == n && forall i :: 0 <= i < n ==> r[i] == ReadQueue(None)
  {
    if n == 0 then [] else NoQueues(n - 1) + [QueueCfg(0, 0, 0, 0, 0, 0, 0)]
  }

  function NoProgress(n: nat): (r: seq<Progress>)
    ensures |r| == n && forall i :: 0 <= i < n ==> r[i] == ReadProgress(None)
  {
    if n == 0 then [] else NoProgress(n - 1) + [Progress(0, 0)]
  }

  lemma {:induction false} QueueFieldsComplete(s: Saved, n: nat)
    requires InRange(s) && n <= |s.queues|
    ensures forall f :: f in QueueFields(s, n) ==> Complete(f) && WritesInside(f, n)
    ensures forall i :: 0 <= i < n ==> QueueField(i, s.queues[i]) in QueueFields(s, n)
  {
    if n > 0 {
      var k := n - 1;
      QueueFieldsComplete(s, k);
      QueueFieldKey(k, s.queues[k]);
      if Runs(s, k) {
        RunFieldKey(k, s.progress[k].value);
      }
      var f, g := QueueField(k, s.queues[k]), if Runs(s, k) then [RunField(k, s.progress[k].value)] else [];
      forall h | h in QueueFields(s, k) + [f] + g ensures Complete(h) && WritesInside(h, n) {
        assert h in QueueFields(s, k) || h == f || h in g;
      }
      assert f in QueueFields(s, k) + [f] + g;
    }
  }

  /** A saved state is complete, and what restoring it writes stays inside a controller's table of queues if and only if
      the controller has at least as many queues as were saved. */
  lemma WritesInsideExactlyIf(s: Saved, maxQueues: nat)
    requires InRange(s)
    ensures forall f :: f in FieldsOf(s) ==> Complete(f)
    ensures (forall f :: f in FieldsOf(s) ==> Complete(f) && WritesInside(f, maxQueues)) <==> |s.queues| <= maxQueues
  {
    var n := |s.queues|;
    QueueFieldsComplete(s, n);
    Sizes();
    var c, q := [CommonField(s.common)], QueueFields(s, n);
    var d := if s.device.Some? then [Field(DEVICE, s.device.value)] else [];
    forall f | f in FieldsOf(s) ensures Complete(f) && WritesInside(f, n) {
      assert f in c || f in q || f in d;
    }
    if n > maxQueues {
      WritesBeyond(s, maxQueues);
    }
  }

  /** A state saved with more queues: the record of the first queue too many is written past the table. */
  lemma WritesBeyond(s: Saved, maxQueues: nat)
    requires InRange(s) && |s.queues| > maxQueues
    ensures var f := QueueField(maxQueues, s.queues[maxQueues]); f in FieldsOf(s) && Complete(f) && !WritesInside(f, maxQueues)
  {
    var n := |s.queues|;
    QueueFieldsComplete(s, n);
    QueueFieldKey(maxQueues, s.queues[maxQueues]);
    var f := QueueField(maxQueues, s.queues[maxQueues]);
    assert f in QueueFields(s, n);
    assert f in FieldsOf(s);
  }

  /** A queue that was not saved is read as zero. */
  lemma FurtherQueueIsZero(s: Saved, i: nat)
    requires InRange(s) && i >= |s.queues|
    ensures ReadQueue(Find(FieldsOf(s), QueueKey(i))) == ReadQueue(None)
    ensures ReadProgress(Find(FieldsOf(s), RunKey(i))) == ReadProgress(None)
  {
    FindSaved(s, QueueKey(i));
    FindSaved(s, RunKey(i));
  }

  /** What a controller with `maxQueues` queues has after restoring what was saved. */
  ghost predicate CameBack(s: Saved, maxQueues: nat, r: Restored)
    requires |s.queues| == |s.progress| <= maxQueues && r.Accepted?
  {
    && r.common == s.common && Some(r.device) == s.device && |r.queues| == |r.progress| == maxQueues
    && (forall i :: 0 <= i < maxQueues ==> r.queues[i] == if i < |s.queues| then s.queues[i] else ReadQueue(None))
    && (forall i :: 0 <= i < maxQueues ==>
          r.progress[i] == if i < |s.queues| && Runs(s, i) then s.progress[i].value else Progress(0, 0))
  }

  lemma AllCameBack(s: Saved, maxQueues: nat, r: Restored)
    requires InRange(s) && |s.queues| <= maxQueues && r.Accepted?
    requires r.common == ReadCommon(Find(FieldsOf(s), CommonKey)) && Some(r.device) == Find(FieldsOf(s), DeviceKey)
    requires |r.queues| == |r.progress| == maxQueues
    requires forall i :: 0 <= i < maxQueues ==>
               && r.queues[i] == ReadQueue(Find(FieldsOf(s), QueueKey(i)))
               && r.progress[i] == ReadProgress(Find(FieldsOf(s), RunKey(i)))
    ensures CameBack(s, maxQueues, r)
  {
    RestoreUndoesSave(s);
    forall i | |s.queues| <= i < maxQueues
      ensures r.queues[i] == ReadQueue(None) && r.progress[i] == ReadProgress(None)
    {
      FurtherQueueIsZero(s, i);
    }
  }

  /** What was saved can be restored, on any controller with at least as many queues, if and only if the device has a state
      of its own; and then the state comes back, but for the progress of queues that had none to save, and further
      queues are zero. */
  method SaveThenRestore(s: Saved, readable: seq<bool>, deviceOk: bool, buf: array<byte>, maxQueues: nat)
    returns (saved: bool, r: Restored)
    requires InRange(s) && |readable| == |s.queues| <= maxQueues
    modifies buf
    ensures saved <==> Saves(s, readable, deviceOk, buf.Length)
    ensures saved ==> (r.Accepted? <==> s.device.Some?)
    ensures saved && r.Accepted? ==> CameBack(s, maxQueues, r)
  {
    var size;
    saved, size := Save(s, readable, deviceOk, buf);
    r := Refused;
    if saved {
      WritesInsideExactlyIf(s, maxQueues);
      RestoreUndoesSave(s);
      r := Restore(buf, maxQueues, true, FieldsOf(s));
      if r.Accepted? {
        AllCameBack(s, maxQueues, r);
      }
    }
  }
}
