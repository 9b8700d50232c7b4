/** The saved state of a controller: a count and a list of fields, each with a type, a length and data
    (ctrl/snap_virtio_state.h, ctrl/snap_virtio_common_ctrl.c). */
module StateFormat {
  import opened Records

  datatype Option<T> = None | Some(value: T)

  datatype Field = Field(kind: nat, data: seq<byte>)

  const COMMON_WIDTHS: seq<nat> := [4, 8, 4, 8, 2, 2, 2, 1, 1]
  const QUEUE_WIDTHS: seq<nat> := [2, 2, 2, 2, 2, 8, 8, 8, 2, 2]
  const RUN_WIDTHS: seq<nat> := [2, 2, 2]

  const COMMON: nat := 0
  const DEVICE: nat := 1
  const QUEUE: nat := 2
  const RUN: nat := 3

  /** The registers common to all devices, the configuration of one queue, and how far a queue has come. */
  datatype CommonCfg = CommonCfg(deviceSelect: nat, deviceFeature: nat, driverSelect: nat, driverFeature: nat,
                                 msixConfig: nat, numQueues: nat, queueSelect: nat, status: nat, generation: nat)
  datatype QueueCfg = QueueCfg(size: nat, msix: nat, enable: nat, notifyOff: nat, desc: nat, driver: nat, device: nat)
  datatype Progress = Progress(avail: nat, used: nat)

  /** What is saved. A queue without an implementation has no progress; `device` is absent if the device type keeps no
      state of its own. */
  datatype Saved = Saved(common: CommonCfg, queues: seq<QueueCfg>, progress: seq<Option<Progress>>,
                         device: Option<seq<byte>>)

  function CommonValues(c: CommonCfg): (r: seq<nat>)
    ensures |r| == |COMMON_WIDTHS|
  {
    [c.deviceSelect, c.deviceFeature, c.driverSelect, c.driverFeature, c.msixConfig, c.numQueues, c.queueSelect, c.status,
     c.generation]
  }

  function QueueValues(i: nat, q: QueueCfg): (r: seq<nat>)
    ensures |r| == |QUEUE_WIDTHS| && r[0] == i
  {
    [i, q.size, q.msix, q.enable, q.notifyOff, q.desc, q.driver, q.device, 0, 0]
  }

  function RunValues(i: nat, p: Progress): (r: seq<nat>)
    ensures |r| == |RUN_WIDTHS| && r[0] == i
  {
    [i, p.avail, p.used]
  }

  lemma Sizes()
    ensures Size(COMMON_WIDTHS) == 32 && Size(QUEUE_WIDTHS) == 38 && Size(RUN_WIDTHS) == 6
    ensures Cap(2) == 0x1_0000 && Cap(4) == 0x1_0000_0000
  {
    var c, q, r := COMMON_WIDTHS, QUEUE_WIDTHS, RUN_WIDTHS;
    assert Offset(c, 2) == 12;
    assert Offset(c, 4) == 24;
    assert Offset(c, 6) == 28;
    assert Offset(c, 8) == 31;
    assert Offset(q, 2) == 4;
    assert Offset(q, 4) == 8;
    assert Offset(q, 6) == 18;
    assert Offset(q, 8) == 34;
    assert Offset(q, 9) == 36;
    assert Offset(r, 2) == 4;
  }

  // ---------------------------------------------------------------- fields in a buffer

  function Encode(f: Field): (r: seq<byte>)
    ensures |r| == 8 + |f.data|
  {
    Le(f.kind, 4) + Le(|f.data|, 4) + f.data
  }

  /** How many bytes the first `n` fields take. */
  function LenTo(fs: seq<Field>, n: nat): nat
    requires n <= |fs|
  {
    if n == 0 then 0 else LenTo(fs, n - 1) + 8 + |fs[n - 1].data|
  }

  function Len(fs: seq<Field>): nat {
    LenTo(fs, |fs|)
  }

  predicate FieldFits(f: Field) {
    f.kind < Cap(4) && |f.data| < Cap(4)
  }

  /** A field is read back as it was written. */
  lemma FieldReadBack(f: Field, s: seq<byte>)
    requires FieldFits(f) && s == Encode(f)
    ensures Number(s[..4]) == f.kind && Number(s[4..8]) == |f.data| && s[8..] == f.data
  {
    NumberOfLe(f.kind, 4);
    NumberOfLe(|f.data|, 4);
    assert s[..4] == Le(f.kind, 4) && s[4..8] == Le(|f.data|, 4);
  }

  // ---------------------------------------------------------------- what a field is about

  datatype Key = CommonKey | DeviceKey | QueueKey(i: nat) | RunKey(i: nat) | NoKey

  /** The index that a queue field starts with. */
  function IndexOf(data: seq<byte>): nat {
    if |data| < 2 then 0 else Number(data[..2])
  }

  function KeyOf(f: Field): Key {
    if f.kind == COMMON then CommonKey
    else if f.kind == DEVICE then DeviceKey
    else if f.kind == QUEUE then QueueKey(IndexOf(f.data))
    else if f.kind == RUN then RunKey(IndexOf(f.data))
    else NoKey
  }

  /** The data of the last of the first `n` fields that has this key. */
  function Lookup(fs: seq<Field>, n: nat, key: Key): Option<seq<byte>>
    requires n <= |fs|
  {
    if n == 0 then None
    else if KeyOf(fs[n - 1]) == key then Some(fs[n - 1].data)
    else Lookup(fs, n - 1, key)
  }

  /** No two fields are about the same thing. */
  ghost predicate Distinct(fs: seq<Field>) {
    forall i, j :: 0 <= i < j < |fs| && KeyOf(fs[i]) != NoKey ==> KeyOf(fs[i]) != KeyOf(fs[j])
  }

  lemma {:induction false} LookupFinds(fs: seq<Field>, n: nat, k: nat)
    requires Distinct(fs) && k < n <= |fs| && KeyOf(fs[k]) != NoKey
    ensures Lookup(fs, n, KeyOf(fs[k])) == Some(fs[k].data)
  {
    if k < n - 1 {
      LookupFinds(fs, n - 1, k);
    }
  }

  lemma {:induction false} LookupSome(fs: seq<Field>, n: nat, key: Key) returns (k: nat)
    requires n <= |fs| && Lookup(fs, n, key).Some?
    ensures k < n && KeyOf(fs[k]) == key && Lookup(fs, n, key) == Some(fs[k].data)
  {
    k := n - 1;
    if KeyOf(fs[n - 1]) != key {
      k := LookupSome(fs, n - 1, key);
    }
  }

  /** What is found does not depend on the order of the fields, nor on fields of unknown types. */
  lemma OrderDoesNotMatter(a: seq<Field>, b: seq<Field>, key: Key)
    requires Distinct(a) && Distinct(b) && key != NoKey
    requires forall f :: KeyOf(f) != NoKey ==> (f in a <==> f in b)
    ensures Lookup(a, |a|, key) == Lookup(b, |b|, key)
  {
    FoundIsFound(a, b, key);
    FoundIsFound(b, a, key);
  }

  lemma FoundIsFound(a: seq<Field>, b: seq<Field>, key: Key)
    requires Distinct(b) && key != NoKey && forall f :: KeyOf(f) != NoKey && f in a ==> f in b
    ensures Lookup(a, |a|, key).Some? ==> Lookup(b, |b|, key) == Lookup(a, |a|, key)
  {
    if Lookup(a, |a|, key).Some? {
      var k := LookupSome(a, |a|, key);
      assert a[k] in b;
      var j :| 0 <= j < |b| && b[j] == a[k];
      LookupFinds(b, |b|, j);
    }
  }

  // ---------------------------------------------------------------- the fields of a controller

  function CommonField(c: CommonCfg): Field {
    Field(COMMON, Pack(COMMON_WIDTHS, CommonValues(c)))
  }

  function QueueField(i: nat, q: QueueCfg): Field {
    Field(QUEUE, Pack(QUEUE_WIDTHS, QueueValues(i, q)))
  }

  function RunField(i: nat, p: Progress): Field {
    Field(RUN, Pack(RUN_WIDTHS, RunValues(i, p)))
  }

  /** The values fit the widths of their members, there are no more queues than an index can name, and the device state
      is below 4 GiB. */
  ghost predicate InRange(s: Saved) {
    && |s.progress| == |s.queues| <= Cap(2)
    && Fit(COMMON_WIDTHS, CommonValues(s.common))
    && (forall i :: 0 <= i < |s.queues| ==> Fit(QUEUE_WIDTHS, QueueValues(i, s.queues[i])))
    && (forall i :: 0 <= i < |s.queues| && s.progress[i].Some? ==> Fit(RUN_WIDTHS, RunValues(i, s.progress[i].value)))
    && (s.device.Some? ==> |s.device.value| < Cap(4))
  }

  /** Progress is saved for the enabled queues that have it. */
  predicate Runs(s: Saved, i: nat)
    requires i < |s.queues| == |s.progress|
  {
    s.queues[i].enable != 0 && s.progress[i].Some?
  }

  /** The fields of the first `n` queues. */
  function QueueFields(s: Saved, n: nat): seq<Field>
    requires n <= |s.queues| == |s.progress|
  {
    if n == 0 then []
    else
      QueueFields(s, n - 1) + [QueueField(n - 1, s.queues[n - 1])]
      + if Runs(s, n - 1) then [RunField(n - 1, s.progress[n - 1].value)] else []
  }

  function FieldsOf(s: Saved): seq<Field>
    requires |s.queues| == |s.progress|
  {
    [CommonField(s.common)] + QueueFields(s, |s.queues|)
    + if s.device.Some? then [Field(DEVICE, s.device.value)] else []
  }

  /** The reported size: room for progress is counted for every queue. */
  function ReportedSize(s: Saved): nat {
    4 + (8 + 32) + |s.queues| * ((8 + 38) + (8 + 6)) + if s.device.Some? then 8 + |s.device.value| else 0
  }

  // ---------------------------------------------------------------- reading back

  /** The records as they are read; what no field tells of is zero. */
  function ReadCommon(data: Option<seq<byte>>): CommonCfg {
    if data.None? || |data.value| < Size(COMMON_WIDTHS) then CommonCfg(0, 0, 0, 0, 0, 0, 0, 0, 0)
    else
      var w, d := COMMON_WIDTHS, data.value;
      CommonCfg(Member(w, d, 0), Member(w, d, 1), Member(w, d, 2), Member(w, d, 3), Member(w, d, 4), Member(w, d, 5),
                Member(w, d, 6), Member(w, d, 7), Member(w, d, 8))
  }

  function ReadQueue(data: Option<seq<byte>>): QueueCfg {
    if data.None? || |data.value| < Size(QUEUE_WIDTHS) then QueueCfg(0, 0, 0, 0, 0, 0, 0)
    else
      var w, d := QUEUE_WIDTHS, data.value;
      QueueCfg(Member(w, d, 1), Member(w, d, 2), Member(w, d, 3), Member(w, d, 4), Member(w, d, 5), Member(w, d, 6),
               Member(w, d, 7))
  }

  function ReadProgress(data: Option<seq<byte>>): Progress {
    if data.None? || |data.value| < Size(RUN_WIDTHS) then Progress(0, 0)
    else
      Progress(Member(RUN_WIDTHS, data.value, 1), Member(RUN_WIDTHS, data.value, 2))
  }

  lemma MembersReadBack(widths: seq<nat>, values: seq<nat>)
    requires Fit(widths, values)
    ensures forall i :: 0 <= i < |widths| ==> Member(widths, Pack(widths, values), i) == values[i]
  {
    forall i | 0 <= i < |widths| ensures Member(widths, Pack(widths, values), i) == values[i] {
      MemberOfPacked(widths, values, i);
    }
  }

  lemma CommonReadBack(c: CommonCfg)
    requires Fit(COMMON_WIDTHS, CommonValues(c))
    ensures ReadCommon(Some(CommonField(c).data)) == c
  {
    MembersReadBack(COMMON_WIDTHS, CommonValues(c));
  }

  lemma QueueReadBack(i: nat, q: QueueCfg)
    requires Fit(QUEUE_WIDTHS, QueueValues(i, q))
    ensures ReadQueue(Some(QueueField(i, q).data)) == q
  {
    MembersReadBack(QUEUE_WIDTHS, QueueValues(i, q));
  }

  lemma QueueFieldKey(i: nat, q: QueueCfg)
    requires Fit(QUEUE_WIDTHS, QueueValues(i, q))
    ensures KeyOf(QueueField(i, q)) == QueueKey(i)
  {
    MemberOfPacked(QUEUE_WIDTHS, QueueValues(i, q), 0);
  }

  lemma ProgressReadBack(i: nat, p: Progress)
    requires Fit(RUN_WIDTHS, RunValues(i, p))
    ensures ReadProgress(Some(RunField(i, p).data)) == p
  {
    MembersReadBack(RUN_WIDTHS, RunValues(i, p));
  }

  lemma RunFieldKey(i: nat, p: Progress)
    requires Fit(RUN_WIDTHS, RunValues(i, p))
    ensures KeyOf(RunField(i, p)) == RunKey(i)
  {
    MemberOfPacked(RUN_WIDTHS, RunValues(i, p), 0);
  }

  lemma {:induction false} LookupPrefix(a: seq<Field>, b: seq<Field>, n: nat, key: Key)
    requires n <= |a|
    ensures Lookup(a + b, n, key) == Lookup(a, n, key)
  {
    if n > 0 {
      LookupPrefix(a, b, n - 1, key);
    }
  }

  /** Looking through two lists joined: the later one first. */
  lemma {:induction false} LookupJoin(a: seq<Field>, b: seq<Field>, n: nat, key: Key)
    requires n <= |b|
    ensures Lookup(a + b, |a| + n, key) == if Lookup(b, n, key).Some? then Lookup(b, n, key) else Lookup(a, |a|, key)
  {
    if n == 0 {
      LookupPrefix(a, b, |a|, key);
    } else {
      LookupJoin(a, b, n - 1, key);
    }
  }

  /** All fields of a list looked through. */
  function Find(fs: seq<Field>, key: Key): Option<seq<byte>> {
    Lookup(fs, |fs|, key)
  }

  lemma FindJoin(a: seq<Field>, b: seq<Field>, key: Key)
    ensures Find(a + b, key) == if Find(b, key).Some? then Find(b, key) else Find(a, key)
  {
    LookupJoin(a, b, |b|, key);
  }

  lemma FindOne(f: Field, key: Key)
    ensures Find([f], key) == if KeyOf(f) == key then Some(f.data) else None
  {
    assert Lookup([f], 0, key) == None;
  }

  /** What is found about a key among the fields of the first `n` queues. */
  function QueueData(s: Saved, n: nat, key: Key): Option<seq<byte>>
    requires n <= |s.queues| == |s.progress|
  {
    match key
    case QueueKey(i) => if i < n then Some(QueueField(i, s.queues[i]).data) else None
    case RunKey(i) => if i < n && Runs(s, i) then Some(RunField(i, s.progress[i].value).data) else None
    case _ => None
  }

  lemma {:induction false} FindQueue(s: Saved, n: nat, key: Key)
    requires InRange(s) && n <= |s.queues| && key != NoKey
    ensures Find(QueueFields(s, n), key) == QueueData(s, n, key)
  {
    if n > 0 {
      var k := n - 1;
      var f := QueueField(k, s.queues[k]);
      var g := if Runs(s, k) then [RunField(k, s.progress[k].value)] else [];
      FindQueue(s, k, key);
      QueueFieldKey(k, s.queues[k]);
      if Runs(s, k) {
        RunFieldKey(k, s.progress[k].value);
      }
      FindStep(QueueFields(s, k), f, g, key, k);
    }
  }

  lemma FindStep(fs: seq<Field>, f: Field, g: seq<Field>, key: Key, i: nat)
    requires KeyOf(f) == QueueKey(i) && |g| <= 1 && (g != [] ==> KeyOf(g[0]) == RunKey(i))
    ensures Find(fs + [f] + g, key) ==
              if g != [] && key == RunKey(i) then Some(g[0].data)
              else if key == QueueKey(i) then Some(f.data)
              else Find(fs, key)
  {
    FindJoin(fs, [f], key);
    FindOne(f, key);
    if g == [] {
      assert fs + [f] + g == fs + [f];
    } else {
      assert g == [g[0]];
      FindJoin(fs + [f], g, key);
      FindOne(g[0], key);
    }
  }

  /** What is found about a key among all fields. */
  lemma FindSaved(s: Saved, key: Key)
    requires InRange(s) && key != NoKey
    ensures Find(FieldsOf(s), key) ==
              if key == CommonKey then Some(CommonField(s.common).data)
              else if key == DeviceKey then s.device
              else QueueData(s, |s.queues|, key)
  {
    var c, q := [CommonField(s.common)], QueueFields(s, |s.queues|);
    FindQueue(s, |s.queues|, key);
    FindJoin(c, q, key);
    FindOne(CommonField(s.common), key);
    if s.device.Some? {
      var d := Field(DEVICE, s.device.value);
      FindJoin(c + q, [d], key);
      FindOne(d, key);
    } else {
      assert c + q + [] == c + q;
    }
  }

  /** Restoring undoes saving, for every number of queues and every pattern of enabled queues: all registers and queue
      configurations come back, and the progress of the queues for which it was saved; that of the others is zero. */
  lemma RestoreUndoesSave(s: Saved)
    requires InRange(s)
    ensures Find(FieldsOf(s), CommonKey).Some? && ReadCommon(Find(FieldsOf(s), CommonKey)) == s.common
    ensures forall i :: 0 <= i < |s.queues| ==> ReadQueue(Find(FieldsOf(s), QueueKey(i))) == s.queues[i]
    ensures forall i :: 0 <= i < |s.queues| ==>
              ReadProgress(Find(FieldsOf(s), RunKey(i))) == if Runs(s, i) then s.progress[i].value else Progress(0, 0)
    ensures Find(FieldsOf(s), DeviceKey) == s.device
  {
    FindSaved(s, CommonKey);
    FindSaved(s, DeviceKey);
    CommonReadBack(s.common);
    forall i | 0 <= i < |s.queues|
      ensures ReadQueue(Find(FieldsOf(s), QueueKey(i))) == s.queues[i]
      ensures ReadProgress(Find(FieldsOf(s), RunKey(i))) == if Runs(s, i) then s.progress[i].value else Progress(0, 0)
    {
      OneQueueComesBack(s, i);
    }
  }

  lemma OneQueueComesBack(s: Saved, i: nat)
    requires InRange(s) && i < |s.queues|
    ensures ReadQueue(Find(FieldsOf(s), QueueKey(i))) == s.queues[i]
    ensures ReadProgress(Find(FieldsOf(s), RunKey(i))) == if Runs(s, i) then s.progress[i].value else Progress(0, 0)
  {
    FindSaved(s, QueueKey(i));
    FindSaved(s, RunKey(i));
    QueueReadBack(i, s.queues[i]);
    if Runs(s, i) {
      ProgressReadBack(i, s.progress[i].value);
    }
  }

  // ---------------------------------------------------------------- room

  lemma {:induction false} LenPrefix(a: seq<Field>, b: seq<Field>, n: nat)
    requires n <= |a|
    ensures LenTo(a + b, n) == LenTo(a, n)
  {
    if n > 0 {
      LenPrefix(a, b, n - 1);
    }
  }

  lemma {:induction false} LenJoin(a: seq<Field>, b: seq<Field>, n: nat)
    requires n <= |b|
    ensures LenTo(a + b, |a| + n) == Len(a) + LenTo(b, n)
  {
    if n == 0 {
      LenPrefix(a, b, |a|);
    } else {
      LenJoin(a, b, n - 1);
    }
  }

  lemma LenLast(fs: seq<Field>, f: Field)
    ensures Len(fs + [f]) == Len(fs) + 8 + |f.data|
  {
    LenPrefix(fs, [f], |fs|);
  }

  /** How many of the first `n` queues have their progress saved. */
  function Running(s: Saved, n: nat): (r: nat)
    requires n <= |s.queues| == |s.progress|
    ensures r <= n
  {
    if n == 0 then 0 else Running(s, n - 1) + if Runs(s, n - 1) then 1 else 0
  }

  lemma {:induction false} QueueBytes(s: Saved, n: nat)
    requires n <= |s.queues| == |s.progress|
    ensures Len(QueueFields(s, n)) == 46 * n + 14 * Running(s, n)
  {
    if n > 0 {
      var k := n - 1;
      var f := QueueField(k, s.queues[k]);
      QueueBytes(s, k);
      Sizes();
      LenLast(QueueFields(s, k), f);
      if Runs(s, k) {
        LenLast(QueueFields(s, k) + [f], RunField(k, s.progress[k].value));
      } else {
        assert QueueFields(s, k) + [f] + [] == QueueFields(s, k) + [f];
      }
    }
  }

  /** The bytes written: what is reported, less the room for the progress of queues that do not run. */
  lemma BytesWritten(s: Saved)
    requires |s.queues| == |s.progress|
    ensures 4 + Len(FieldsOf(s)) + 14 * (|s.queues| - Running(s, |s.queues|)) == ReportedSize(s)
  {
    var c, q := [CommonField(s.common)], QueueFields(s, |s.queues|);
    Sizes();
    QueueBytes(s, |s.queues|);
    LenJoin(c, q, |q|);
    assert LenTo(c, 1) == LenTo(c, 0) + 8 + |c[0].data|;
    if s.device.Some? {
      LenLast(c + q, Field(DEVICE, s.device.value));
    } else {
      assert c + q + [] == c + q;
    }
  }
}
