/** Little-endian numbers and packed records, as in ctrl/snap_virtio_state.h. */
module Records {
  type byte = x: nat | x < 256

  /** The numbers that fit into `n` bytes are those below this. */
  function Cap(n: nat): (r: nat)
    ensures r > 0
  {
    if n == 0 then 1 else 256 * Cap(n - 1)
  }

  /** `v` in `n` bytes, the lowest first; higher bytes are cut off. */
  function Le(v: nat, n: nat): (r: seq<byte>)
    ensures |r| == n
  {
    if n == 0 then [] else [v % 256] + Le(v / 256, n - 1)
  }

  function Number(s: seq<byte>): nat {
    if s == [] then 0 else s[0] + 256 * Number(s[1..])
  }

  /** Reading undoes writing exactly for the numbers that fit. */
  lemma {:induction false} NumberOfLe(v: nat, n: nat)
    ensures Number(Le(v, n)) == v <==> v < Cap(n)
    ensures Number(Le(v, n)) < Cap(n)
  {
    if n > 0 {
      NumberOfLe(v / 256, n - 1);
      assert Le(v, n)[1..] == Le(v / 256, n - 1);
    }
  }

  /** Where member `i` of a record starts whose members have these widths. */
  function Offset(widths: seq<nat>, i: nat): nat
    requires i <= |widths|
  {
    if i == 0 then 0 else Offset(widths, i - 1) + widths[i - 1]
  }

  function Size(widths: seq<nat>): nat {
    Offset(widths, |widths|)
  }

  lemma {:induction false} OffsetGrows(widths: seq<nat>, i: nat, j: nat)
    requires i <= j <= |widths|
    ensures Offset(widths, i) <= Offset(widths, j)
  {
    if i < j {
      OffsetGrows(widths, i, j - 1);
    }
  }

  ghost predicate Fit(widths: seq<nat>, values: seq<nat>) {
    |widths| == |values| && forall i :: 0 <= i < |widths| ==> values[i] < Cap(widths[i])
  }

  /** The first `n` members of a record. */
  function PackTo(widths: seq<nat>, values: seq<nat>, n: nat): (r: seq<byte>)
    requires n <= |widths| == |values|
    ensures |r| == Offset(widths, n)
  {
    if n == 0 then [] else PackTo(widths, values, n - 1) + Le(values[n - 1], widths[n - 1])
  }

  function Pack(widths: seq<nat>, values: seq<nat>): (r: seq<byte>)
    requires |widths| == |values|
    ensures |r| == Size(widths)
  {
    PackTo(widths, values, |widths|)
  }

  /** Member `i` of a record at the beginning of `s`. */
  function Member(widths: seq<nat>, s: seq<byte>, i: nat): nat
    requires i < |widths| && Size(widths) <= |s|
  {
    OffsetGrows(widths, i + 1, |widths|);
    Number(s[Offset(widths, i)..Offset(widths, i + 1)])
  }

  lemma {:induction false} PackedAt(widths: seq<nat>, values: seq<nat>, n: nat, i: nat)
    requires |widths| == |values| && i < n <= |widths|
    ensures Offset(widths, i) <= Offset(widths, i + 1) <= Offset(widths, n)
    ensures PackTo(widths, values, n)[Offset(widths, i)..Offset(widths, i + 1)] == Le(values[i], widths[i])
  {
    OffsetGrows(widths, i + 1, n);
    if i < n - 1 {
      PackedAt(widths, values, n - 1, i);
    }
  }

  /** Every member of a record is read back as it was written. */
  lemma MemberOfPacked(widths: seq<nat>, values: seq<nat>, i: nat)
    requires Fit(widths, values) && i < |widths|
    ensures Member(widths, Pack(widths, values), i) == values[i]
  {
    PackedAt(widths, values, |widths|, i);
    NumberOfLe(values[i], widths[i]);
  }
}
