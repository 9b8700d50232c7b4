/** Commands and descriptors of an admin queue (ctrl/snap_vq.c): where every command and every descriptor of the pools is,
    and in which order commands are completed. */
module AdminLists {
  /** A command in use: its place in the pool, the how-manieth it was to arrive, whether its completion waits for earlier
      ones, and its descriptors from the pool. */
  datatype Cmd = Cmd(slot: nat, arrival: nat, pending: bool, descs: seq<nat>)

  function RemoveAt<T>(s: seq<T>, k: nat): (r: seq<T>)
    requires k < |s|
    ensures |r| == |s| - 1
    ensures forall i :: 0 <= i < |r| ==> r[i] == s[if i < k then i else i + 1]
  {
    s[..k] + s[k + 1..]
  }

  /** How often `x` is among the first `n` of a list. */
  ghost function CountTo(s: seq<nat>, n: nat, x: nat): nat
    requires n <= |s|
  {
    if n == 0 then 0 else CountTo(s, n - 1, x) + if s[n - 1] == x then 1 else 0
  }

  ghost function Count(s: seq<nat>, x: nat): nat {
    CountTo(s, |s|, x)
  }

  lemma {:induction false} CountPrefix(a: seq<nat>, b: seq<nat>, n: nat, x: nat)
    requires n <= |a|
    ensures CountTo(a + b, n, x) == CountTo(a, n, x)
  {
    if n > 0 {
      CountPrefix(a, b, n - 1, x);
    }
  }

  lemma {:induction false} CountJoin(a: seq<nat>, b: seq<nat>, n: nat, x: nat)
    requires n <= |b|
    ensures CountTo(a + b, |a| + n, x) == Count(a, x) + CountTo(b, n, x)
  {
    if n == 0 {
      CountPrefix(a, b, |a|, x);
    } else {
      CountJoin(a, b, n - 1, x);
    }
  }

  lemma CountOne(y: nat, x: nat)
    ensures Count([y], x) == if x == y then 1 else 0
  {
    assert CountTo([y], 0, x) == 0;
  }

  /** The first element of a list, and the others. */
  lemma CountFirst(s: seq<nat>, x: nat)
    requires s != []
    ensures Count(s, x) == Count(s[1..], x) + if s[0] == x then 1 else 0
  {
    CountJoin([s[0]], s[1..], |s| - 1, x);
    CountOne(s[0], x);
    assert s == [s[0]] + s[1..];
  }

  lemma CountSplit(s: seq<nat>, n: nat, x: nat)
    requires n <= |s|
    ensures Count(s, x) == Count(s[..n], x) + Count(s[n..], x)
  {
    CountJoin(s[..n], s[n..], |s| - n, x);
    assert s == s[..n] + s[n..];
  }

  // ---------------------------------------------------------------- lists of commands

  datatype What = Slot | Arrival | Desc

  /** How often `x` is a slot, an arrival number or a descriptor of the command. */
  ghost function Uses(c: Cmd, w: What, x: nat): nat {
    match w
    case Slot => if c.slot == x then 1 else 0
    case Arrival => if c.arrival == x then 1 else 0
    case Desc => Count(c.descs, x)
  }

  ghost function UsesTo(cs: seq<Cmd>, n: nat, w: What, x: nat): nat
    requires n <= |cs|
  {
    if n == 0 then 0 else UsesTo(cs, n - 1, w, x) + Uses(cs[n - 1], w, x)
  }

  ghost function AllUses(cs: seq<Cmd>, w: What, x: nat): nat {
    UsesTo(cs, |cs|, w, x)
  }

  lemma {:induction false} SamePrefix(a: seq<Cmd>, b: seq<Cmd>, n: nat, w: What, x: nat)
    requires n <= |a| && n <= |b| && forall i :: 0 <= i < n ==> a[i] == b[i]
    ensures UsesTo(a, n, w, x) == UsesTo(b, n, w, x)
  {
    if n > 0 {
      SamePrefix(a, b, n - 1, w, x);
    }
  }

  /** A list with a command put in front. */
  lemma {:induction false} PutInFront(cs: seq<Cmd>, c: Cmd, n: nat, w: What, x: nat)
    requires n <= |cs|
    ensures UsesTo([c] + cs, n + 1, w, x) == UsesTo(cs, n, w, x) + Uses(c, w, x)
  {
    var all := [c] + cs;
    if n == 0 {
      assert UsesTo(all, 1, w, x) == UsesTo(all, 0, w, x) + Uses(all[0], w, x);
    } else {
      PutInFront(cs, c, n - 1, w, x);
      assert all[n] == cs[n - 1];
    }
  }

  /** A list with a command taken out. */
  lemma {:induction false} TakenOut(cs: seq<Cmd>, k: nat, n: nat, w: What, x: nat)
    requires k < n <= |cs|
    ensures UsesTo(cs, n, w, x) == UsesTo(RemoveAt(cs, k), n - 1, w, x) + Uses(cs[k], w, x)
  {
    if k == n - 1 {
      SamePrefix(cs, RemoveAt(cs, k), k, w, x);
    } else {
      TakenOut(cs, k, n - 1, w, x);
    }
  }

  /** A list with a command changed. */
  lemma Changed(cs: seq<Cmd>, k: nat, c: Cmd, w: What, x: nat)
    requires k < |cs|
    ensures AllUses(cs[k := c], w, x) + Uses(cs[k], w, x) == AllUses(cs, w, x) + Uses(c, w, x)
  {
    TakenOut(cs, k, |cs|, w, x);
    TakenOut(cs[k := c], k, |cs|, w, x);
    assert RemoveAt(cs[k := c], k) == RemoveAt(cs, k);
  }

  /** How many descriptors the first `n` commands of a list have. */
  ghost function HeldTo(cs: seq<Cmd>, n: nat): nat
    requires n <= |cs|
  {
    if n == 0 then 0 else HeldTo(cs, n - 1) + |cs[n - 1].descs|
  }

  ghost function Held(cs: seq<Cmd>): nat {
    HeldTo(cs, |cs|)
  }

  lemma {:induction false} HeldPrefix(a: seq<Cmd>, b: seq<Cmd>, n: nat)
    requires n <= |a| && n <= |b| && forall i :: 0 <= i < n ==> a[i] == b[i]
    ensures HeldTo(a, n) == HeldTo(b, n)
  {
    if n > 0 {
      HeldPrefix(a, b, n - 1);
    }
  }

  lemma {:induction false} HeldInFront(cs: seq<Cmd>, c: Cmd, n: nat)
    requires n <= |cs|
    ensures HeldTo([c] + cs, n + 1) == HeldTo(cs, n) + |c.descs|
  {
    var all := [c] + cs;
    if n == 0 {
      assert HeldTo(all, 1) == HeldTo(all, 0) + |all[0].descs|;
    } else {
      HeldInFront(cs, c, n - 1);
      assert all[n] == cs[n - 1];
    }
  }

  lemma {:induction false} HeldWithout(cs: seq<Cmd>, k: nat, n: nat)
    requires k < n <= |cs|
    ensures HeldTo(cs, n) == HeldTo(RemoveAt(cs, k), n - 1) + |cs[k].descs|
  {
    if k == n - 1 {
      HeldPrefix(cs, RemoveAt(cs, k), k);
    } else {
      HeldWithout(cs, k, n - 1);
    }
  }

  lemma HeldChanged(cs: seq<Cmd>, k: nat, c: Cmd)
    requires k < |cs|
    ensures Held(cs[k := c]) + |cs[k].descs| == Held(cs) + |c.descs|
  {
    HeldWithout(cs, k, |cs|);
    HeldWithout(cs[k := c], k, |cs|);
    assert RemoveAt(cs[k := c], k) == RemoveAt(cs, k);
  }
}
