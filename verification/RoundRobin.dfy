/** The choice among the rings of a namespace (dpa/dpa_nvme_mp.c): weighted round robin over the rings that are
    attached. */
module RoundRobin {
  import opened Arith

  /** The scheduler's state: the ring in use and how often it may still be used in this turn. */
  datatype Turn = Turn(active: nat, credits: nat)

  /** The next ring index, cyclically. */
  function Step(i: nat, n: nat): (r: nat)
    requires i < n
    ensures r < n
  {
    if i + 1 < n then i + 1 else 0
  }

  /** The weights of the first `i` rings added up. */
  function Prefix(w: seq<nat>, i: nat): nat
    requires i <= |w|
  {
    if i == 0 then 0 else Prefix(w, i - 1) + w[i - 1]
  }

  function Total(w: seq<nat>): nat {
    Prefix(w, |w|)
  }

  /** Some ring has a weight. */
  ghost predicate Weighted(w: seq<nat>) {
    exists j :: 0 <= j < |w| && w[j] > 0
  }

  /** How many steps from ring `i` to the first ring after it, cyclically, that has a weight; at most once around. */
  ghost predicate NextAfter(w: seq<nat>, i: nat, j: nat) {
    && i < |w| && j < |w| && w[j] > 0
    && if i < j then forall k :: i < k < j ==> w[k] == 0
       else (forall k :: i < k < |w| ==> w[k] == 0) && (forall k :: 0 <= k < j ==> w[k] == 0)
  }

  /** The search for the next ring with a weight. It ends if and only if there is one (see `SearchNeedsWeight`). */
  method NextRing(w: seq<nat>, active: nat) returns (next: nat)
    requires active < |w| && Weighted(w)
    ensures NextAfter(w, active, next)
  {
    ghost var goal := FirstAfter(w, active);
    next := Step(active, |w|);
    while w[next] == 0
      invariant next < |w| && Ahead(w, active, next, goal)
      decreases if next <= goal then goal - next else goal + |w| - next
    {
      next := Step(next, |w|);
    }
  }

  /** `next` lies strictly after `active` and not after `goal`, going around, with only weightless rings in between. */
  ghost predicate Ahead(w: seq<nat>, active: nat, next: nat, goal: nat) {
    && active < |w| && next < |w| && NextAfter(w, active, goal)
    && if active < goal then active < next <= goal else active < next || next <= goal
  }

  ghost function FirstAfter(w: seq<nat>, active: nat): (goal: nat)
    requires active < |w| && Weighted(w)
    ensures NextAfter(w, active, goal)
  {
    if exists j :: active < j < |w| && w[j] > 0 then
      LeastWeighted(w, active + 1)
    else
      LeastWeighted(w, 0)
  }

  ghost function LeastWeighted(w: seq<nat>, from: nat): (j: nat)
    requires exists j :: from <= j < |w| && w[j] > 0
    ensures from <= j < |w| && w[j] > 0 && forall k :: from <= k < j ==> w[k] == 0
    decreases |w| - from
  {
    if w[from] > 0 then from else LeastWeighted(w, from + 1)
  }

  /** Where the search stands after `k` steps. */
  function Walk(active: nat, k: nat, n: nat): (r: nat)
    requires active < n
    ensures r < n
  {
    if k == 0 then active else Step(Walk(active, k - 1, n), n)
  }

  /** Some step of the search finds a ring with a weight if and only if there is one; if every ring is weightless the
      search goes on for ever. */
  lemma SearchNeedsWeight(w: seq<nat>, active: nat)
    requires active < |w|
    ensures (exists k: nat :: k > 0 && w[Walk(active, k, |w|)] > 0) <==> Weighted(w)
  {
    if Weighted(w) {
      var j :| 0 <= j < |w| && w[j] > 0;
      var k := if active < j then j - active else j + |w| - active;
      WalkTo(active, k, |w|);
      assert Walk(active, k, |w|) == j;
    }
  }

  lemma {:induction false} WalkTo(active: nat, k: nat, n: nat)
    requires active < n && k <= n
    ensures Walk(active, k, n) == if active + k < n then active + k else active + k - n
  {
    if k > 0 {
      WalkTo(active, k - 1, n);
    }
  }

  // ---------------------------------------------------------------- fairness

  /** A state from which something can be sent. */
  ghost predicate Ready(w: seq<nat>, t: Turn) {
    t.active < |w| && Weighted(w)
  }

  /** A state in which the ring in use has no more credits than its weight. */
  ghost predicate Proper(w: seq<nat>, t: Turn) {
    Ready(w, t) && t.credits <= w[t.active]
  }

  /** The state after one send; the send uses the ring that is active then. */
  ghost function Sent(w: seq<nat>, t: Turn): (r: Turn)
    requires Ready(w, t)
    ensures Ready(w, r) && (t.credits <= w[t.active] ==> Proper(w, r))
    ensures t.credits == 0 ==> w[r.active] > 0
    ensures t.credits > 0 ==> r == Turn(t.active, t.credits - 1)
  {
    if t.credits == 0 then
      var next := FirstAfter(w, t.active);
      Turn(next, w[next] - 1)
    else Turn(t.active, t.credits - 1)
  }

  lemma NextUnique(w: seq<nat>, i: nat, j: nat, k: nat)
    requires NextAfter(w, i, j) && NextAfter(w, i, k)
    ensures j == k
  {
  }

  /** Takes a turn: when the credits are used up, the next ring gets as many as its weight. */
  method TakeTurn(w: seq<nat>, t: Turn) returns (r: Turn)
    requires Ready(w, t)
    ensures r == Sent(w, t)
  {
    r := t;
    if t.credits == 0 {
      var next := NextRing(w, t.active);
      NextUnique(w, t.active, next, FirstAfter(w, t.active));
      r := Turn(next, w[next]);
    }
    r := Turn(r.active, r.credits - 1);
  }

  /** The rings used by `k` sends in a row. */
  ghost function Used(w: seq<nat>, t: Turn, k: nat): (r: seq<nat>)
    requires Ready(w, t)
    ensures |r| == k
    decreases k
  {
    if k == 0 then [] else [Sent(w, t).active] + Used(w, Sent(w, t), k - 1)
  }

  ghost function Later(w: seq<nat>, t: Turn, k: nat): (r: Turn)
    requires Ready(w, t)
    ensures Ready(w, r) && (t.credits <= w[t.active] ==> Proper(w, r))
    decreases k
  {
    if k == 0 then t else Later(w, Sent(w, t), k - 1)
  }

  lemma OneSend(w: seq<nat>, t: Turn)
    requires Ready(w, t)
    ensures Used(w, t, 1) == [Sent(w, t).active] && Later(w, t, 1) == Sent(w, t)
  {
    assert Used(w, t, 1) == [Sent(w, t).active] + Used(w, Sent(w, t), 0);
  }

  /** One full round: every ring as often as its weight, in ring order. */
  ghost function Round(w: seq<nat>): (r: seq<nat>)
    ensures |r| == Total(w)
  {
    RoundTo(w, |w|)
  }

  ghost function RoundTo(w: seq<nat>, i: nat): (r: seq<nat>)
    requires i <= |w|
    ensures |r| == Prefix(w, i)
  {
    if i == 0 then [] else RoundTo(w, i - 1) + seq(w[i - 1], _ => i - 1)
  }

  lemma {:induction false} RoundPrefix(w: seq<nat>, i: nat, j: nat)
    requires i <= j <= |w|
    ensures Prefix(w, i) <= Prefix(w, j) && RoundTo(w, j)[..Prefix(w, i)] == RoundTo(w, i)
  {
    if i < j {
      RoundPrefix(w, i, j - 1);
      assert RoundTo(w, j)[..Prefix(w, j - 1)] == RoundTo(w, j - 1);
      assert RoundTo(w, j)[..Prefix(w, i)] == RoundTo(w, j - 1)[..Prefix(w, i)];
    } else {
      assert RoundTo(w, j)[..Prefix(w, i)] == RoundTo(w, i);
    }
  }

  /** In a round, the places from `Prefix(w, i)` up to `Prefix(w, i + 1)` belong to ring `i`. */
  lemma RoundAt(w: seq<nat>, i: nat, p: nat)
    requires i < |w| && Prefix(w, i) <= p < Prefix(w, i + 1)
    ensures Prefix(w, i + 1) <= Total(w) && Round(w)[p] == i
  {
    RoundPrefix(w, i + 1, |w|);
    assert Round(w)[p] == Round(w)[..Prefix(w, i + 1)][p] == RoundTo(w, i + 1)[p];
  }

  lemma {:induction false} FlatPrefix(w: seq<nat>, i: nat, j: nat)
    requires i <= j <= |w| && forall k :: i <= k < j ==> w[k] == 0
    ensures Prefix(w, i) == Prefix(w, j)
  {
    if i < j {
      FlatPrefix(w, i, j - 1);
    }
  }

  /** The place of a state in the round: how much of the round has been used. The end of the round is its beginning. */
  ghost function Mark(w: seq<nat>, t: Turn): (p: nat)
    requires Proper(w, t)
  {
    var p := Prefix(w, t.active) + w[t.active] - t.credits;
    if p == Total(w) then 0 else p
  }

  /** When the credits are used up, the next ring stands in the round where the active one ends. */
  lemma {:induction false} NextMark(w: seq<nat>, t: Turn, next: nat)
    requires Proper(w, t) && t.credits == 0 && NextAfter(w, t.active, next)
    ensures Mark(w, t) == Prefix(w, next) && Prefix(w, next + 1) <= Total(w)
  {
    RoundPrefix(w, t.active + 1, |w|);
    RoundPrefix(w, next + 1, |w|);
    if t.active < next {
      FlatPrefix(w, t.active + 1, next);
    } else {
      FlatPrefix(w, t.active + 1, |w|);
      FlatPrefix(w, 0, next);
    }
  }

  /** One send uses the ring that the round has at the state's place and moves to the next place. */
  lemma {:induction false} SentMark(w: seq<nat>, t: Turn)
    requires Proper(w, t)
    ensures Mark(w, t) < Total(w) && Sent(w, t).active == Round(w)[Mark(w, t)]
    ensures Mark(w, Sent(w, t)) == if Mark(w, t) + 1 == Total(w) then 0 else Mark(w, t) + 1
  {
    RoundPrefix(w, t.active + 1, |w|);
    if t.credits > 0 {
      RoundAt(w, t.active, Prefix(w, t.active) + w[t.active] - t.credits);
    } else {
      var next := Sent(w, t).active;
      NextMark(w, t, next);
      RoundAt(w, next, Prefix(w, next));
    }
  }

  lemma {:induction false} UsedIsSlice(w: seq<nat>, t: Turn, k: nat)
    requires Proper(w, t) && Mark(w, t) + k <= Total(w)
    ensures Used(w, t, k) == Round(w)[Mark(w, t)..Mark(w, t) + k]
    ensures Mark(w, Later(w, t, k)) == if Mark(w, t) + k == Total(w) then 0 else Mark(w, t) + k
    decreases k
  {
    SentMark(w, t);
    if k > 0 {
      var p := Mark(w, t);
      var rest := Used(w, Sent(w, t), k - 1);
      if p + 1 == Total(w) {
        assert k == 1;
      } else {
        UsedIsSlice(w, Sent(w, t), k - 1);
      }
      assert Round(w)[p..p + k] == [Round(w)[p]] + Round(w)[p + 1..p + k];
    }
  }

  lemma {:induction false} UsedSplit(w: seq<nat>, t: Turn, a: nat, b: nat)
    requires Ready(w, t)
    ensures Used(w, t, a + b) == Used(w, t, a) + Used(w, Later(w, t, a), b)
    decreases a
  {
    if a > 0 {
      UsedSplit(w, Sent(w, t), a - 1, b);
    }
  }

  lemma {:induction false} LaterSplit(w: seq<nat>, t: Turn, a: nat, b: nat)
    requires Ready(w, t)
    ensures Later(w, t, a + b) == Later(w, Later(w, t, a), b)
    decreases a
  {
    if a > 0 {
      LaterSplit(w, Sent(w, t), a - 1, b);
    }
  }

  lemma {:induction false} RoundCounts(w: seq<nat>, i: nat, r: nat)
    requires i <= |w|
    ensures multiset(RoundTo(w, i))[r] == if r < i then w[r] else 0
  {
    if i > 0 {
      RoundCounts(w, i - 1, r);
      Copies(i - 1, w[i - 1], r);
      JoinedCounts(RoundTo(w, i - 1), seq(w[i - 1], _ => i - 1), r);
    }
  }

  lemma JoinedCounts(a: seq<nat>, b: seq<nat>, r: nat)
    ensures multiset(a + b)[r] == multiset(a)[r] + multiset(b)[r]
  {
  }

  lemma {:induction false} Copies(x: nat, n: nat, r: nat)
    ensures multiset(seq(n, _ => x))[r] == if r == x then n else 0
  {
    if n > 0 {
      Copies(x, n - 1, r);
      assert seq(n, _ => x) == seq(n - 1, _ => x) + [x];
    }
  }

  lemma Rotated(s: seq<nat>, p: nat)
    requires p <= |s|
    ensures multiset(s[p..] + s[..p]) == multiset(s)
  {
    assert s == s[..p] + s[p..];
  }

  lemma ToTheEnd(w: seq<nat>, t: Turn)
    requires Proper(w, t)
    ensures Mark(w, t) < Total(w) && Used(w, t, Total(w) - Mark(w, t)) == Round(w)[Mark(w, t)..]
    ensures Mark(w, Later(w, t, Total(w) - Mark(w, t))) == 0
  {
    SentMark(w, t);
    var p, n := Mark(w, t), Total(w);
    UsedIsSlice(w, t, n - p);
    assert Round(w)[p..p + (n - p)] == Round(w)[p..];
  }

  lemma FromTheStart(w: seq<nat>, t: Turn, k: nat)
    requires Proper(w, t) && Mark(w, t) == 0 && k <= Total(w)
    ensures Used(w, t, k) == Round(w)[..k]
  {
    UsedIsSlice(w, t, k);
  }

  /** A window of as many sends as the weights add up to uses a whole round, starting at the state's place. */
  lemma {:induction false} WindowIsRotatedRound(w: seq<nat>, t: Turn)
    requires Proper(w, t)
    ensures Mark(w, t) <= Total(w) && Used(w, t, Total(w)) == Round(w)[Mark(w, t)..] + Round(w)[..Mark(w, t)]
  {
    ToTheEnd(w, t);
    var p, n := Mark(w, t), Total(w);
    UsedSplit(w, t, n - p, p);
    FromTheStart(w, Later(w, t, n - p), p);
  }

  /** How often a ring occurs. */
  ghost function Times(s: seq<nat>, r: nat): nat {
    multiset(s)[r]
  }

  /** Fairness: whatever state the scheduler is in, the next sends, as many as the weights add up to, use every ring
      exactly as often as its weight. */
  lemma {:induction false} AnyWindowIsFair(w: seq<nat>, t: Turn, r: nat)
    requires Proper(w, t) && r < |w|
    ensures Times(Used(w, t, Total(w)), r) == w[r]
  {
    WindowIsRotatedRound(w, t);
    Rotated(Round(w), Mark(w, t));
    RoundCounts(w, |w|, r);
  }

  /** As long as there are credits, the active ring is used. */
  lemma {:induction false} CreditsFirst(w: seq<nat>, t: Turn, k: nat)
    requires Ready(w, t) && k <= t.credits
    ensures forall i :: 0 <= i < k ==> Used(w, t, k)[i] == t.active
    ensures Later(w, t, k) == Turn(t.active, t.credits - k)
    decreases k
  {
    if k > 0 {
      CreditsFirst(w, Sent(w, t), k - 1);
    }
  }

  /** With one weighted ring, which is the active one, every send uses it. */
  lemma {:induction false} OnlyOne(w: seq<nat>, t: Turn, k: nat)
    requires Ready(w, t) && forall j :: 0 <= j < |w| && j != t.active ==> w[j] == 0
    ensures forall i :: 0 <= i < k ==> Used(w, t, k)[i] == t.active
    decreases k
  {
    if k > 0 {
      assert Sent(w, t).active == t.active;
      OnlyOne(w, Sent(w, t), k - 1);
    }
  }

  lemma {:induction false} AllSame(s: seq<nat>, x: nat, r: nat)
    requires forall i :: 0 <= i < |s| ==> s[i] == x
    ensures Times(s, r) == if r == x then |s| else 0
  {
    if s != [] {
      var n := |s| - 1;
      AllSame(s[..n], x, r);
      assert s == s[..n] + [s[n]];
      JoinedCounts(s[..n], [s[n]], r);
    }
  }

  lemma {:induction false} PrefixBounds(w: seq<nat>, i: nat, j: nat)
    requires i <= |w| && j < i
    ensures w[j] <= Prefix(w, i)
    ensures w[j] == Prefix(w, i) ==> forall k :: 0 <= k < i && k != j ==> w[k] == 0
  {
    if j == i - 1 {
      if Prefix(w, i - 1) == 0 {
        NoWeight(w, i - 1);
      }
    } else {
      PrefixBounds(w, i - 1, j);
    }
  }

  lemma {:induction false} NoWeight(w: seq<nat>, i: nat)
    requires i <= |w| && Prefix(w, i) == 0
    ensures forall k :: 0 <= k < i ==> w[k] == 0
  {
    if i > 0 {
      NoWeight(w, i - 1);
    }
  }

  /** The next sends, as many as the weights add up to, use every ring exactly as often as its weight. */
  ghost predicate WindowFair(w: seq<nat>, t: Turn)
    requires Ready(w, t)
  {
    forall r: nat :: r < |w| ==> Times(Used(w, t, Total(w)), r) == w[r]
  }

  /** The next window is fair if and only if the active ring has no more credits than its weight, or is the only ring
      with a weight. */
  lemma {:induction false} FairExactlyIfProper(w: seq<nat>, t: Turn)
    requires Ready(w, t)
    ensures WindowFair(w, t) <==> t.credits <= w[t.active] || w[t.active] == Total(w)
  {
    var used, a := Used(w, t, Total(w)), t.active;
    PrefixBounds(w, |w|, a);
    if t.credits <= w[a] {
      forall r: nat | r < |w| ensures Times(used, r) == w[r] {
        AnyWindowIsFair(w, t, r);
      }
    } else if w[a] == Total(w) {
      OnlyOne(w, t, Total(w));
      forall r: nat | r < |w| ensures Times(used, r) == w[r] {
        AllSame(used, a, r);
      }
    } else {
      var k := if t.credits < Total(w) then t.credits else Total(w);
      CreditsFirst(w, t, k);
      UsedSplit(w, t, k, Total(w) - k);
      AllSame(Used(w, t, k), a, a);
      JoinedCounts(Used(w, t, k), Used(w, Later(w, t, k), Total(w) - k), a);
      assert Times(used, a) > w[a];
    }
  }

  /** Whatever the state, once the credits at hand are used up every window is fair. */
  lemma {:induction false} FairInTheEnd(w: seq<nat>, t: Turn, k: nat)
    requires Ready(w, t) && k >= t.credits
    ensures WindowFair(w, Later(w, t, k))
  {
    CreditsFirst(w, t, t.credits);
    LaterSplit(w, t, t.credits, k - t.credits);
    FairExactlyIfProper(w, Later(w, t, k));
  }
}
