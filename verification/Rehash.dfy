/** The in-place rehash of src/khash.h as a value.

    While keys move to a new layout, old and new layout share one key array. A bucket index may be
    live under the old flags, live under the new flags, or neither, but never both. The lemmas say
    what taking a key out of the old layout and placing it in the new one does to the keys held by
    the two layouts together. */
module Rehash {
  import opened Arith
  import opened Probe
  import opened Table

  /** Bucket `b` holds a key of the old or of the new layout. */
  ghost predicate Held(old': seq<Flag>, new': seq<Flag>, b: int) {
    (0 <= b < |old'| && old'[b] == Live) || (0 <= b < |new'| && new'[b] == Live)
  }

  ghost function HeldKeys(old': seq<Flag>, new': seq<Flag>, ks: seq<Key>): set<Key> {
    set b | 0 <= b < |ks| && Held(old', new', b) :: ks[b]
  }

  ghost predicate HeldOnce(old': seq<Flag>, new': seq<Flag>, ks: seq<Key>) {
    forall a, b :: 0 <= a < b < |ks| && Held(old', new', a) && Held(old', new', b) ==> ks[a] != ks[b]
  }

  /** No bucket is live under both layouts, and the new layout has no tombstones. */
  ghost predicate Apart(old': seq<Flag>, new': seq<Flag>) {
    && (forall b :: 0 <= b < |old'| && b < |new'| && new'[b] == Live ==> old'[b] != Live)
    && (forall b :: 0 <= b < |new'| ==> new'[b] != Deleted)
  }

  /** What holds between two moves. */
  ghost predicate Moving(old': seq<Flag>, new': seq<Flag>, ks: seq<Key>, hash: Key -> nat) {
    && |old'| <= |ks| && |new'| <= |ks|
    && Apart(old', new')
    && Placed(new', ks, hash)
    && HeldOnce(old', new', ks)
  }

  /** Before the first move the old layout holds the stored set. */
  lemma MovingStarts(old': seq<Flag>, new': seq<Flag>, ks: seq<Key>, hash: Key -> nat)
    requires |old'| <= |ks| && |new'| <= |ks| && Distinct(old', ks)
    requires forall b :: 0 <= b < |new'| ==> new'[b] == Empty
    ensures Moving(old', new', ks, hash)
    ensures HeldKeys(old', new', ks) == Keys(old', ks)
    ensures LiveAt(new') == {}
  {
  }

  /** After the last move the new layout alone holds the stored set. */
  lemma MovingEnds(old': seq<Flag>, new': seq<Flag>, ks: seq<Key>, hash: Key -> nat)
    requires Moving(old', new', ks, hash)
    requires forall b :: 0 <= b < |old'| ==> old'[b] != Live
    ensures WellFormed(new', ks[..|new'|], hash)
    ensures Keys(new', ks[..|new'|]) == HeldKeys(old', new', ks)
    ensures UsedAt(new') == LiveAt(new')
  {
    var ks' := ks[..|new'|];
    assert forall b :: 0 <= b < |new'| ==> ks'[b] == ks[b];
    assert forall b :: Held(old', new', b) <==> 0 <= b < |new'| && new'[b] == Live;
  }

  /** Marking an old bucket deleted takes its key out of the held set. */
  lemma Taken(old': seq<Flag>, new': seq<Flag>, ks: seq<Key>, hash: Key -> nat, j: nat)
    requires Moving(old', new', ks, hash)
    requires j < |old'| && old'[j] == Live
    ensures var after := old'[j := Deleted];
            && Moving(after, new', ks, hash)
            && HeldKeys(after, new', ks) == HeldKeys(old', new', ks) - {ks[j]}
            && ks[j] in HeldKeys(old', new', ks)
            && |LiveAt(after)| == |LiveAt(old')| - 1
  {
    LiveCount(old', j);
    var after := old'[j := Deleted];
    assert forall b :: Held(after, new', b) <==> Held(old', new', b) && b != j;
    assert Held(old', new', j);
    forall k | k in HeldKeys(old', new', ks) - {ks[j]} ensures k in HeldKeys(after, new', ks) {
      var b :| 0 <= b < |ks| && Held(old', new', b) && ks[b] == k;
      assert Held(after, new', b);
    }
  }

  /** The old flags after a key has been written to bucket `i`: an old key there is kicked out. */
  function Kicked(old': seq<Flag>, i: nat): seq<Flag> {
    if i < |old'| && old'[i] == Live then old'[i := Deleted] else old'
  }

  lemma HeldAfterMove(old': seq<Flag>, new': seq<Flag>, i: nat)
    requires i < |new'|
    ensures forall b :: Held(Kicked(old', i), new'[i := Live], b) <==> Held(old', new', b) || b == i
  {
    var old2, new2 := Kicked(old', i), new'[i := Live];
    forall b ensures Held(old2, new2, b) <==> Held(old', new', b) || b == i {
      if 0 <= b < |old'| && b != i {
        assert old2[b] == old'[b];
      }
      if 0 <= b < |new'| && b != i {
        assert new2[b] == new'[b];
      }
    }
  }

  lemma KeysAfterMove(old': seq<Flag>, new': seq<Flag>, ks: seq<Key>, key: Key, i: nat)
    requires |old'| <= |ks| && i < |new'| <= |ks| && new'[i] != Live
    requires HeldOnce(old', new', ks) && key !in HeldKeys(old', new', ks)
    ensures var old2, new2, ks2 := Kicked(old', i), new'[i := Live], ks[i := key];
            && HeldOnce(old2, new2, ks2)
            && (if i < |old'| && old'[i] == Live then
                  && ks[i] in HeldKeys(old', new', ks)
                  && HeldKeys(old2, new2, ks2) == HeldKeys(old', new', ks) - {ks[i]} + {key}
                else
                  HeldKeys(old2, new2, ks2) == HeldKeys(old', new', ks) + {key})
  {
    HeldAfterMove(old', new', i);
    var old2, new2, ks2 := Kicked(old', i), new'[i := Live], ks[i := key];
    var kicks := i < |old'| && old'[i] == Live;
    assert kicks <==> Held(old', new', i);
    var before, after := HeldKeys(old', new', ks), HeldKeys(old2, new2, ks2);
    assert Held(old2, new2, i) && ks2[i] == key;
    forall b | 0 <= b < |ks| && Held(old', new', b) && b != i
      ensures ks2[b] == ks[b] && ks[b] in before && ks[b] in after && ks[b] != key
    {
      assert Held(old2, new2, b) && ks2[b] in after;
    }
    assert forall b :: 0 <= b < |ks| && Held(old', new', b) && b != i && kicks ==> ks[b] != ks[i];
    assert forall k :: k in after ==> k == key || (k in before && (kicks ==> k != ks[i]));
  }

  /** One round of the kick-out loop: the key in hand is written to the first free bucket of its
      probe path in the new layout, and an old key that lived there comes into the hand. */
  lemma Moved(old': seq<Flag>, new': seq<Flag>, ks: seq<Key>, hash: Key -> nat, key: Key, s: nat)
    requires Moving(old', new', ks, hash)
    requires s < |new'| && PathOpen(new', hash(key), s)
    requires new'[Pos(hash(key), s, |new'|)] == Empty
    requires key !in HeldKeys(old', new', ks)
    ensures var i := Pos(hash(key), s, |new'|);
            var old2, new2, ks2 := Kicked(old', i), new'[i := Live], ks[i := key];
            && Moving(old2, new2, ks2, hash)
            && (if i < |old'| && old'[i] == Live then
                  && ks[i] in HeldKeys(old', new', ks)
                  && HeldKeys(old2, new2, ks2) == HeldKeys(old', new', ks) - {ks[i]} + {key}
                  && |LiveAt(old2)| == |LiveAt(old')| - 1
                else
                  && HeldKeys(old2, new2, ks2) == HeldKeys(old', new', ks) + {key}
                  && old2 == old')
            && |LiveAt(new2)| == |LiveAt(new')| + 1
  {
    var i := Pos(hash(key), s, |new'|);
    StillPlaced(new', ks, hash, key, s);
    KeysAfterMove(old', new', ks, key, i);
    LiveCount(new', i);
    if i < |old'| {
      LiveCount(old', i);
    }
  }

  /** Putting one element in place of another keeps the union with the element in hand. */
  lemma Swapped(before: set<Key>, key: Key, after: set<Key>, next: Key, target: set<Key>)
    requires key !in before && next in before && after == before - {next} + {key}
    requires before + {key} == target
    ensures next !in after && after + {next} == target
  {
  }
}
