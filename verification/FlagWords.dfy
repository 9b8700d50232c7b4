/** The flags of the hash table packed two bits to a bucket, sixteen buckets to a word (src/khash.h), and the rounding of
    a size to a power of two by shifts. */
module FlagWords {
  import opened Arith
  import opened Table

  /** The two bits of bucket `j` of a word: 2 means empty, 1 deleted, 0 live. */
  function Bits(word: bv32, j: bv32): bv32
    requires j < 16
  {
    (word >> (j << 1)) & 3
  }

  /** The place of a bucket in its word. */
  function Lane(i: nat): (j: bv32)
    ensures j < 16
  {
    var r := i % 16;
    if r == 0 then 0 else if r == 1 then 1 else if r == 2 then 2 else if r == 3 then 3
    else if r == 4 then 4 else if r == 5 then 5 else if r == 6 then 6 else if r == 7 then 7
    else if r == 8 then 8 else if r == 9 then 9 else if r == 10 then 10 else if r == 11 then 11
    else if r == 12 then 12 else if r == 13 then 13 else if r == 14 then 14 else 15
  }

  lemma LaneIsRemainder(i: nat)
    ensures Lane(i) as nat == i % 16
  {
  }

  lemma LaneInjective(i: nat, k: nat)
    ensures Lane(i) == Lane(k) <==> i % 16 == k % 16
  {
  }

  /** `__ac_isempty`, `__ac_isdel` and `__ac_iseither` together. */
  function FlagOf(word: bv32, j: bv32): Flag
    requires j < 16
  {
    var b := Bits(word, j);
    if b & 2 != 0 then Empty else if b & 1 != 0 then Deleted else Live
  }

  /** The two bits that stand for a flag: never are both of them set. */
  function Code(f: Flag): bv32 {
    match f
    case Empty => 2
    case Deleted => 1
    case Live => 0
  }

  predicate Shows(word: bv32, j: bv32, f: Flag)
    requires j < 16
  {
    Bits(word, j) == Code(f)
  }

  /** The macros see the flag that the bits stand for. */
  lemma ShowsFlag(word: bv32, j: bv32, f: Flag)
    requires j < 16 && Shows(word, j, f)
    ensures FlagOf(word, j) == f
  {
  }

  /** The packed flags stand for this sequence. */
  ghost predicate StandFor(words: seq<bv32>, flags: seq<Flag>) {
    |flags| <= 16 * |words| && forall i :: 0 <= i < |flags| ==> Shows(words[i / 16], Lane(i), flags[i])
  }

  /** Two words differ at most in the bits of bucket `j`. */
  ghost predicate SameBut(a: bv32, b: bv32, j: bv32) {
    forall k: bv32 :: k < 16 && k != j ==> Bits(a, k) == Bits(b, k)
  }

  /** Replacing a word by one that differs only in the bits of bucket `i` changes the flag of that bucket only. */
  lemma WordReplaced(words: seq<bv32>, flags: seq<Flag>, i: nat, word: bv32, f: Flag)
    requires StandFor(words, flags) && i < |flags| && Shows(word, Lane(i), f)
    requires SameBut(word, words[i / 16], Lane(i))
    ensures StandFor(words[i / 16 := word], flags[i := f])
  {
    var flags', words' := flags[i := f], words[i / 16 := word];
    forall k | 0 <= k < |flags| ensures Shows(words'[k / 16], Lane(k), flags'[k]) {
      LaneInjective(i, k);
    }
  }

  /** The bits of other buckets stay, whichever bits of a bucket are set or cleared. */
  lemma OthersStay(word: bv32, j: bv32, k: bv32)
    requires j < 16 && k < 16 && j != k
    ensures Bits(word | (1 << (j << 1)), k) == Bits(word, k)
    ensures Bits(word & !(2 << (j << 1)), k) == Bits(word, k)
    ensures Bits(word & !(3 << (j << 1)), k) == Bits(word, k)
  {
  }

  lemma Deletes(word: bv32, j: bv32, r: bv32)
    requires j < 16 && Shows(word, j, Live) && r == word | (1 << (j << 1))
    ensures Shows(r, j, Deleted)
  {
  }

  lemma Uses(word: bv32, j: bv32, r: bv32)
    requires j < 16 && Shows(word, j, Empty) && r == word & !(2 << (j << 1))
    ensures Shows(r, j, Live)
  {
  }

  lemma Clears(word: bv32, j: bv32, r: bv32)
    requires j < 16 && r == word & !(3 << (j << 1))
    ensures Shows(r, j, Live)
  {
  }

  lemma DeletesOne(word: bv32, j: bv32, r: bv32)
    requires j < 16 && r == word | (1 << (j << 1))
    ensures SameBut(r, word, j)
  {
    forall k: bv32 | k < 16 && k != j ensures Bits(r, k) == Bits(word, k) {
      OthersStay(word, j, k);
    }
  }

  lemma UsesOne(word: bv32, j: bv32, r: bv32)
    requires j < 16 && r == word & !(2 << (j << 1))
    ensures SameBut(r, word, j)
  {
    forall k: bv32 | k < 16 && k != j ensures Bits(r, k) == Bits(word, k) {
      OthersStay(word, j, k);
    }
  }

  lemma ClearsOne(word: bv32, j: bv32, r: bv32)
    requires j < 16 && r == word & !(3 << (j << 1))
    ensures SameBut(r, word, j)
  {
    forall k: bv32 | k < 16 && k != j ensures Bits(r, k) == Bits(word, k) {
      OthersStay(word, j, k);
    }
  }

  /** `__ac_set_isdel_true` on a live bucket marks it deleted. */
  lemma MarkDeleted(words: seq<bv32>, flags: seq<Flag>, i: nat)
    requires StandFor(words, flags) && i < |flags| && flags[i] == Live
    ensures StandFor(words[i / 16 := words[i / 16] | (1 << (Lane(i) << 1))], flags[i := Deleted])
  {
    var w, j := words[i / 16], Lane(i);
    Deletes(w, j, w | (1 << (j << 1)));
    DeletesOne(w, j, w | (1 << (j << 1)));
    WordReplaced(words, flags, i, w | (1 << (j << 1)), Deleted);
  }

  /** `__ac_set_isempty_false` on an empty bucket makes it live. */
  lemma MarkUsed(words: seq<bv32>, flags: seq<Flag>, i: nat)
    requires StandFor(words, flags) && i < |flags| && flags[i] == Empty
    ensures StandFor(words[i / 16 := words[i / 16] & !(2 << (Lane(i) << 1))], flags[i := Live])
  {
    var w, j := words[i / 16], Lane(i);
    Uses(w, j, w & !(2 << (j << 1)));
    UsesOne(w, j, w & !(2 << (j << 1)));
    WordReplaced(words, flags, i, w & !(2 << (j << 1)), Live);
  }

  /** `__ac_set_isboth_false` makes any bucket live. */
  lemma ClearBoth(words: seq<bv32>, flags: seq<Flag>, i: nat)
    requires StandFor(words, flags) && i < |flags|
    ensures StandFor(words[i / 16 := words[i / 16] & !(3 << (Lane(i) << 1))], flags[i := Live])
  {
    var w, j := words[i / 16], Lane(i);
    Clears(w, j, w & !(3 << (j << 1)));
    ClearsOne(w, j, w & !(3 << (j << 1)));
    WordReplaced(words, flags, i, w & !(3 << (j << 1)), Live);
  }

  lemma FilledLane(j: bv32)
    requires j < 16
    ensures Shows(0xaaaa_aaaa, j, Empty)
  {
  }

  /** Words filled with the byte 0xaa stand for empty buckets only. */
  lemma FilledIsEmpty(words: seq<bv32>, flags: seq<Flag>)
    requires |flags| <= 16 * |words| && forall k :: 0 <= k < |words| ==> words[k] == 0xaaaa_aaaa
    requires forall i :: 0 <= i < |flags| ==> flags[i] == Empty
    ensures StandFor(words, flags)
  {
    forall i | 0 <= i < |flags| ensures Shows(words[i / 16], Lane(i), flags[i]) {
      FilledLane(Lane(i));
    }
  }

  /** The changes that the table makes: a key is deleted or moved away, an empty bucket of a new table is used, and a bucket
      found for an insertion is written. */
  datatype Change = Delete(i: nat) | Use(i: nat) | Occupy(i: nat)

  predicate Allowed(flags: seq<Flag>, c: Change) {
    c.i < |flags| && (c.Delete? ==> flags[c.i] == Live) && (c.Use? ==> flags[c.i] == Empty)
  }

  function FlagsAfter(flags: seq<Flag>, c: Change): (r: seq<Flag>)
    requires Allowed(flags, c)
    ensures |r| == |flags|
  {
    flags[c.i := if c.Delete? then Deleted else Live]
  }

  function WordAfter(w: bv32, j: bv32, c: Change): bv32
    requires j < 16
  {
    match c
    case Delete(_) => w | (1 << (j << 1))
    case Use(_) => w & !(2 << (j << 1))
    case Occupy(_) => w & !(3 << (j << 1))
  }

  function WordsAfter(words: seq<bv32>, c: Change): (r: seq<bv32>)
    requires c.i < 16 * |words|
    ensures |r| == |words|
  {
    words[c.i / 16 := WordAfter(words[c.i / 16], Lane(c.i), c)]
  }

  lemma WordChanges(w: bv32, j: bv32, f: Flag, c: Change, r: bv32)
    requires j < 16 && Shows(w, j, f) && (c.Delete? ==> f == Live) && (c.Use? ==> f == Empty)
    requires r == WordAfter(w, j, c)
    ensures Shows(r, j, if c.Delete? then Deleted else Live) && SameBut(r, w, j)
  {
    match c
    case Delete(_) =>
      Deletes(w, j, r);
      DeletesOne(w, j, r);
    case Use(_) =>
      Uses(w, j, r);
      UsesOne(w, j, r);
    case Occupy(_) =>
      Clears(w, j, r);
      ClearsOne(w, j, r);
  }

  lemma ChangeStands(words: seq<bv32>, flags: seq<Flag>, c: Change)
    requires StandFor(words, flags) && Allowed(flags, c)
    ensures StandFor(WordsAfter(words, c), FlagsAfter(flags, c))
  {
    var w, j := words[c.i / 16], Lane(c.i);
    WordChanges(w, j, flags[c.i], c, WordAfter(w, j, c));
    WordReplaced(words, flags, c.i, WordAfter(w, j, c), if c.Delete? then Deleted else Live);
  }

  predicate AllAllowed(flags: seq<Flag>, cs: seq<Change>)
    decreases |cs|
  {
    cs == [] || (Allowed(flags, cs[0]) && AllAllowed(FlagsAfter(flags, cs[0]), cs[1..]))
  }

  function FlagsRun(flags: seq<Flag>, cs: seq<Change>): (r: seq<Flag>)
    requires AllAllowed(flags, cs)
    ensures |r| == |flags|
    decreases |cs|
  {
    if cs == [] then flags else FlagsRun(FlagsAfter(flags, cs[0]), cs[1..])
  }

  function WordsRun(words: seq<bv32>, cs: seq<Change>): (r: seq<bv32>)
    requires forall c :: c in cs ==> c.i < 16 * |words|
    ensures |r| == |words|
    decreases |cs|
  {
    if cs == [] then words else WordsRun(WordsAfter(words, cs[0]), cs[1..])
  }

  lemma {:induction false} AllInside(flags: seq<Flag>, cs: seq<Change>)
    requires AllAllowed(flags, cs)
    ensures forall c :: c in cs ==> c.i < |flags|
    decreases |cs|
  {
    if cs != [] {
      AllInside(FlagsAfter(flags, cs[0]), cs[1..]);
      assert cs == [cs[0]] + cs[1..];
    }
  }

  /** Through every run of such changes the packed words stand for the flags. */
  lemma {:induction false} RunStands(words: seq<bv32>, flags: seq<Flag>, cs: seq<Change>)
    requires StandFor(words, flags) && AllAllowed(flags, cs)
    ensures forall c :: c in cs ==> c.i < 16 * |words|
    ensures StandFor(WordsRun(words, cs), FlagsRun(flags, cs))
    decreases |cs|
  {
    AllInside(flags, cs);
    if cs != [] {
      ChangeStands(words, flags, cs[0]);
      RunStands(WordsAfter(words, cs[0]), FlagsAfter(flags, cs[0]), cs[1..]);
    }
  }

  /** `__ac_fsize`: how many words a table needs. */
  function WordCount(n: nat): nat {
    if n < 16 then 1 else n / 16
  }

  /** That many words have room for every table size, and none to spare from 16 buckets on. */
  lemma {:induction false} WordsSuffice(n: nat)
    requires Pow2(n)
    ensures n <= 16 * WordCount(n) && (n >= 16 ==> n == 16 * WordCount(n))
  {
    if n > 16 {
      Pow2Gap(16, n);
      WordsSuffice(n / 2);
    }
  }

  /** `kroundup32`. */
  function RoundUp32(x: bv32): bv32 {
    var a := x - 1;
    var b := a | (a >> 1);
    var c := b | (b >> 2);
    var d := c | (c >> 4);
    var e := d | (d >> 8);
    (e | (e >> 16)) + 1
  }

  /** The shifts give the least power of two that is not below the request, exactly for requests from 1 to 2^31. */
  lemma RoundUp32IsLeast(x: bv32)
    ensures var r := RoundUp32(x);
            (r != 0 && r & (r - 1) == 0 && x <= r && r >> 1 < x) <==> 0 < x <= 0x8000_0000
  {
  }
}
