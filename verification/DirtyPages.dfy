/** The dirty-page set of a live migration (ctrl/snap_dp_map.c): pages are added as the device
    writes to them and taken out when they are reported to the migration driver. */
module DirtyPages {
  import opened Arith
  import opened Table
  import opened Khash

  /** Addresses are 64-bit, lengths of ranges and the page size 32-bit. */
  const U64: nat := 0x1_0000_0000_0000_0000
  const U32: nat := 0x1_0000_0000

  /** `page` is a multiple of the page size. */
  predicate Aligned(page: nat, pageSize: nat)
    requires pageSize > 0
  {
    Wrap(page, pageSize) == 0
  }

  /** The page that holds an address: `pa & ~(page_size - 1)`. */
  function PageOf(pa: nat, pageSize: nat): (page: nat)
    requires pageSize > 0
    ensures page <= pa < page + pageSize
  {
    WrapBelow(pa, pageSize);
    pa - Wrap(pa, pageSize)
  }

  lemma {:induction false} WrapBelow(x: nat, n: nat)
    requires n > 0
    ensures Wrap(x, n) <= x
    decreases x
  {
    if x >= n {
      WrapBelow(x - n, n);
    }
  }

  lemma {:induction false} PageOfAligned(pa: nat, pageSize: nat)
    requires pageSize > 0
    ensures Aligned(PageOf(pa, pageSize), pageSize)
    decreases pa
  {
    if pa >= pageSize {
      PageOfAligned(pa - pageSize, pageSize);
      assert PageOf(pa, pageSize) == PageOf(pa - pageSize, pageSize) + pageSize;
    }
  }

  /** The pages that overlap the bytes from `pa` up to `pa + length`. For no bytes inside a page it is that page, which the
      source adds too. */
  ghost function PagesOf(pa: nat, length: nat, pageSize: nat): set<Key>
    requires pageSize > 0
  {
    set p: nat | p < pa + length && p + pageSize > pa && Aligned(p, pageSize)
  }

  /** A power of two divides every power of two that is not smaller. */
  lemma {:induction false} Pow2Factor(p: nat, n: nat) returns (q: nat)
    requires Pow2(p) && Pow2(n) && p <= n
    ensures n == q * p
  {
    if p == 1 {
      q := n;
    } else {
      q := Pow2Factor(p / 2, n / 2);
    }
  }

  lemma Pow2Divides(p: nat, n: nat)
    requires Pow2(p) && Pow2(n) && p <= n
    ensures Aligned(n, p)
  {
    var q := Pow2Factor(p, n);
    WrapShift(0, q, p);
  }

  lemma Pow2Twice(h: nat, n: nat)
    requires Pow2(h) && n == 2 * h
    ensures Pow2(n)
  {
    assert n / 2 == h;
  }

  lemma {:induction false} Pow2Product(a: nat, b: nat)
    requires Pow2(a) && Pow2(b)
    ensures Pow2(a * b)
  {
    if b > 1 {
      Pow2Product(a, b / 2);
      Double(a, b / 2);
      Pow2Twice(a * (b / 2), a * b);
    }
  }

  lemma AddressSpacePow2()
    ensures Pow2(U64)
  {
    assert Pow2(4);
    Pow2Product(4, 4);
    Pow2Product(16, 16);
    Pow2Product(256, 256);
    Pow2Product(65536, 65536);
    Pow2Product(U32, U32);
  }

  /** Every page size divides the address space into pages. */
  lemma AddressSpaceAligned(pageSize: nat, space: nat)
    requires Pow2(pageSize) && pageSize < U32 && space == U64
    ensures Aligned(space, pageSize)
  {
    AddressSpacePow2();
    Pow2Divides(pageSize, space);
  }

  /** Aligned pages are at least a page apart. */
  lemma NextAligned(page: nat, p: nat, pageSize: nat)
    requires pageSize > 0 && Aligned(page, pageSize) && Aligned(p, pageSize)
    ensures p > page ==> p >= page + pageSize
    ensures Aligned(page + pageSize, pageSize)
  {
    if page < p < page + pageSize {
      ResidueInjective(page, p, pageSize);
    }
  }

  /** What happened to the map so far. */
  datatype Event = Dirtied(pages: set<Key>) | Reported(report: seq<Key>)

  ghost function Elems(s: seq<Key>): set<Key> {
    set p | p in s
  }

  /** The pages that a map with history `h` should hold. */
  ghost function Pending(h: seq<Event>): set<Key> {
    if h == [] then {}
    else
      var rest := Pending(h[..|h| - 1]);
      match h[|h| - 1]
      case Dirtied(pages) => rest + pages
      case Reported(report) => rest - Elems(report)
  }

  /** `p` was dirtied by event `i` and not reported by any later one. */
  ghost predicate DirtySince(h: seq<Event>, p: Key, i: nat) {
    && i < |h| && h[i].Dirtied? && p in h[i].pages
    && forall j :: i < j < |h| && h[j].Reported? ==> p !in h[j].report
  }

  /** A page is pending if and only if it was dirtied after it was last reported. */
  lemma {:induction false} PendingIsDirtySince(h: seq<Event>, p: Key)
    ensures p in Pending(h) <==> exists i: nat :: DirtySince(h, p, i)
  {
    if h != [] {
      var last := |h| - 1;
      var rest := h[..last];
      PendingIsDirtySince(rest, p);
      if h[last].Dirtied? && p in h[last].pages {
        assert DirtySince(h, p, last);
      } else {
        assert forall i: nat :: DirtySince(h, p, i) ==> DirtySince(rest, p, i);
        if p in Pending(h) {
          var i: nat :| DirtySince(rest, p, i);
          assert DirtySince(h, p, i);
        }
      }
    }
  }

  ghost predicate NoDuplicates(s: seq<Key>) {
    forall i, j :: 0 <= i < j < |s| ==> s[i] != s[j]
  }

  ghost predicate Ascending(s: seq<Key>) {
    forall i, j :: 0 <= i < j < |s| ==> s[i] <= s[j]
  }

  function InsertSorted(x: Key, s: seq<Key>): (r: seq<Key>)
    ensures multiset(r) == multiset(s) + multiset{x}
  {
    if s == [] then [x]
    else if x <= s[0] then [x] + s
    else
      assert s == [s[0]] + s[1..];
      [s[0]] + InsertSorted(x, s[1..])
  }

  /** `qsort` with the source's comparison. */
  function Sorted(s: seq<Key>): (r: seq<Key>)
    ensures multiset(r) == multiset(s) && |r| == |s|
  {
    if s == [] then []
    else
      assert s == [s[0]] + s[1..];
      var r := InsertSorted(s[0], Sorted(s[1..]));
      assert |multiset(r)| == |multiset(s)|;
      r
  }

  lemma {:induction false} InsertKeepsOrder(x: Key, s: seq<Key>)
    requires Ascending(s)
    ensures Ascending(InsertSorted(x, s))
  {
    if s == [] {
    } else if x <= s[0] {
      Prepended(x, s);
    } else {
      var tail := InsertSorted(x, s[1..]);
      InsertKeepsOrder(x, s[1..]);
      forall k | 0 <= k < |tail| ensures s[0] <= tail[k] {
        assert tail[k] in multiset(tail);
        assert tail[k] == x || tail[k] in s[1..];
      }
      Prepended(s[0], tail);
    }
  }

  lemma Prepended(x: Key, s: seq<Key>)
    requires Ascending(s) && forall k :: 0 <= k < |s| ==> x <= s[k]
    ensures Ascending([x] + s)
  {
  }

  lemma {:induction false} SortedAscends(s: seq<Key>)
    ensures Ascending(Sorted(s))
  {
    if s != [] {
      SortedAscends(s[1..]);
      InsertKeepsOrder(s[0], Sorted(s[1..]));
    }
  }

  /** Sorting keeps the elements, and keeps them distinct. */
  lemma SortedElems(s: seq<Key>)
    requires NoDuplicates(s)
    ensures Elems(Sorted(s)) == Elems(s) && NoDuplicates(Sorted(s))
  {
    var r := Sorted(s);
    assert forall p :: p in s <==> p in multiset(s);
    assert forall p :: p in r <==> p in multiset(r);
    forall i, j | 0 <= i < j < |r| ensures r[i] != r[j] {
      if r[i] == r[j] {
        DuplicateCounts(r, i, j);
        DistinctCounts(s, r[i]);
      }
    }
  }

  lemma DuplicateCounts(r: seq<Key>, i: nat, j: nat)
    requires i < j < |r| && r[i] == r[j]
    ensures multiset(r)[r[i]] >= 2
  {
    var a, b, c := r[..i], r[i + 1..j], r[j + 1..];
    assert r == a + [r[i]] + b + [r[j]] + c;
  }

  lemma {:induction false} DistinctCounts(s: seq<Key>, p: Key)
    requires NoDuplicates(s)
    ensures multiset(s)[p] <= 1
  {
    if s != [] {
      var last := |s| - 1;
      DistinctCounts(s[..last], p);
      assert s == s[..last] + [s[last]];
      if s[last] == p {
        assert p !in s[..last];
      }
    }
  }

  /** The part of `PagesOf` below `limit`. */
  ghost function PagesBelow(pa: nat, length: nat, pageSize: nat, limit: nat): set<Key>
    requires pageSize > 0
  {
    set p | p in PagesOf(pa, length, pageSize) && p < limit
  }

  /** `page` is a page that ends after `pa`. */
  ghost predicate PageIn(page: nat, pa: nat, pageSize: nat)
    requires pageSize > 0
  {
    Aligned(page, pageSize) && page + pageSize > pa
  }

  /** 64-bit addition. */
  function NextU64(page: nat, pageSize: nat): (next: nat)
    ensures page + pageSize < U64 ==> next == page + pageSize
  {
    if page + pageSize < U64 then page + pageSize else page + pageSize - U64
  }

  /** The bound of a range as the code has it: `pa + length` in 64 bits. */
  function EndU64(pa: nat, length: nat): (end: nat)
    requires pa < U64 && length < U64
    ensures end < U64
  {
    if pa + length < U64 then pa + length else pa + length - U64
  }

  lemma FirstPage(pa: nat, length: nat, pageSize: nat, before: set<Key>)
    requires pageSize > 0
    ensures PageIn(PageOf(pa, pageSize), pa, pageSize)
    ensures before + PagesBelow(pa, length, pageSize, PageOf(pa, pageSize)) == before
  {
    PageOfAligned(pa, pageSize);
    forall p | p in PagesOf(pa, length, pageSize) ensures p >= PageOf(pa, pageSize) {
      NextAligned(p, PageOf(pa, pageSize), pageSize);
    }
  }

  lemma NextPage(pa: nat, length: nat, pageSize: nat, page: nat, before: set<Key>)
    requires pageSize > 0 && PageIn(page, pa, pageSize) && page < pa + length
    ensures before + PagesBelow(pa, length, pageSize, page + pageSize)
            == before + PagesBelow(pa, length, pageSize, page) + {page}
    ensures PageIn(page + pageSize, pa, pageSize)
  {
    var all := PagesOf(pa, length, pageSize);
    NextAligned(page, page, pageSize);
    forall p | p in all && p < page + pageSize ensures p <= page {
      NextAligned(page, p, pageSize);
    }
    assert page in all;
  }

  lemma LastPage(pa: nat, length: nat, pageSize: nat, page: nat)
    requires pageSize > 0 && page >= pa + length
    ensures PagesBelow(pa, length, pageSize, page) == PagesOf(pa, length, pageSize)
  {
  }

  /** The `k`-th page that the loop of an addition comes to. */
  function WalkPage(start: nat, k: nat, pageSize: nat): nat {
    if k == 0 then start else NextU64(WalkPage(start, k - 1, pageSize), pageSize)
  }

  lemma {:induction false} WalkStaysAligned(start: nat, k: nat, pageSize: nat)
    requires pageSize > 0 && Aligned(U64, pageSize) && Aligned(start, pageSize) && start < U64
    ensures Aligned(WalkPage(start, k, pageSize), pageSize)
    ensures WalkPage(start, k, pageSize) <= U64 - pageSize
  {
    if k == 0 {
      NextAligned(start, U64, pageSize);
    } else {
      var page := WalkPage(start, k - 1, pageSize);
      WalkStaysAligned(start, k - 1, pageSize);
      NextAligned(page, U64, pageSize);
      NextAligned(page + pageSize, U64, pageSize);
    }
  }

  lemma {:induction false} WalkReaches(start: nat, k: nat, end: nat, pageSize: nat) returns (n: nat)
    requires pageSize > 0 && end <= U64 - pageSize
    requires WalkPage(start, k, pageSize) < U64
    ensures WalkPage(start, n, pageSize) >= end
    decreases end - WalkPage(start, k, pageSize)
  {
    if WalkPage(start, k, pageSize) >= end {
      n := k;
    } else {
      n := WalkReaches(start, k + 1, end, pageSize);
    }
  }

  /** The pages of the first `n` rounds. */
  ghost function Visited(start: nat, n: nat, pageSize: nat): set<Key> {
    if n == 0 then {} else Visited(start, n - 1, pageSize) + {WalkPage(start, n - 1, pageSize)}
  }

  /** The first `n` rounds of the loop take place. */
  ghost predicate Runs(start: nat, end: nat, pageSize: nat, n: nat) {
    forall k: nat :: k < n ==> WalkPage(start, k, pageSize) < end
  }

  /** The loop ends after `n` rounds. */
  ghost predicate EndsAfter(start: nat, end: nat, pageSize: nat, n: nat) {
    Runs(start, end, pageSize, n) && WalkPage(start, n, pageSize) >= end
  }

  lemma EndsOnce(start: nat, end: nat, pageSize: nat, n: nat, m: nat)
    requires EndsAfter(start, end, pageSize, n) && EndsAfter(start, end, pageSize, m)
    ensures n == m
  {
  }

  /** The first round at which the walk is not below the end is the one after which the loop ends. */
  lemma {:induction false} FirstBeyond(start: nat, end: nat, pageSize: nat, k: nat, n: nat) returns (m: nat)
    requires k <= n && Runs(start, end, pageSize, k) && WalkPage(start, n, pageSize) >= end
    ensures EndsAfter(start, end, pageSize, m)
    decreases n - k
  {
    if WalkPage(start, k, pageSize) >= end {
      m := k;
    } else {
      m := FirstBeyond(start, end, pageSize, k + 1, n);
    }
  }

  /** The loop of an addition ends if and only if it does not start or its bound stays out of the last
      page of the 64-bit address space. In that page the walk goes on with page 0 for ever. */
  lemma AdditionEnds(start: nat, end: nat, pageSize: nat)
    requires pageSize > 0 && Aligned(U64, pageSize) && Aligned(start, pageSize)
    requires start < U64 && end < U64
    ensures (exists n: nat :: EndsAfter(start, end, pageSize, n)) <==> start >= end || end <= U64 - pageSize
  {
    if start >= end {
      assert EndsAfter(start, end, pageSize, 0);
    } else if end <= U64 - pageSize {
      var n := WalkReaches(start, 0, end, pageSize);
      var m := FirstBeyond(start, end, pageSize, 0, n);
    } else {
      forall n: nat ensures !EndsAfter(start, end, pageSize, n) {
        WalkStaysAligned(start, n, pageSize);
      }
    }
  }

  /** As long as nothing wraps around, the rounds visit the pages of the range from below. */
  lemma {:induction false} VisitedBelow(pa: nat, length: nat, pageSize: nat, n: nat)
    requires pageSize > 0 && pa + length <= U64 - pageSize
    requires Runs(PageOf(pa, pageSize), pa + length, pageSize, n)
    ensures var page := WalkPage(PageOf(pa, pageSize), n, pageSize);
            && PageIn(page, pa, pageSize)
            && Visited(PageOf(pa, pageSize), n, pageSize) == {} + PagesBelow(pa, length, pageSize, page)
  {
    if n == 0 {
      FirstPage(pa, length, pageSize, {});
    } else {
      VisitedBelow(pa, length, pageSize, n - 1);
      NextPage(pa, length, pageSize, WalkPage(PageOf(pa, pageSize), n - 1, pageSize), {});
    }
  }

  /** A range that runs up to the end of the address space or beyond has a page, but its bound wraps around
      to a number below the first page. */
  lemma WrappedBound(pa: nat, length: nat, pageSize: nat)
    requires 0 < pageSize < U32 && pa < U64 && length < U32 && pa + length >= U64
    ensures PageOf(pa, pageSize) >= EndU64(pa, length)
    ensures PageOf(pa, pageSize) in PagesOf(pa, length, pageSize)
  {
    PageOfAligned(pa, pageSize);
  }

  lemma BoundReached(pa: nat, length: nat, pageSize: nat)
    requires 0 < pageSize < U32 && pa < U64 && length < U32
    requires pa + length <= U64 - pageSize || pa + length >= U64
    ensures PageOf(pa, pageSize) >= EndU64(pa, length) || EndU64(pa, length) <= U64 - pageSize
    ensures pa + length >= U64 ==> PageOf(pa, pageSize) >= EndU64(pa, length)
  {
    if pa + length >= U64 {
      WrappedBound(pa, length, pageSize);
    }
  }

  /** The loop ends and has visited the pages of the range. */
  ghost predicate AddsAll(pa: nat, length: nat, pageSize: nat)
    requires 0 < pageSize && pa < U64 && length < U32
  {
    exists n: nat :: EndsAfter(PageOf(pa, pageSize), EndU64(pa, length), pageSize, n)
                     && Visited(PageOf(pa, pageSize), n, pageSize) == PagesOf(pa, length, pageSize)
  }

  /** An addition ends with exactly the pages of its range if and only if the range stays out of the last
      page of the address space. */
  lemma AddsAllExactlyIfBelow(pa: nat, length: nat, pageSize: nat)
    requires Pow2(pageSize) && pageSize < U32 && pa < U64 && length < U32
    ensures AddsAll(pa, length, pageSize) <==> pa + length <= U64 - pageSize
  {
    AddressSpaceAligned(pageSize, U64);
    var start, end := PageOf(pa, pageSize), EndU64(pa, length);
    PageOfAligned(pa, pageSize);
    AdditionEnds(start, end, pageSize);
    if pa + length <= U64 - pageSize {
      var n: nat :| EndsAfter(start, end, pageSize, n);
      VisitedBelow(pa, length, pageSize, n);
      LastPage(pa, length, pageSize, WalkPage(start, n, pageSize));
    } else if pa + length < U64 {
      NextAligned(start, U64, pageSize);
    } else {
      WrappedBound(pa, length, pageSize);
      forall n: nat | EndsAfter(start, end, pageSize, n) ensures Visited(start, n, pageSize) == {} {
        EndsOnce(start, end, pageSize, n, 0);
      }
    }
  }

  /** A map that stays as it was when pages are dirtied holds what it should if and only if none of them was new. */
  lemma LostExactlyIfNew(h: seq<Event>, pages: set<Key>)
    ensures Pending(h) == Pending(h + [Dirtied(pages)]) <==> pages <= Pending(h)
  {
    var after := h + [Dirtied(pages)];
    assert after[..|after| - 1] == h;
    if Pending(h) == Pending(after) {
      assert forall p :: p in pages ==> p in Pending(after);
    }
  }

  /** The first byte of the last page, for any page size: the loop does not end. */
  lemma LastPageNeverEnds(pa: nat, pageSize: nat, n: nat)
    requires Pow2(pageSize) && 1 < pageSize < U32 && pa == U64 - pageSize
    ensures !EndsAfter(PageOf(pa, pageSize), EndU64(pa, 1), pageSize, n)
  {
    AddressSpaceAligned(pageSize, U64);
    PageOfAligned(pa, pageSize);
    AdditionEnds(PageOf(pa, pageSize), EndU64(pa, 1), pageSize);
  }

  /** The whole last page: the bound wraps around to 0, the loop ends at once and the page is lost. */
  lemma WholeLastPageIsLost(pa: nat, pageSize: nat)
    requires 1 < pageSize < U32 && pa == U64 - pageSize
    ensures EndsAfter(PageOf(pa, pageSize), EndU64(pa, pageSize), pageSize, 0)
    ensures Visited(PageOf(pa, pageSize), 0, pageSize) == {} != PagesOf(pa, pageSize, pageSize)
  {
    WrappedBound(pa, pageSize, pageSize);
  }

  lemma TakenOut(before: set<Key>, out: seq<Key>, page: Key)
    requires NoDuplicates(out) && Elems(out) <= before && page in before - Elems(out)
    ensures before - Elems(out) - {page} == before - Elems(out + [page])
    ensures NoDuplicates(out + [page]) && Elems(out + [page]) <= before
  {
  }

  lemma OneLess(before: set<Key>, tmp: seq<Key>, j: nat)
    requires j < |tmp|
    ensures before - Elems(tmp[..j]) - {tmp[j]} == before - Elems(tmp[..j + 1])
    ensures tmp[j] !in before - Elems(tmp[..j]) ==> before - Elems(tmp[..j]) == before - Elems(tmp[..j + 1])
  {
    assert tmp[..j + 1] == tmp[..j] + [tmp[j]];
  }

  /** The pages from `pa` up to `end`. */
  ghost function InRange(s: set<Key>, pa: nat, end: nat): set<Key> {
    set p | p in s && pa <= p < end
  }

  /** The live keys in range, in bucket order. */
  ghost function Found(fl: seq<Flag>, ks: seq<Key>, pa: nat, end: nat): seq<Key>
    requires |fl| <= |ks|
  {
    if fl == [] then []
    else
      var k := |fl| - 1;
      var rest := Found(fl[..k], ks, pa, end);
      if fl[k] == Live && pa <= ks[k] < end then rest + [ks[k]] else rest
  }

  /** Going through the buckets finds every stored page of the range exactly once. */
  lemma {:induction false} FoundIsInRange(fl: seq<Flag>, ks: seq<Key>, pa: nat, end: nat)
    requires |fl| <= |ks| && Distinct(fl, ks)
    ensures NoDuplicates(Found(fl, ks, pa, end))
    ensures Elems(Found(fl, ks, pa, end)) == InRange(Keys(fl, ks), pa, end)
  {
    if fl != [] {
      var k := |fl| - 1;
      var front := fl[..k];
      assert forall b :: 0 <= b < k ==> front[b] == fl[b];
      FoundIsInRange(front, ks, pa, end);
      var rest := Found(front, ks, pa, end);
      if fl[k] == Live {
        assert Keys(fl, ks) == Keys(front, ks) + {ks[k]};
        assert ks[k] !in Keys(front, ks);
        assert ks[k] !in Elems(rest);
        assert Elems(rest + [ks[k]]) == Elems(rest) + {ks[k]};
      } else {
        assert Keys(fl, ks) == Keys(front, ks);
      }
    }
  }

  lemma {:induction false} ElemsSize(s: seq<Key>)
    requires NoDuplicates(s)
    ensures |Elems(s)| == |s|
  {
    if s != [] {
      var k := |s| - 1;
      ElemsSize(s[..k]);
      assert s == s[..k] + [s[k]];
      assert Elems(s) == Elems(s[..k]) + {s[k]};
    }
  }

  /** `r` lists pages of `hits` without repetition in ascending order, and no smaller page of `hits`
      is missing from it. */
  ghost predicate SmallestOf(r: seq<Key>, hits: set<Key>) {
    && NoDuplicates(r) && Ascending(r) && Elems(r) <= hits
    && forall i, p :: 0 <= i < |r| && p in hits && p !in Elems(r) ==> r[i] < p
  }

  lemma PrefixIsSmallest(tmp: seq<Key>, j: nat, hits: set<Key>)
    requires j <= |tmp| && NoDuplicates(tmp) && Ascending(tmp) && Elems(tmp) == hits
    ensures SmallestOf(tmp[..j], hits)
  {
    var r := tmp[..j];
    assert forall k :: 0 <= k < j ==> tmp[k] == r[k] && r[k] in Elems(r);
    forall i, p | 0 <= i < |r| && p in hits && p !in Elems(r) ensures r[i] < p {
      var k :| 0 <= k < |tmp| && tmp[k] == p;
    }
  }

  /** What a report of `hits` does: the smallest of them in ascending order, as many as the buffer has room for, and -1
      only for want of a temporary buffer. */
  ghost predicate Reporting(hits: set<Key>, bufLen: nat, allocOk: bool, ret: int, buf: seq<Key>, before: seq<Event>,
                            after: seq<Event>)
  {
    if ret == -1 then
      8 * |hits| > bufLen && !allocOk && after == before
    else
      && 0 <= ret <= |buf| && ret == (if |hits| <= bufLen / 8 then |hits| else bufLen / 8)
      && after == before + [Reported(buf[..ret])] && SmallestOf(buf[..ret], hits)
  }

  /** With its end in 64 bits a report looks at the pages of its range if and only if the range ends inside the address
      space, or has none; otherwise it looks at none. */
  lemma ReportsAllExactlyIf(s: set<Key>, pa: nat, length: nat)
    requires pa < U64 && length < U64
    ensures InRange(s, pa, EndU64(pa, length)) == InRange(s, pa, pa + length)
            <==> pa + length < U64 || InRange(s, pa, pa + length) == {}
    ensures pa + length >= U64 ==> InRange(s, pa, EndU64(pa, length)) == {}
  {
  }

  /** Everything from the second page of 4096 bytes on: the end wraps around to 0, and a pending page is passed over. */
  lemma RestOfMemoryIsPassedOver(s: set<Key>)
    requires 4096 in s
    ensures EndU64(4096, U64 - 4096) == 0
    ensures InRange(s, 4096, EndU64(4096, U64 - 4096)) == {} != InRange(s, 4096, U64)
  {
    assert 4096 in InRange(s, 4096, U64);
  }

  class DirtyMap {
    const set_: HashSet
    const pageSize: nat
    ghost var history: seq<Event>

    /** The map holds exactly the pages dirtied since they were last reported. */
    ghost predicate Valid()
      reads this, set_, set_.flags, set_.keys
    {
      && set_.Valid()
      && 1 < pageSize < U32
      && set_.Contents() == Pending(history)
    }

    constructor (pageSize: nat, hash: Key -> nat)
      requires Pow2(pageSize) && 1 < pageSize < U32
      ensures Valid() && history == [] && this.pageSize == pageSize
      ensures fresh(set_) && fresh(set_.flags) && fresh(set_.keys)
    {
      var h := new HashSet(hash);
      set_ := h;
      this.pageSize := pageSize;
      history := [];
    }

    ghost method Happened(e: Event)
      requires set_.Valid()
      modifies this`history
      ensures history == old(history) + [e]
      ensures Pending(history) == match e
        case Dirtied(pages) => old(Pending(history)) + pages
        case Reported(report) => old(Pending(history)) - Elems(report)
    {
      history := history + [e];
      assert history[..|history| - 1] == old(history);
    }

    /** The rounds of the loop of an addition, for a bound that does not wrap around. */
    method AddPages(pa: nat, length: nat)
      requires set_.Valid() && pageSize > 0 && pa + length <= U64 - pageSize
      modifies set_, set_.flags, set_.keys
      ensures set_.Valid() && set_.Contents() == old(set_.Contents()) + PagesOf(pa, length, pageSize)
      ensures set_.flags == old(set_.flags) || fresh(set_.flags)
      ensures set_.keys == old(set_.keys) || fresh(set_.keys)
    {
      ghost var before := set_.Contents();
      var page := PageOf(pa, pageSize);
      FirstPage(pa, length, pageSize, before);
      while page < pa + length
        invariant set_.Valid() && PageIn(page, pa, pageSize)
        invariant set_.Contents() == before + PagesBelow(pa, length, pageSize, page)
        invariant set_.flags == old(set_.flags) || fresh(set_.flags)
        invariant set_.keys == old(set_.keys) || fresh(set_.keys)
        decreases pa + length - page
      {
        NextPage(pa, length, pageSize, page, before);
        var _, _ := set_.Put(page);
        page := NextU64(page, pageSize);
      }
      LastPage(pa, length, pageSize, page);
    }

    /** The loop of an addition with its bound in 64 bits. A bound that wraps around is below the first page, and
        then there is no round. A bound inside the last page of the address space is shut out, because the
        loop does not end for it: see `AdditionEnds`. */
    method PutRange(pa: nat, length: nat)
      requires set_.Valid() && 0 < pageSize < U32 && pa < U64 && length < U32
      requires pa + length <= U64 - pageSize || pa + length >= U64
      modifies set_, set_.flags, set_.keys
      ensures set_.Valid()
      ensures pa + length < U64 ==> set_.Contents() == old(set_.Contents()) + PagesOf(pa, length, pageSize)
      ensures pa + length >= U64 ==> set_.Contents() == old(set_.Contents())
      ensures set_.flags == old(set_.flags) || fresh(set_.flags)
      ensures set_.keys == old(set_.keys) || fresh(set_.keys)
    {
      BoundReached(pa, length, pageSize);
      if PageOf(pa, pageSize) < EndU64(pa, length) {
        AddPages(pa, length);
      } else if pa + length < U64 {
        FirstPage(pa, length, pageSize, set_.Contents());
        LastPage(pa, length, pageSize, PageOf(pa, pageSize));
      }
    }

    /** Records that the device wrote `length` bytes at `pa`. The map then holds what it should if the range stays
        out of the last page of the address space. Otherwise it stays as it was: see `LostExactlyIfNew`. */
    method AddRange(pa: nat, length: nat)
      requires Valid() && pa < U64 && length < U32
      requires pa + length <= U64 - pageSize || pa + length >= U64
      modifies this`history, set_, set_.flags, set_.keys
      ensures history == old(history) + [Dirtied(PagesOf(pa, length, pageSize))]
      ensures pa + length < U64 ==> Valid()
      ensures pa + length >= U64 ==> set_.Valid() && set_.Contents() == old(set_.Contents())
      ensures set_.flags == old(set_.flags) || fresh(set_.flags)
      ensures set_.keys == old(set_.keys) || fresh(set_.keys)
    {
      PutRange(pa, length);
      Happened(Dirtied(PagesOf(pa, length, pageSize)));
    }

    /** Reports pages in bucket order until the buffer is full, taking them out of the map. */
    method Serialize(buf: array<Key>, length: nat) returns (n: nat)
      requires Valid() && length <= 8 * buf.Length && buf != set_.keys
      modifies this`history, set_`size, set_.flags, buf
      ensures Valid() && n <= buf.Length && history == old(history) + [Reported(buf[..n])]
      ensures NoDuplicates(buf[..n]) && Elems(buf[..n]) <= old(set_.Contents())
      ensures n <= length / 8
      ensures n < length / 8 ==> set_.Contents() == {}
    {
      n := Drain(buf, length / 8);
      Happened(Reported(buf[..n]));
    }

    /** The loop of `Serialize`. */
    method Drain(buf: array<Key>, nelems: nat) returns (i: nat)
      requires set_.Valid() && nelems <= buf.Length && buf != set_.keys
      modifies set_`size, set_.flags, buf
      ensures set_.Valid() && i <= nelems
      ensures NoDuplicates(buf[..i]) && Elems(buf[..i]) <= old(set_.Contents())
      ensures set_.Contents() == old(set_.Contents()) - Elems(buf[..i])
      ensures i < nelems ==> set_.Contents() == {}
    {
      ghost var before := set_.Contents();
      ghost var out: seq<Key> := [];
      var k := 0;
      i := 0;
      assert before - Elems([]) == before;
      while k != set_.nBuckets && i < nelems
        invariant set_.Valid() && 0 <= k <= set_.nBuckets && i <= nelems
        invariant buf[..i] == out && NoDuplicates(out) && Elems(out) <= before
        invariant set_.Contents() == before - Elems(out)
        invariant forall b :: 0 <= b < k ==> set_.flags[b] != Live
        decreases set_.nBuckets - k
      {
        if set_.flags[k] == Live {
          var page := set_.keys[k];
          set_.Del(k);
          TakenOut(before, out, page);
          buf[i] := page;
          out := out + [page];
          i := i + 1;
        }
        k := k + 1;
      }
    }

    /** The number of pages of the map from `pa` up to `end`. */
    method CountInRange(pa: nat, end: nat) returns (n: nat)
      requires set_.Valid()
      ensures n == |Found(set_.flags[..], set_.keys[..], pa, end)|
    {
      n := 0;
      var k := 0;
      while k != set_.nBuckets
        invariant 0 <= k <= set_.nBuckets
        invariant n == |Found(set_.flags[..k], set_.keys[..], pa, end)|
      {
        assert set_.flags[..k + 1][..k] == set_.flags[..k];
        if set_.flags[k] == Live {
          var page := set_.keys[k];
          if !(page >= end || page < pa) {
            n := n + 1;
          }
        }
        k := k + 1;
      }
      assert set_.flags[..k] == set_.flags[..];
    }

    /** Those pages, in bucket order. */
    method Collect(pa: nat, end: nat) returns (tmp: seq<Key>)
      requires set_.Valid()
      ensures tmp == Found(set_.flags[..], set_.keys[..], pa, end)
    {
      tmp := [];
      var k := 0;
      while k != set_.nBuckets
        invariant 0 <= k <= set_.nBuckets
        invariant tmp == Found(set_.flags[..k], set_.keys[..], pa, end)
      {
        assert set_.flags[..k + 1][..k] == set_.flags[..k];
        if set_.flags[k] == Live {
          var page := set_.keys[k];
          if !(page >= end || page < pa) {
            tmp := tmp + [page];
          }
        }
        k := k + 1;
      }
      assert set_.flags[..k] == set_.flags[..];
    }

    /** Takes the first `n` pages of `tmp` out of the map. */
    method DeleteFirst(tmp: seq<Key>, n: nat)
      requires set_.Valid() && n <= |tmp|
      modifies set_`size, set_.flags
      ensures set_.Valid() && set_.Contents() == old(set_.Contents()) - Elems(tmp[..n])
    {
      ghost var before := set_.Contents();
      assert before - Elems(tmp[..0]) == before;
      for j := 0 to n
        invariant set_.Valid() && set_.Contents() == before - Elems(tmp[..j])
      {
        var k := set_.Get(tmp[j]);
        set_.Del(k);
        OneLess(before, tmp, j);
      }
    }

    /** The pages of the range in ascending order, and how many of them fit in `room`. */
    method Select(pa: nat, end: nat, room: nat) returns (tmp: seq<Key>, j: nat)
      requires set_.Valid()
      ensures var hits := InRange(set_.Contents(), pa, end);
              && |tmp| == |hits|
              && j == (if |hits| <= room then |hits| else room)
              && SmallestOf(tmp[..j], hits)
    {
      FoundIsInRange(set_.flags[..], set_.keys[..], pa, end);
      var i := CountInRange(pa, end);
      tmp := Collect(pa, end);
      ElemsSize(tmp);
      SortedElems(tmp);
      SortedAscends(tmp);
      tmp := Sorted(tmp);
      j := if i <= room then i else room;
      PrefixIsSmallest(tmp, j, InRange(set_.Contents(), pa, end));
    }

    /** Reports the smallest pages from `pa` up to `end` in ascending order, up to the size of the buffer, taking
        them out of the map. */
    method Report(pa: nat, end: nat, buf: array<Key>, bufLen: nat, allocOk: bool) returns (ret: int)
      requires Valid() && bufLen <= 8 * buf.Length && buf != set_.keys
      modifies this`history, set_`size, set_.flags, buf
      ensures Valid() && -1 <= ret <= buf.Length
      ensures Reporting(old(InRange(set_.Contents(), pa, end)), bufLen, allocOk, ret, buf[..], old(history), history)
    {
      var tmp, j := Select(pa, end, bufLen / 8);
      if |tmp| * 8 > bufLen && !allocOk {
        return -1;
      }
      DeleteFirst(tmp, j);
      forall b | 0 <= b < j {
        buf[b] := tmp[b];
      }
      assert buf[..j] == tmp[..j];
      assert buf[..][..j] == tmp[..j];
      Happened(Reported(buf[..j]));
      return j;
    }

    /** Reports a range. `allocOk` says whether a temporary buffer can be had if one is needed; if not, the result is -1
        and nothing changes. A range whose end wraps around reports nothing: see `ReportsAllExactlyIf`. */
    method SerializeSort(pa: nat, length: nat, buf: array<Key>, bufLen: nat, allocOk: bool) returns (ret: int)
      requires Valid() && pa < U64 && length < U64 && bufLen <= 8 * buf.Length && buf != set_.keys
      modifies this`history, set_`size, set_.flags, buf
      ensures Valid() && -1 <= ret <= buf.Length
      ensures pa + length < U64 ==>
                Reporting(old(InRange(set_.Contents(), pa, pa + length)), bufLen, allocOk, ret, buf[..], old(history), history)
      ensures pa + length >= U64 ==> ret == 0 && history == old(history) + [Reported([])]
    {
      ReportsAllExactlyIf(set_.Contents(), pa, length);
      ret := Report(pa, EndU64(pa, length), buf, bufLen, allocOk);
      assert buf[..][..0] == [];
    }
  }
}
