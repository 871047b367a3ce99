/**
 The loops of pmap.c that step through addresses a page at a time, on the 32-bit numbers they are
 written with: which addresses they visit, and when they stop at all.
 */
module AddressLoops {
  import opened Arithmetic

  const PAGE_SIZE := 4096
  const ADDRESSES := 0x1_0000_0000

  /** The loop variable after `k` rounds. */
  function Step(start: nat, k: nat): nat { (start + k * PAGE_SIZE) % ADDRESSES }

  /** Stepping by a page from any address steps its page number by one. */
  lemma NextPage(addr: nat, k: nat)
    ensures (addr + k * PAGE_SIZE) / PAGE_SIZE == addr / PAGE_SIZE + k
    ensures (addr + (k + 1) * PAGE_SIZE) / PAGE_SIZE == addr / PAGE_SIZE + k + 1
  {
  }

  lemma StepNext(start: nat, k: nat)
    ensures Step(start, k + 1) == (Step(start, k) + PAGE_SIZE) % ADDRESSES
  {
  }

  /** The loop variable keeps its offset in the page, so it never gets past the last page of the address space. */
  lemma StepBelow(start: nat, k: nat, top: nat)
    requires top < ADDRESSES <= top + PAGE_SIZE && top % PAGE_SIZE == start % PAGE_SIZE
    ensures Step(start, k) <= top
  {
    var x := start + k * PAGE_SIZE;
    ModShift(start, PAGE_SIZE, k);
    var s := x % ADDRESSES;
    assert x == x / ADDRESSES * ADDRESSES + s;
    assert s % PAGE_SIZE == start % PAGE_SIZE by { ModShift(s, PAGE_SIZE, x / ADDRESSES * 0x100000); }
    SameOffset(s, top);
  }

  lemma SameOffset(a: nat, b: nat)
    requires a % PAGE_SIZE == b % PAGE_SIZE && a < b + PAGE_SIZE
    ensures a <= b
  {
    assert a == a / PAGE_SIZE * PAGE_SIZE + a % PAGE_SIZE;
    assert b == b / PAGE_SIZE * PAGE_SIZE + b % PAGE_SIZE;
  }

  // ---------- while(start < end): pmap_cow and pmap_protect ----------

  /** The pages visited from `start` in steps of a page while below `end`. */
  function PagesIn(start: nat, end: nat): nat {
    if start >= end then 0 else (end - start + (PAGE_SIZE - 1)) / PAGE_SIZE
  }

  lemma PagesInFit(start: nat, end: nat, k: nat)
    ensures k < PagesIn(start, end) <==> start + k * PAGE_SIZE < end
  {
  }

  /** The page that round `k` works on. */
  function PageAt(start: nat, k: nat): nat { (start + k * PAGE_SIZE) / PAGE_SIZE }

  ghost predicate Visits(start: nat, end: nat, p: nat) {
    exists k: nat :: k < PagesIn(start, end) && PageAt(start, k) == p
  }

  /** Some address from `start` up to `end` lies in page `p`. */
  ghost predicate Touches(start: nat, end: nat, p: nat) {
    start < end && p * PAGE_SIZE < end && start < (p + 1) * PAGE_SIZE
  }

  lemma VisitsRange(start: nat, end: nat, p: nat)
    ensures Visits(start, end, p) <==> start / PAGE_SIZE <= p < start / PAGE_SIZE + PagesIn(start, end)
  {
    if Visits(start, end, p) {
      var k: nat :| k < PagesIn(start, end) && PageAt(start, k) == p;
      NextPage(start, k);
    }
    if start / PAGE_SIZE <= p < start / PAGE_SIZE + PagesIn(start, end) {
      NextPage(start, p - start / PAGE_SIZE);
      assert PageAt(start, p - start / PAGE_SIZE) == p;
    }
  }

  lemma TouchesRange(start: nat, end: nat, p: nat)
    requires start < end
    ensures Touches(start, end, p) <==> start / PAGE_SIZE <= p <= (end - 1) / PAGE_SIZE
  {
  }

  lemma PagesInExact(start: nat, end: nat)
    requires start < end
    ensures start / PAGE_SIZE + PagesIn(start, end) - 1
         == if start % PAGE_SIZE <= (end - 1) % PAGE_SIZE then (end - 1) / PAGE_SIZE else (end - 1) / PAGE_SIZE - 1
  {
    var a, b := start / PAGE_SIZE, (end - 1) / PAGE_SIZE;
    var r, s := start % PAGE_SIZE, (end - 1) % PAGE_SIZE;
    assert end - start + (PAGE_SIZE - 1) == (b - a) * PAGE_SIZE + (s - r + PAGE_SIZE);
    if r <= s {
      DivUnique(end - start + (PAGE_SIZE - 1), PAGE_SIZE, b - a + 1, s - r);
    } else {
      DivUnique(end - start + (PAGE_SIZE - 1), PAGE_SIZE, b - a, s - r + PAGE_SIZE);
    }
  }

  /** The loop visits every page of a range if and only if the range does not end earlier in its page than it starts. */
  lemma VisitsAllIff(start: nat, end: nat)
    requires start < end
    ensures (forall p: nat :: Touches(start, end, p) ==> Visits(start, end, p)) <==>
            start % PAGE_SIZE <= (end - 1) % PAGE_SIZE
  {
    PagesInExact(start, end);
    var last := (end - 1) / PAGE_SIZE;
    forall p: nat ensures Touches(start, end, p) <==> start / PAGE_SIZE <= p <= last { TouchesRange(start, end, p); }
    forall p: nat
      ensures Visits(start, end, p) <==> start / PAGE_SIZE <= p < start / PAGE_SIZE + PagesIn(start, end)
    {
      VisitsRange(start, end, p);
    }
    if start % PAGE_SIZE > (end - 1) % PAGE_SIZE {
      assert start / PAGE_SIZE <= last;
      assert Touches(start, end, last) && !Visits(start, end, last);
    }
  }

  /** Protecting two bytes around a page boundary misses the second page. */
  lemma LastPageMissed()
    ensures Touches(0xFFF, 0x1001, 1) && !Visits(0xFFF, 0x1001, 1)
  {
    VisitsRange(0xFFF, 0x1001, 1);
  }

  ghost predicate Stops(start: nat, end: nat) {
    exists k: nat :: Step(start, k) >= end
  }

  /** The loop stops if and only if the step after its last page does not wrap around. */
  lemma StopsIff(start: nat, end: nat)
    requires start < ADDRESSES && end < ADDRESSES
    ensures Stops(start, end) <==> start + PagesIn(start, end) * PAGE_SIZE < ADDRESSES
  {
    var n := PagesIn(start, end);
    if start + n * PAGE_SIZE < ADDRESSES {
      PagesInFit(start, end, n);
      assert Step(start, n) >= end;
    } else {
      var top := start + (n - 1) * PAGE_SIZE;
      PagesInFit(start, end, n - 1);
      ModShift(start, PAGE_SIZE, n - 1);
      forall k: nat ensures Step(start, k) < end { StepBelow(start, k, top); }
    }
  }

  /** A range that ends inside the last page of the address space is walked for ever. */
  lemma ProtectNeverStops()
    ensures !Stops(0xFFFF_E000, 0xFFFF_F001)
  {
    StopsIff(0xFFFF_E000, 0xFFFF_F001);
  }

  // ---------- for(pa = paddr; pa <= paddr + size;): pmap_enter_range ----------

  /** align_page on a 32-bit number. */
  function Aligned(limit: nat): nat { (limit + (PAGE_SIZE - 1)) % ADDRESSES / PAGE_SIZE * PAGE_SIZE }

  /** What the loop compares with. */
  function LastAddress(paddr: nat, limit: nat): nat { (paddr + Aligned(limit)) % ADDRESSES }

  /** The pages of the inclusive range: the aligned size, and one page more. */
  function RangePages(limit: nat): nat { (limit + (PAGE_SIZE - 1)) / PAGE_SIZE + 1 }

  /** The pages the loop does visit when it stops: none when the end of the range wraps around. */
  function Visited(paddr: nat, limit: nat): nat {
    if paddr + Aligned(limit) >= ADDRESSES then 0 else Aligned(limit) / PAGE_SIZE + 1
  }

  /** After exactly `n` rounds the loop is left. */
  ghost predicate RunsFor(paddr: nat, limit: nat, n: nat) {
    && (forall k: nat :: k < n ==> Step(paddr, k) <= LastAddress(paddr, limit))
    && Step(paddr, n) > LastAddress(paddr, limit)
  }

  ghost predicate RangeStops(paddr: nat, limit: nat) {
    exists k: nat :: Step(paddr, k) > LastAddress(paddr, limit)
  }

  lemma AlignedIs(limit: nat)
    requires limit < ADDRESSES
    ensures Aligned(limit) % PAGE_SIZE == 0 && Aligned(limit) < ADDRESSES
    ensures limit + (PAGE_SIZE - 1) < ADDRESSES ==> Aligned(limit) == (RangePages(limit) - 1) * PAGE_SIZE
    ensures limit + (PAGE_SIZE - 1) >= ADDRESSES ==> Aligned(limit) == 0 && RangePages(limit) == 0x100001
  {
  }

  /** The loop stops if and only if the end of the range wraps around or the step after it does not. */
  lemma RangeStopsIff(paddr: nat, limit: nat)
    requires paddr < ADDRESSES && limit < ADDRESSES
    ensures RangeStops(paddr, limit) <==>
            paddr + Aligned(limit) >= ADDRESSES || paddr + Aligned(limit) + PAGE_SIZE < ADDRESSES
    ensures RangeStops(paddr, limit) ==> RunsFor(paddr, limit, Visited(paddr, limit))
  {
    AlignedIs(limit);
    var size, n := Aligned(limit), Visited(paddr, limit);
    if paddr + size >= ADDRESSES {
      assert LastAddress(paddr, limit) == paddr + size - ADDRESSES;
      assert Step(paddr, 0) == paddr;
    } else if paddr + size + PAGE_SIZE < ADDRESSES {
      assert LastAddress(paddr, limit) == paddr + size && n * PAGE_SIZE == size + PAGE_SIZE;
      assert Step(paddr, n) == paddr + size + PAGE_SIZE;
      forall k: nat | k < n ensures Step(paddr, k) <= LastAddress(paddr, limit) {
        assert k * PAGE_SIZE <= size;
      }
    } else {
      var top := paddr + size;
      ModShift(paddr, PAGE_SIZE, size / PAGE_SIZE);
      forall k: nat ensures Step(paddr, k) <= LastAddress(paddr, limit) { StepBelow(paddr, k, top); }
    }
  }

  /** The loop visits the inclusive range and stops if and only if the address after the range does not wrap around. */
  lemma VisitsRangeIff(paddr: nat, limit: nat)
    requires paddr < ADDRESSES && limit < ADDRESSES
    ensures RunsFor(paddr, limit, RangePages(limit)) <==> paddr + RangePages(limit) * PAGE_SIZE < ADDRESSES
  {
    AlignedIs(limit);
    RangeStopsIff(paddr, limit);
    var n := RangePages(limit);
    if paddr + n * PAGE_SIZE < ADDRESSES {
      assert Visited(paddr, limit) == n;
    } else if RunsFor(paddr, limit, n) {
      OneLength(paddr, limit, n, Visited(paddr, limit));
      assert false;
    }
  }

  lemma OneLength(paddr: nat, limit: nat, n: nat, k: nat)
    requires RunsFor(paddr, limit, n) && RunsFor(paddr, limit, k)
    ensures n == k
  {
  }

  /** Entering the last two pages of the address space never ends; a range past the end enters nothing. */
  lemma RangeNeverStops()
    ensures !RangeStops(0xFFFF_E000, 0x1000) && RunsFor(0xFFFF_F000, 0x1000, 0)
  {
    RangeStopsIff(0xFFFF_E000, 0x1000);
    RangeStopsIff(0xFFFF_F000, 0x1000);
  }
}
