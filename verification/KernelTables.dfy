/**
 The kernel's own pages.  page_table_allocate maps each page it takes at KERNEL_BASE plus its address,
 which may need a kernel table, which takes another page, and so on: a nest of pages f_0, ..., f_n that
 ends at the first free frame whose 4 MB region has a kernel table.  This module says exactly what the
 nest takes, which tables it leaves the kernel with, and which of its pages are mapped afterwards.
 */
module KernelTables {
  import opened Types
  import opened PageTables
  import opened PageTableProofs
  import opened UserMaps
  import opened MapRuns

  /** Kernel page `v` is mapped by `e` and every other kernel page as before. */
  ghost predicate UpdatesKernel(m: Machine, m': Machine, v: nat, e: Pte) {
    && Lookup(m', KERNEL, v) == e
    && forall w :: KernelHalf(w) && w != v ==> Lookup(m', KERNEL, w) == Lookup(m, KERNEL, w)
  }

  /** With its table in place, entering a kernel page changes that page only, and no directory entry. */
  lemma KernelPresent(m: Machine, frame: Frame, v: nat, prot: bv12)
    requires Good(m) && KernelHalf(v) && Get(m, Dir(m, KERNEL), Pde(v)) != ZERO
    ensures var r := EnterMapped(m, KERNEL, frame, v, prot);
            && r.Some? && UpdatesKernel(m, r.value, v, Pte(frame, PAGE_PRESENT | prot))
            && r.value.free == m.free && r.value.pdbr == m.pdbr && r.value.mem.Keys == m.mem.Keys
            && (forall i :: Get(r.value, Dir(m, KERNEL), i) == Get(m, Dir(m, KERNEL), i))
  {
    hide WellFormed, Synced, Get, Put;
    HighPde(v);
    KernelTableAt(m, Pde(v));
    var t, e := Get(m, Dir(m, KERNEL), Pde(v)).frame, Pte(frame, PAGE_PRESENT | prot);
    var m' := Put(m, t, Index(v), e);
    PutFields(m, t, Index(v), e);
    HoldsInMemory(m, t, KernelTable(Pde(v)));
    DirectoryIsNoTable(m, KERNEL, t, KernelTable(Pde(v)));
    forall i ensures Get(m', Dir(m, KERNEL), i) == Get(m, Dir(m, KERNEL), i) {
      GetPut(m, t, Index(v), e, Dir(m, KERNEL), i);
    }
    forall w | KernelHalf(w) ensures Lookup(m', KERNEL, w) == if w == v then e else Lookup(m, KERNEL, w) {
      HighPde(w);
      var d := Get(m, Dir(m, KERNEL), Pde(w));
      if d != ZERO {
        KernelTableAt(m, Pde(w));
        GetPut(m, t, Index(v), e, d.frame, Index(w));
        if d.frame == t && Index(w) == Index(v) { PageSplit(v, w); }
      }
    }
  }

  /** Clearing a frame that nothing refers to changes no translation. */
  lemma ClearLookups(m: Machine, f: Frame, role: Role)
    requires f !in m.mem
    ensures forall v :: Lookup(Clear(m, f, role), KERNEL, v) == Lookup(m, KERNEL, v)
    ensures forall i :: Get(Clear(m, f, role), Dir(m, KERNEL), i) == Get(m, Dir(m, KERNEL), i)
  {
    forall v ensures Lookup(Clear(m, f, role), KERNEL, v) == Lookup(m, KERNEL, v) {
    }
  }

  /** The kernel pages after Link: those of the new table, which must be clear, and all others as before. */
  lemma LinkLookups(m: Machine, t: Frame, idx: nat, bits: bv12)
    requires Good(m) && KTABLE_START <= idx < NTABLES && Holds(m, t, KernelTable(idx))
    requires forall j :: Get(m, t, j) == ZERO
    ensures forall w :: KernelHalf(w) ==>
              Lookup(Link(m, idx, Pte(t, bits)), KERNEL, w) == if Pde(w) == idx then ZERO else Lookup(m, KERNEL, w)
    ensures Get(Link(m, idx, Pte(t, bits)), Dir(m, KERNEL), idx) == Pte(t, bits)
  {
    hide WellFormed, Synced, Get, Link;
    var e := Pte(t, bits);
    var m' := Link(m, idx, e);
    LinkFields(m, idx, e);
    KernelDirectory(m);
    GetLink(m, idx, e, Dir(m, KERNEL), idx);
    forall w | KernelHalf(w) ensures Lookup(m', KERNEL, w) == if Pde(w) == idx then ZERO else Lookup(m, KERNEL, w) {
      HighPde(w);
      GetLink(m, idx, e, Dir(m, KERNEL), Pde(w));
      TableNotListed(m, t, KernelTable(idx));
      GetLink(m, idx, e, t, Index(w));
      var d := Get(m, Dir(m, KERNEL), Pde(w));
      if Pde(w) != idx && d != ZERO {
        KernelTableAt(m, Pde(w));
        TableNotListed(m, d.frame, KernelTable(Pde(w)));
        GetLink(m, idx, e, d.frame, Index(w));
      }
    }
  }

  lemma TableNotListed(m: Machine, t: Frame, role: Role)
    requires Good(m) && Holds(m, t, role) && !role.Directory?
    ensures !Listed(m, t) && t != Dir(m, KERNEL)
  {
    DirectoryIsNoTable(m, KERNEL, t, role);
    forall p | p in m.procs ensures Dir(m, p) != t { DirectoryIsNoTable(m, p, t, role); }
  }

  lemma NoTableNoPage(m: Machine, w: nat)
    requires Get(m, Dir(m, KERNEL), Pde(w)) == ZERO
    ensures Lookup(m, KERNEL, w) == ZERO
  {
  }

  lemma LinkGood(m: Machine, t: Frame, idx: nat, bits: bv12)
    requires Good(m) && KTABLE_START <= idx < NTABLES && Holds(m, t, KernelTable(idx))
    ensures Good(Link(m, idx, Pte(t, bits)))
  {
    hide WellFormed, Synced, Kept, Link;
    LinkKeeps(m, t, idx, bits);
    KeptSynced(m, Link(m, idx, Pte(t, bits)));
  }

  /** The steps of pmap_enter after the table has been allocated. */
  lemma LinkThenEnter(m: Machine, m1: Machine, t: Frame, frame: Frame, v: nat, prot: bv12)
    requires KernelHalf(v) && Get(m, Dir(m, KERNEL), Pde(v)) == ZERO
    requires Alloc(m, KernelTable(Pde(v))) == Some((m1, t))
    requires Good(m1) && Holds(m1, t, KernelTable(Pde(v))) && m1.pdbr == m.pdbr && forall j :: Get(m1, t, j) == ZERO
    ensures var r, m2 := EnterMapped(m, KERNEL, frame, v, prot), Link(m1, Pde(v), Pte(t, PAGE_PRESENT | prot));
            && r.Some? && UpdatesKernel(m2, r.value, v, Pte(frame, PAGE_PRESENT | prot))
            && (forall i: nat :: i < NTABLES ==>
                  Get(r.value, Dir(m, KERNEL), i)
                  == if i == Pde(v) then Pte(t, PAGE_PRESENT | prot) else Get(m1, Dir(m, KERNEL), i))
            && r.value.free == m1.free
            && r.value.mem.Keys == m1.mem.Keys && r.value.pdbr == m.pdbr
  {
    hide WellFormed, Synced, Get, Put, Lookup, Alloc, UpdateListed;
    HighPde(v);
    var idx, e := Pde(v), Pte(t, PAGE_PRESENT | prot);
    LinkGood(m1, t, idx, PAGE_PRESENT | prot);
    LinkLookups(m1, t, idx, PAGE_PRESENT | prot);
    LinkFields(m1, idx, e);
    KernelPresent(Link(m1, idx, e), frame, v, prot);
    KernelDirectory(m1);
    forall i: nat | i < NTABLES
      ensures Get(Link(m1, idx, e), Dir(m, KERNEL), i) == if i == idx then e else Get(m1, Dir(m, KERNEL), i)
    {
      GetLink(m1, idx, e, Dir(m, KERNEL), i);
    }
  }

  lemma PopEnterFresh(m: Machine, role: Role)
    requires Good(m) && m.free != []
    ensures var f, m0 := m.free[0], m.(free := m.free[1..]);
            var r := EnterMapped(m0, KERNEL, f, KernelPage(f), PAGE_RW);
            r.Some? ==> f !in r.value.mem
  {
    hide EnterMapped, Get;
    var f, m0 := m.free[0], m.(free := m.free[1..]);
    PopKeeps(m);
    FreeFrame(m, f);
    KernelPageHigh(f);
    KernelEnterKeeps(m0, f, KernelPage(f), PAGE_RW);
    var r := EnterMapped(m0, KERNEL, f, KernelPage(f), PAGE_RW);
    if r.Some? { FreshFrame(m, m0, r.value, f); }
  }

  // ---------- the nest ----------

  /** The 4 MB region of a frame's kernel page: its index in the kernel's directory. */
  function Region(f: Frame): nat { Pde(KernelPage(f)) }

  /** The regions for which the kernel has a table. */
  ghost function Tables(m: Machine): set<nat> {
    set i: nat | KTABLE_START <= i < NTABLES && Get(m, Dir(m, KERNEL), i) != ZERO
  }

  /** Where the nest ends: the first free frame whose region has a table, or the end of the list. */
  ghost function First(tables: set<nat>, free: seq<Frame>): (n: nat)
    ensures n <= |free|
    ensures forall i :: 0 <= i < n ==> Region(free[i]) !in tables
    ensures n < |free| ==> Region(free[n]) in tables
  {
    if free == [] || Region(free[0]) in tables then 0 else 1 + First(tables, free[1..])
  }

  /** The kernel sees the first 512 MB of memory at 0xE0000000. */
  lemma KernelPageIs(f: Frame)
    requires f < 0x20000
    ensures KernelPage(f) == f + 0xE0000 && KernelHalf(KernelPage(f))
  {
  }

  const RW_PRESENT: bv12 := PAGE_PRESENT | PAGE_RW

  /** What maps kernel page `w` after the nest free[0..n]: on the way out of it, f_0 comes last. */
  ghost function NestLookup(free: seq<Frame>, n: nat, w: nat, before: Pte): Pte
    requires n < |free|
  {
    if w == KernelPage(free[0]) then Pte(free[0], RW_PRESENT)
    else if n == 0 then before
    else if Pde(w) == Region(free[0]) then ZERO
    else NestLookup(free[1..], n - 1, w, before)
  }

  /** Entry `i` of the kernel's directory after the nest. */
  ghost function NestEntry(free: seq<Frame>, n: nat, i: nat, before: Pte): Pte
    requires n < |free|
  {
    if n == 0 then before
    else if i == Region(free[0]) then Pte(free[1], RW_PRESENT)
    else NestEntry(free[1..], n - 1, i, before)
  }

  /** `m'` is `m` after the nest free[0..n]. */
  ghost predicate Nested(m: Machine, m': Machine, n: nat)
    requires n < |m.free|
  {
    && m'.free == m.free[n + 1..]
    && (forall w :: KernelHalf(w) ==> Lookup(m', KERNEL, w) == NestLookup(m.free, n, w, Lookup(m, KERNEL, w)))
    && (forall i: nat :: i < NTABLES ==>
          Get(m', Dir(m, KERNEL), i) == NestEntry(m.free, n, i, Get(m, Dir(m, KERNEL), i)))
  }

  lemma TablesAt(m: Machine, f: Frame)
    requires Good(m) && f in m.free
    ensures KernelHalf(KernelPage(f)) && KTABLE_START <= Region(f) < NTABLES
    ensures Region(f) in Tables(m) <==> Get(m, Dir(m, KERNEL), Region(f)) != ZERO
  {
    FreeFrame(m, f);
    KernelPageHigh(f);
  }

  /** A page whose region has a table: nothing nests. */
  lemma AllocPresent(m: Machine, role: Role)
    requires Good(m) && m.free != [] && Region(m.free[0]) in Tables(m)
    ensures var r := Alloc(m, role); r.Some? && r.value.1 == m.free[0] && Nested(m, r.value.0, 0)
  {
    hide WellFormed, Synced, Get, EnterMapped, Lookup, Tables;
    var f, m0, k := m.free[0], m.(free := m.free[1..]), Dir(m, KERNEL);
    TablesAt(m, f);
    GoodPop(m);
    KernelPresent(m0, f, KernelPage(f), PAGE_RW);
    PopEnterFresh(m, role);
    var m1 := EnterMapped(m0, KERNEL, f, KernelPage(f), PAGE_RW).value;
    ClearLookups(m1, f, role);
    assert Alloc(m, role) == Some((Clear(m1, f, role), f)) && Dir(m1, KERNEL) == k;
    forall i: nat | i < NTABLES ensures Get(Clear(m1, f, role), k, i) == Get(m, k, i) {
      assert Get(Clear(m1, f, role), k, i) == Get(m1, k, i) == Get(m0, k, i);
    }
  }

  /** One level of the nest around the levels below it. */
  lemma AllocAround(m: Machine, role: Role, n: nat)
    requires Good(m) && n + 1 < |m.free| && Region(m.free[0]) !in Tables(m)
    requires var m0 := m.(free := m.free[1..]);
             var a := Alloc(m0, KernelTable(Region(m.free[0])));
             a.Some? && a.value.1 == m.free[1] && Nested(m0, a.value.0, n)
    ensures var r := Alloc(m, role); r.Some? && r.value.1 == m.free[0] && Nested(m, r.value.0, n + 1)
  {
    hide WellFormed, Synced, Get, EnterMapped, Lookup, Tables, NestLookup, NestEntry;
    var f, m0, k := m.free[0], m.(free := m.free[1..]), Dir(m, KERNEL);
    var v := KernelPage(f);
    TablesAt(m, f);
    GoodPop(m);
    AllocTaken(m0, KernelTable(Region(f)));
    var (m1, t) := Alloc(m0, KernelTable(Region(f))).value;
    LinkThenEnter(m0, m1, t, f, v, PAGE_RW);
    LinkLookups(m1, t, Region(f), PAGE_PRESENT | PAGE_RW);
    PopEnterFresh(m, role);
    var m2 := EnterMapped(m0, KERNEL, f, v, PAGE_RW).value;
    ClearLookups(m2, f, role);
    var m' := Clear(m2, f, role);
    assert Alloc(m, role) == Some((m', f)) && Dir(m2, KERNEL) == k;
    assert m.free[1..][n + 1..] == m.free[n + 2..];
    forall w | KernelHalf(w)
      ensures Lookup(m', KERNEL, w) == NestLookup(m.free, n + 1, w, Lookup(m, KERNEL, w))
    {
      NestUnfolds(m.free, n, w, Lookup(m, KERNEL, w));
    }
    forall i: nat | i < NTABLES ensures Get(m', k, i) == NestEntry(m.free, n + 1, i, Get(m, k, i)) {
      NestUnfolds(m.free, n, i, Get(m, k, i));
      assert Get(m', k, i) == Get(m2, k, i);
    }
  }

  lemma NestUnfolds(free: seq<Frame>, n: nat, w: nat, before: Pte)
    requires n + 1 < |free|
    ensures NestLookup(free, n + 1, w, before)
         == if w == KernelPage(free[0]) then Pte(free[0], RW_PRESENT)
            else if Pde(w) == Region(free[0]) then ZERO
            else NestLookup(free[1..], n, w, before)
    ensures NestEntry(free, n + 1, w, before)
         == if w == Region(free[0]) then Pte(free[1], RW_PRESENT) else NestEntry(free[1..], n, w, before)
  {
  }

  /**
   page_table_allocate succeeds if and only if some free frame has a kernel table for its region, and
   then takes the pages up to the first such frame and gives the first of them.
   */
  lemma {:induction false} AllocNests(m: Machine, role: Role)
    requires Good(m)
    ensures var r, n := Alloc(m, role), First(Tables(m), m.free);
            && (r.Some? <==> n < |m.free|)
            && (r.Some? ==> r.value.1 == m.free[0] && Nested(m, r.value.0, n))
    decreases |m.free|
  {
    hide WellFormed, Synced, Get, EnterMapped, Tables, Nested;
    if m.free != [] {
      var f, m0 := m.free[0], m.(free := m.free[1..]);
      if Region(f) in Tables(m) {
        AllocPresent(m, role);
      } else {
        GoodPop(m);
        PopTables(m);
        AllocNests(m0, KernelTable(Region(f)));
        if First(Tables(m0), m0.free) < |m0.free| {
          AllocAround(m, role, First(Tables(m0), m0.free));
        } else {
          TablesAt(m, f);
          NoTableNoAlloc(m, role);
        }
      }
    }
  }

  lemma PopTables(m: Machine)
    requires m.free != []
    ensures Tables(m.(free := m.free[1..])) == Tables(m)
  {
  }

  lemma NoTableNoAlloc(m: Machine, role: Role)
    requires m.free != [] && Get(m, Dir(m, KERNEL), Region(m.free[0])) == ZERO
    requires Alloc(m.(free := m.free[1..]), KernelTable(Region(m.free[0]))) == None
    ensures Alloc(m, role) == None
  {
    assert Get(m.(free := m.free[1..]), Dir(m, KERNEL), Region(m.free[0])) == ZERO;
  }

  // ---------- which pages of the nest are mapped ----------

  /** An earlier page of the list lies in the same region. */
  ghost predicate Crowded(free: seq<Frame>, k: nat)
    requires k < |free|
  {
    exists j :: 0 <= j < k && Region(free[j]) == Region(free[k])
  }

  lemma CrowdedTail(free: seq<Frame>, k: nat)
    requires 0 < k < |free|
    ensures Crowded(free, k) <==> Region(free[0]) == Region(free[k]) || Crowded(free[1..], k - 1)
  {
    if Crowded(free, k) {
      var j :| 0 <= j < k && Region(free[j]) == Region(free[k]);
      if j > 0 { assert Region(free[1..][j - 1]) == Region(free[1..][k - 1]); }
    }
    if Crowded(free[1..], k - 1) {
      var j :| 0 <= j < k - 1 && Region(free[1..][j]) == Region(free[1..][k - 1]);
      assert Region(free[j + 1]) == Region(free[k]);
    }
  }

  ghost predicate LowFrames(free: seq<Frame>) {
    && (forall i :: 0 <= i < |free| ==> 0 < free[i] < 0x20000)
    && (forall i, j :: 0 <= i < j < |free| ==> free[i] != free[j])
  }

  lemma {:induction false} NestPage(free: seq<Frame>, n: nat, k: nat, before: Pte)
    requires LowFrames(free) && k <= n < |free|
    ensures NestLookup(free, n, KernelPage(free[k]), before)
         == if Crowded(free, k) then ZERO else Pte(free[k], RW_PRESENT)
  {
    if k > 0 {
      KernelPageHigh(free[0]);
      KernelPageHigh(free[k]);
      CrowdedTail(free, k);
      NestPage(free[1..], n - 1, k - 1, before);
    }
  }

  lemma {:induction false} NestTable(free: seq<Frame>, n: nat, j: nat, before: Pte)
    requires j < n < |free|
    ensures !Crowded(free, j) ==> NestEntry(free, n, Region(free[j]), before) == Pte(free[j + 1], RW_PRESENT)
  {
    if j > 0 {
      CrowdedTail(free, j);
      NestTable(free[1..], n - 1, j - 1, before);
    }
  }

  lemma {:induction false} NestElsewhere(free: seq<Frame>, n: nat, w: nat, before: Pte)
    requires n < |free| && forall k :: 0 <= k <= n ==> w != KernelPage(free[k])
    requires forall j :: 0 <= j < n && Region(free[j]) == Pde(w) ==> before == ZERO
    ensures NestLookup(free, n, w, before) == before
  {
    assert w != KernelPage(free[0]);
    if n > 0 {
      assert Region(free[0]) == Pde(w) ==> before == ZERO;
      forall k | 0 <= k <= n - 1 ensures w != KernelPage(free[1..][k]) { assert w != KernelPage(free[k + 1]); }
      forall j | 0 <= j < n - 1 && Region(free[1..][j]) == Pde(w) ensures before == ZERO {
        assert Region(free[j + 1]) == Pde(w);
      }
      NestElsewhere(free[1..], n - 1, w, before);
    }
  }

  lemma FreeIsLow(m: Machine)
    requires Good(m)
    ensures LowFrames(m.free)
  {
  }

  /**
   The whole nest.  Page f_k is mapped at its kernel address afterwards if and only if no earlier page of
   the nest lies in its region: the way out of the nest gives that region a new, clear table for each
   such page, and the entry made for f_k is gone.  The page handed out, f_0, is always mapped; page
   f_{j+1} is the kernel's table for the region of f_j unless an earlier page lies there too; and no
   kernel page other than f_0, ..., f_n changes.
   */
  lemma NestMappedIff(m: Machine, role: Role)
    requires Good(m) && First(Tables(m), m.free) < |m.free|
    ensures var n, r := First(Tables(m), m.free), Alloc(m, role);
            && r.Some? && r.value.0.free == m.free[n + 1..]
            && (forall k :: 0 <= k <= n ==>
                  Lookup(r.value.0, KERNEL, KernelPage(m.free[k]))
                  == if Crowded(m.free, k) then ZERO else Pte(m.free[k], RW_PRESENT))
            && (forall j :: 0 <= j < n && !Crowded(m.free, j) ==>
                  Get(r.value.0, Dir(m, KERNEL), Region(m.free[j])) == Pte(m.free[j + 1], RW_PRESENT))
            && (forall w :: KernelHalf(w) && (forall k :: 0 <= k <= n ==> w != KernelPage(m.free[k])) ==>
                  Lookup(r.value.0, KERNEL, w) == Lookup(m, KERNEL, w))
  {
    hide WellFormed, Synced, Get, Lookup, Alloc, NestLookup, NestEntry, Tables, Region, KernelPage, Crowded;
    AllocNests(m, role);
    FreeIsLow(m);
    var n, m', free := First(Tables(m), m.free), Alloc(m, role).value.0, m.free;
    forall k | 0 <= k <= n
      ensures Lookup(m', KERNEL, KernelPage(free[k])) == if Crowded(free, k) then ZERO else Pte(free[k], RW_PRESENT)
    {
      TablesAt(m, free[k]);
      NestPage(free, n, k, Lookup(m, KERNEL, KernelPage(free[k])));
    }
    forall j | 0 <= j < n && !Crowded(free, j)
      ensures Get(m', Dir(m, KERNEL), Region(free[j])) == Pte(free[j + 1], RW_PRESENT)
    {
      TablesAt(m, free[j]);
      NestTable(free, n, j, Get(m, Dir(m, KERNEL), Region(free[j])));
    }
    forall w | KernelHalf(w) && (forall k :: 0 <= k <= n ==> w != KernelPage(free[k]))
      ensures Lookup(m', KERNEL, w) == Lookup(m, KERNEL, w)
    {
      forall j | 0 <= j < n && Region(free[j]) == Pde(w) ensures Lookup(m, KERNEL, w) == ZERO {
        TablesAt(m, free[j]);
        NoTableNoPage(m, w);
      }
      NestElsewhere(free, n, w, Lookup(m, KERNEL, w));
    }
  }

  // ---------- the kernel's pmap_enter ----------

  /**
   Entering a kernel page without a table succeeds if and only if the nest for the table does, and then
   maps the page; of the nest, the pages in the region of the entered page are not mapped any more.
   */
  lemma KernelAbsent(m: Machine, frame: Frame, v: nat, prot: bv12)
    requires Good(m) && KernelHalf(v) && Get(m, Dir(m, KERNEL), Pde(v)) == ZERO
    ensures var r, n := EnterMapped(m, KERNEL, frame, v, prot), First(Tables(m), m.free);
            && (r.Some? <==> n < |m.free|)
            && (r.Some? ==>
                  && r.value.free == m.free[n + 1..]
                  && Get(r.value, Dir(m, KERNEL), Pde(v)) == Pte(m.free[0], PAGE_PRESENT | prot)
                  && forall w :: KernelHalf(w) ==>
                       Lookup(r.value, KERNEL, w)
                       == if w == v then Pte(frame, PAGE_PRESENT | prot)
                          else if Pde(w) == Pde(v) then ZERO
                          else NestLookup(m.free, n, w, Lookup(m, KERNEL, w)))
  {
    hide WellFormed, Synced, Get, Put, Lookup, Alloc, UpdateListed, Tables, NestLookup, NestEntry;
    HighPde(v);
    AllocNests(m, KernelTable(Pde(v)));
    var a := Alloc(m, KernelTable(Pde(v)));
    if a.Some? {
      AllocTaken(m, KernelTable(Pde(v)));
      var (m1, t) := a.value;
      LinkThenEnter(m, m1, t, frame, v, prot);
      LinkLookups(m1, t, Pde(v), PAGE_PRESENT | prot);
    }
  }

  /** Entering such a page through a listed map succeeds just as often, and then splits the halves. */
  lemma EnterSharedSucceedsIff(m: Machine, id: PmapId, frame: Frame, v: nat, prot: bv12)
    requires Good(m) && id in m.procs && KernelHalf(v) && Get(m, Dir(m, KERNEL), Pde(v)) == ZERO
    ensures Enter(m, id, frame, v, prot).Some? <==> First(Tables(m), m.free) < |m.free|
  {
    hide WellFormed, Synced, Get, Put, Alloc, Tables;
    ListedHasDirectory(m, id);
    SeenTable(m, id, v);
    AllocNests(m, UserTable(id, Pde(v)));
  }

  // ---------- a ready kernel ----------

  /** The kernel has a table for the kernel page of every free frame. */
  ghost predicate Ready(m: Machine) {
    forall i :: 0 <= i < |m.free| ==> Get(m, Dir(m, KERNEL), Pde(KernelPage(m.free[i]))) != ZERO
  }

  lemma ReadyFirst(m: Machine)
    requires Good(m)
    ensures Ready(m) ==> First(Tables(m), m.free) == 0
  {
    if m.free != [] { TablesAt(m, m.free[0]); }
  }

  /**
   When the kernel is ready, page_table_allocate succeeds, takes one page, and maps that page and
   no other in the kernel.
   */
  lemma AllocReady(m: Machine, role: Role)
    requires Good(m) && Ready(m) && m.free != []
    ensures var r, f := Alloc(m, role), m.free[0];
            && r.Some? && r.value.1 == f && r.value.0.free == m.free[1..] && Ready(r.value.0)
            && UpdatesKernel(m, r.value.0, KernelPage(f), Pte(f, PAGE_PRESENT | PAGE_RW))
  {
    hide WellFormed, Synced, Get, Lookup, Alloc, Tables;
    ReadyFirst(m);
    AllocNests(m, role);
    AllocTaken(m, role);
    TablesAt(m, m.free[0]);
    var m', k := Alloc(m, role).value.0, Dir(m, KERNEL);
    forall i | 0 <= i < |m'.free| ensures Get(m', k, Pde(KernelPage(m'.free[i]))) != ZERO {
      assert m'.free[i] == m.free[i + 1];
      TablesAt(m, m.free[i + 1]);
    }
  }
}
