/**
 pmap_enter_range on a process's map, wherever the range lies.  Its callers pass sizes and addresses that
 come from the process (line 281 of microkernel/arch/i386/memory.c, line 136 of microkernel/mm/vm.c), so a
 range can reach and cross KERNEL_BASE.  The part below is entered first; in the part above, a page for
 which the kernel has no table gives the process a table of its own.
 */
module RangeEnters {
  import opened Types
  import opened PageTables
  import opened PageTableProofs
  import opened UserMaps
  import opened MapRuns

  // ---------- a map whose kernel half has parted from the kernel's ----------

  /** Entry `i` of a listed map is the kernel's, or leads to a table of the map's own. */
  ghost predicate OwnOrShared(m: Machine, id: PmapId, i: nat) {
    var e := Get(m, Dir(m, id), i);
    e == Get(m, Dir(m, KERNEL), i) || Holds(m, e.frame, UserTable(id, i))
  }

  ghost predicate HalfOk(m: Machine, id: PmapId) {
    id in m.procs && forall i :: KTABLE_START <= i < NTABLES ==> OwnOrShared(m, id, i)
  }

  ghost predicate Parted(m: Machine, id: PmapId) {
    exists i :: KTABLE_START <= i < NTABLES && Get(m, Dir(m, id), i) != Get(m, Dir(m, KERNEL), i)
  }

  lemma GoodIsHalfOk(m: Machine, id: PmapId)
    requires Good(m) && id in m.procs
    ensures HalfOk(m, id) && !Parted(m, id)
  {
  }

  lemma PartedNotSynced(m: Machine, id: PmapId)
    requires id in m.procs && Parted(m, id)
    ensures !Synced(m)
  {
    hide Get;
  }

  /** Allocation leaves each entry the kernel's or the map's own. */
  lemma KeptHalf(m: Machine, m': Machine, id: PmapId)
    requires Kept(m, m') && HalfOk(m, id)
    ensures HalfOk(m', id)
  {
    hide Get;
    forall i | KTABLE_START <= i < NTABLES ensures OwnOrShared(m', id, i) {
      assert Together(m, m', id, i) && OwnOrShared(m, id, i);
      var e := Get(m, Dir(m, id), i);
      if Holds(m, e.frame, UserTable(id, i)) { assert Holds(m', e.frame, m.role[e.frame]); }
    }
  }

  /** A new entry in the kernel half of a process's directory. */
  lemma PutHighKeeps(m: Machine, id: PmapId, i: nat, e: Pte)
    requires WellFormed(m) && id != KERNEL && KTABLE_START <= i < NTABLES && Dir(m, id) != 0
    ensures WellFormed(Put(m, Dir(m, id), i, e))
  {
    hide Put, Get;
    var d := Dir(m, id);
    var m' := Put(m, d, i, e);
    PutFields(m, d, i, e);
    assert DirOk(m, id);
    forall x ensures DirOk(m', x) { assert DirOk(m, x); }
    forall x, j | x != KERNEL && 0 <= j < KTABLE_START ensures UserEntryOk(m', x, j) {
      assert UserEntryOk(m, x, j) && DirOk(m, x);
      GetPut(m, d, i, e, Dir(m, x), j);
    }
    forall j | 0 <= j < NTABLES ensures KernelEntryOk(m', j) {
      assert KernelEntryOk(m, j) && DirOk(m, KERNEL);
      GetPut(m, d, i, e, Dir(m, KERNEL), j);
    }
  }

  /** Entering a kernel page whose entry is not zero writes into a table and changes no directory. */
  lemma EnterHighPresent(m: Machine, id: PmapId, frame: Frame, v: nat, prot: bv12)
    requires WellFormed(m) && HalfOk(m, id) && KernelHalf(v) && Get(m, Dir(m, id), Pde(v)) != ZERO
    ensures var r := Enter(m, id, frame, v, prot);
            && r.Some? && WellFormed(r.value) && r.value.pdbr == m.pdbr && r.value.procs == m.procs
            && (forall x, i :: Get(r.value, Dir(m, x), i) == Get(m, Dir(m, x), i))
            && r.value.role == m.role && HalfOk(r.value, id)
  {
    hide WellFormed, Synced, Get, Put;
    HighPde(v);
    ListedHasDirectory(m, id);
    var i, e := Pde(v), Pte(frame, PAGE_PRESENT | prot);
    assert OwnOrShared(m, id, i);
    var t := Get(m, Dir(m, id), i).frame;
    var role := if Get(m, Dir(m, id), i) == Get(m, Dir(m, KERNEL), i) then KernelTable(i) else UserTable(id, i);
    if role.KernelTable? { KernelTableAt(m, i); }
    PutAnyTable(m, t, Index(v), e, role);
    PutFields(m, t, Index(v), e);
    var m' := Put(m, t, Index(v), e);
    forall x, j ensures Get(m', Dir(m, x), j) == Get(m, Dir(m, x), j) {
      DirectoryIsNoTable(m, x, t, role);
      GetPut(m, t, Index(v), e, Dir(m, x), j);
    }
    forall j | KTABLE_START <= j < NTABLES ensures OwnOrShared(m', id, j) { assert OwnOrShared(m, id, j); }
  }

  /** Entering one whose entry is zero parts the map from the kernel at that entry. */
  lemma EnterHighAbsent(m: Machine, id: PmapId, frame: Frame, v: nat, prot: bv12)
    requires WellFormed(m) && HalfOk(m, id) && KernelHalf(v) && Get(m, Dir(m, id), Pde(v)) == ZERO
    ensures var r := Enter(m, id, frame, v, prot);
            r.Some? ==>
              && WellFormed(r.value) && r.value.pdbr == m.pdbr && r.value.procs == m.procs
              && HalfOk(r.value, id) && Parted(r.value, id)
  {
    hide WellFormed, Synced, Get, Put, Alloc, Kept;
    HighPde(v);
    ListedHasDirectory(m, id);
    var i := Pde(v);
    AllocTaken(m, UserTable(id, i));
    var a := Alloc(m, UserTable(id, i));
    if a.Some? {
      KeptHalf(m, a.value.0, id);
      LinkOwn(a.value.0, id, a.value.1, i, Index(v), PAGE_PRESENT | prot, Pte(frame, PAGE_PRESENT | prot));
    }
  }

  lemma LinkOwn(m: Machine, id: PmapId, t: Frame, i: nat, j: nat, bits: bv12, e: Pte)
    requires WellFormed(m) && HalfOk(m, id) && id != KERNEL && KTABLE_START <= i < NTABLES && Dir(m, id) != 0
    requires Holds(m, t, UserTable(id, i)) && t != 0
    ensures var m' := Put(Put(m, Dir(m, id), i, Pte(t, bits)), t, j, e);
            && WellFormed(m') && m'.pdbr == m.pdbr && m'.procs == m.procs
            && HalfOk(m', id) && Parted(m', id)
  {
    hide WellFormed, Get, Put;
    var d, k, e0 := Dir(m, id), Dir(m, KERNEL), Pte(t, bits);
    var m2 := Put(m, d, i, e0);
    var m3 := Put(m2, t, j, e);
    PutHighKeeps(m, id, i, e0);
    PutFields(m, d, i, e0);
    PutTableKeeps(m2, t, j, e, id, i);
    PutFields(m2, t, j, e);
    DirectoryInMemory(m, id);
    DistinctDirectories(m, id, KERNEL);
    DirectoryIsNoTable(m, id, t, UserTable(id, i));
    DirectoryIsNoTable(m, KERNEL, t, UserTable(id, i));
    KernelEntryNot(m, i, t, UserTable(id, i));
    forall x ensures Get(m3, k, x) == Get(m, k, x) && (x != i ==> Get(m3, d, x) == Get(m, d, x)) {
      GetPut(m, d, i, e0, k, x);
      GetPut(m, d, i, e0, d, x);
      GetPut(m2, t, j, e, k, x);
      GetPut(m2, t, j, e, d, x);
    }
    GetPut(m, d, i, e0, d, i);
    GetPut(m2, t, j, e, d, i);
    assert Get(m3, Dir(m3, id), i) == e0 && Get(m3, Dir(m3, KERNEL), i) != e0;
    forall x | KTABLE_START <= x < NTABLES ensures OwnOrShared(m3, id, x) { assert OwnOrShared(m, id, x); }
  }

  // ---------- what any enter needs and keeps ----------

  /** A map that can be entered: the kernel half of a listed one has only the kernel's tables and its own. */
  ghost predicate Enterable(m: Machine, id: PmapId) {
    WellFormed(m) && (id in m.procs ==> HalfOk(m, id))
  }

  /** A page of it: the kernel's map has kernel pages, a listed map all pages, any other map user pages. */
  ghost predicate CanEnter(m: Machine, id: PmapId, v: nat) {
    v < NPAGES && if v < KERNEL_PAGE then id != KERNEL else id == KERNEL || id in m.procs
  }

  lemma GoodIsEnterable(m: Machine, id: PmapId)
    requires Good(m)
    ensures Enterable(m, id)
  {
    if id in m.procs { GoodIsHalfOk(m, id); }
  }

  lemma TableThere(m: Machine, id: PmapId, v: nat)
    requires Enterable(m, id) && CanEnter(m, id, v) && Get(m, Dir(m, id), Pde(v)) != ZERO
    ensures Get(m, Dir(m, id), Pde(v)).frame in m.mem
  {
    hide WellFormed, Get;
    HighPde(v);
    var i := Pde(v);
    var t := Get(m, Dir(m, id), i).frame;
    if v < KERNEL_PAGE {
      UserWalk(m, id, i);
      HoldsInMemory(m, t, UserTable(id, i));
    } else if Get(m, Dir(m, id), i) == Get(m, Dir(m, KERNEL), i) {
      KernelTableAt(m, i);
      HoldsInMemory(m, t, KernelTable(i));
    } else {
      assert OwnOrShared(m, id, i);
      HoldsInMemory(m, t, UserTable(id, i));
    }
  }

  /** The user half of a directory changes; the kernel half does not. */
  lemma SameHalf(m: Machine, m': Machine, id: PmapId)
    requires HalfOk(m, id) && m'.procs == m.procs && m'.role == m.role
    requires forall i :: KTABLE_START <= i < NTABLES ==>
               && Get(m', Dir(m', id), i) == Get(m, Dir(m, id), i)
               && Get(m', Dir(m', KERNEL), i) == Get(m, Dir(m, KERNEL), i)
    ensures HalfOk(m', id)
  {
    hide Get;
    forall i | KTABLE_START <= i < NTABLES ensures OwnOrShared(m', id, i) { assert OwnOrShared(m, id, i); }
  }

  /** Writing into a table leaves every directory alone. */
  lemma PutTableEnterable(m: Machine, id: PmapId, t: Frame, j: nat, e: Pte, role: Role)
    requires Enterable(m, id) && Holds(m, t, role) && !role.Directory?
    ensures Enterable(Put(m, t, j, e), id)
  {
    hide WellFormed, Synced, Get, Put, HalfOk;
    PutAnyTable(m, t, j, e, role);
    PutFields(m, t, j, e);
    var m' := Put(m, t, j, e);
    forall x, i ensures Get(m', Dir(m', x), i) == Get(m, Dir(m, x), i) {
      DirectoryIsNoTable(m, x, t, role);
      GetPut(m, t, j, e, Dir(m, x), i);
    }
    if id in m.procs { SameHalf(m, m', id); }
  }

  lemma LinkUserEnterable(m: Machine, id: PmapId, t: Frame, i: nat, bits: bv12)
    requires Enterable(m, id) && id != KERNEL && i < KTABLE_START && Dir(m, id) != 0 && Holds(m, t, UserTable(id, i))
    ensures Enterable(Put(m, Dir(m, id), i, Pte(t, bits)), id)
  {
    hide WellFormed, Synced, Get, Put, HalfOk;
    var d, e := Dir(m, id), Pte(t, bits);
    LinkUserKeeps(m, id, i, t, bits);
    PutFields(m, d, i, e);
    var m' := Put(m, d, i, e);
    forall j | KTABLE_START <= j < NTABLES
      ensures Get(m', d, j) == Get(m, d, j) && Get(m', Dir(m, KERNEL), j) == Get(m, Dir(m, KERNEL), j)
    {
      GetPut(m, d, i, e, d, j);
      GetPut(m, d, i, e, Dir(m, KERNEL), j);
    }
    if id in m.procs { SameHalf(m, m', id); }
  }

  lemma AllocEnterable(m: Machine, id: PmapId, role: Role)
    requires Enterable(m, id)
    ensures var r := Alloc(m, role); r.Some? ==> Enterable(r.value.0, id)
  {
    hide WellFormed, Synced, Get, HalfOk, Alloc, Kept;
    AllocTaken(m, role);
    var r := Alloc(m, role);
    if r.Some? && id in m.procs { KeptHalf(m, r.value.0, id); }
  }

  lemma EnterUserEnterable(m: Machine, id: PmapId, frame: Frame, v: nat, prot: bv12)
    requires Enterable(m, id) && UserPage(id, v) && Dir(m, id) != 0
    ensures var r := EnterMapped(m, id, frame, v, prot);
            r.Some? ==> Enterable(r.value, id) && r.value.procs == m.procs
  {
    hide Enterable, HalfOk, Get, Put, Alloc, Kept;
    HighPde(v);
    var d, i, e := Dir(m, id), Pde(v), Pte(frame, PAGE_PRESENT | prot);
    EnterableIs(m, id);
    hide WellFormed, Synced;
    if Get(m, d, i) == ZERO {
      AllocTaken(m, UserTable(id, i));
      AllocEnterable(m, id, UserTable(id, i));
      var a := Alloc(m, UserTable(id, i));
      if a.Some? {
        var (m1, t) := a.value;
        LinkUserEnterable(m1, id, t, i, PAGE_PRESENT | prot);
        PutFields(m1, d, i, Pte(t, PAGE_PRESENT | prot));
        var m2 := Put(m1, d, i, Pte(t, PAGE_PRESENT | prot));
        PutTableEnterable(m2, id, t, Index(v), e, UserTable(id, i));
        PutFields(m2, t, Index(v), e);
      }
    } else {
      UserWalk(m, id, i);
      PutTableEnterable(m, id, Get(m, d, i).frame, Index(v), e, UserTable(id, i));
      PutFields(m, Get(m, d, i).frame, Index(v), e);
    }
  }

  lemma EnterableIs(m: Machine, id: PmapId)
    requires Enterable(m, id)
    ensures WellFormed(m) && (id in m.procs ==> HalfOk(m, id))
  {
  }

  /** Whatever was entered before, parted or not, the map can be entered again. */
  lemma EnterKeepsEnterable(m: Machine, id: PmapId, frame: Frame, v: nat, prot: bv12)
    requires Enterable(m, id) && CanEnter(m, id, v)
    ensures var r := Enter(m, id, frame, v, prot);
            r.Some? ==> Enterable(r.value, id) && r.value.procs == m.procs
  {
    hide WellFormed, Synced, HalfOk, Get, Alloc, EnterMapped, Kept;
    KernelDirectory(m);
    if v >= KERNEL_PAGE {
      if id == KERNEL {
        KernelNotListed(m);
        KernelEnterKeeps(m, frame, v, prot);
        KeptProcs(m, EnterMapped(m, KERNEL, frame, v, prot));
      } else if Get(m, Dir(m, id), Pde(v)) == ZERO {
        EnterHighAbsent(m, id, frame, v, prot);
      } else {
        EnterHighPresent(m, id, frame, v, prot);
      }
    } else if Dir(m, id) == 0 {
      NotListedYet(m, id);
      AllocTaken(m, Directory(id));
      var a := Alloc(m, Directory(id));
      if a.Some? {
        var (m1, d) := a.value;
        SetDirectory(m1, id, d);
        EnterUserEnterable(m1.(pdbr := m1.pdbr[id := d]), id, frame, v, prot);
      }
    } else {
      EnterUserEnterable(m, id, frame, v, prot);
    }
  }

  lemma KernelNotListed(m: Machine)
    requires WellFormed(m)
    ensures KERNEL !in m.procs
  {
  }

  lemma NotListedYet(m: Machine, id: PmapId)
    requires WellFormed(m) && Dir(m, id) == 0
    ensures id !in m.procs
  {
  }

  lemma KeptProcs(m: Machine, r: Option<Machine>)
    requires r.Some? ==> Kept(m, r.value)
    ensures r.Some? ==> r.value.procs == m.procs
  {
  }

  // ---------- ranges above KERNEL_BASE ----------

  /** Once parted, or with a page whose entry is zero to come, the range ends with the halves parted. */
  lemma {:induction false} RangeParts(m: Machine, id: PmapId, frame: Frame, v: nat, n: nat, prot: bv12)
    requires WellFormed(m) && HalfOk(m, id) && KERNEL_PAGE <= v && v + n <= NPAGES
    requires Parted(m, id) || exists w :: v <= w < v + n && Get(m, Dir(m, id), Pde(w)) == ZERO
    ensures var r := EnterRange(m, id, frame, v, n, prot);
            r.Some? ==> r.value.procs == m.procs && Parted(r.value, id) && !Synced(r.value)
    decreases n
  {
    hide WellFormed, Synced, HalfOk, Enter, Get;
    if n == 0 {
      MemberOf(m, id);
      PartedNotSynced(m, id);
    } else {
      var r1 := Enter(m, id, frame, v, prot);
      if r1.Some? {
        if Get(m, Dir(m, id), Pde(v)) == ZERO {
          EnterHighAbsent(m, id, frame, v, prot);
        } else {
          EnterHighPresent(m, id, frame, v, prot);
          StillToCome(m, r1.value, id, v, n);
        }
        RangeStep(m, id, frame, v, n, prot);
        RangeParts(r1.value, id, frame + 1, v + 1, n - 1, prot);
      }
    }
  }

  lemma MemberOf(m: Machine, id: PmapId)
    requires HalfOk(m, id)
    ensures id in m.procs
  {
  }

  lemma StillToCome(m: Machine, m1: Machine, id: PmapId, v: nat, n: nat)
    requires n > 0 && m1.pdbr == m.pdbr && Get(m, Dir(m, id), Pde(v)) != ZERO
    requires forall x, i :: Get(m1, Dir(m, x), i) == Get(m, Dir(m, x), i)
    requires Parted(m, id) || exists w :: v <= w < v + n && Get(m, Dir(m, id), Pde(w)) == ZERO
    ensures Parted(m1, id) || exists w :: v + 1 <= w < v + n && Get(m1, Dir(m1, id), Pde(w)) == ZERO
  {
    hide Get;
    if Parted(m, id) {
      var i :| KTABLE_START <= i < NTABLES && Get(m, Dir(m, id), i) != Get(m, Dir(m, KERNEL), i);
      assert Get(m1, Dir(m1, id), i) != Get(m1, Dir(m1, KERNEL), i);
    } else {
      var w :| v <= w < v + n && Get(m, Dir(m, id), Pde(w)) == ZERO;
      assert Get(m1, Dir(m1, id), Pde(w)) == ZERO;
    }
  }

  /** Unfolding where the last page is not passed over. */
  lemma RangeStep(m: Machine, id: PmapId, frame: Frame, v: nat, n: nat, prot: bv12)
    requires 0 < n && v + n <= NPAGES
    ensures EnterRange(m, id, frame, v, n, prot)
         == match Enter(m, id, frame, v, prot)
            case None => None
            case Some(m1) => EnterRange(m1, id, frame + 1, v + 1, n - 1, prot)
  {
    hide Enter;
    var r := Enter(m, id, frame, v, prot);
    if r.Some? {
      if n == 1 {
        RangeNone(r.value, id, frame + 1, v + 1, prot);
        RangeNone(r.value, id, frame + 1, (v + 1) % NPAGES, prot);
      } else {
        assert (v + 1) % NPAGES == v + 1;
      }
    }
  }

  /** With a kernel table for every page the range is entered in every map that sees it, and nothing else changes. */
  lemma {:induction false} RangeShared(m: Machine, id: PmapId, frame: Frame, v: nat, n: nat, prot: bv12)
    requires Good(m) && id in m.procs && KERNEL_PAGE <= v && v + n <= NPAGES && KernelBacked(m, v, n)
    ensures var r := EnterRange(m, id, frame, v, n, prot);
            && r.Some? && Good(r.value) && r.value == m.(mem := r.value.mem)
            && (forall x, w: nat :: Seen(m, x, w) ==>
                  Lookup(r.value, x, w)
                  == if v <= w < v + n then Pte(frame + (w - v), PAGE_PRESENT | prot) else Lookup(m, x, w))
    decreases n
  {
    hide WellFormed, Synced, Get, Lookup, Enter;
    if n > 0 {
      assert Get(m, Dir(m, KERNEL), Pde(v)) != ZERO;
      EnterSharedUpdates(m, id, frame, v, prot);
      EnterSharedKeepsTables(m, id, frame, v, prot);
      RangeStep(m, id, frame, v, n, prot);
      var m1 := Enter(m, id, frame, v, prot).value;
      RangeShared(m1, id, frame + 1, v + 1, n - 1, prot);
      forall x, w: nat | Seen(m, x, w) ensures Seen(m1, x, w) {
      }
    }
  }

  ghost predicate KernelBacked(m: Machine, v: nat, n: nat) {
    forall w :: v <= w < v + n ==> Get(m, Dir(m, KERNEL), Pde(w)) != ZERO
  }

  lemma EnterSharedKeepsTables(m: Machine, id: PmapId, frame: Frame, v: nat, prot: bv12)
    requires Good(m) && id in m.procs && KernelHalf(v) && Get(m, Dir(m, KERNEL), Pde(v)) != ZERO
    ensures var r := Enter(m, id, frame, v, prot);
            r.Some? && forall i :: Get(r.value, Dir(r.value, KERNEL), i) == Get(m, Dir(m, KERNEL), i)
  {
    hide WellFormed, Synced, Get, Enter;
    GoodIsHalfOk(m, id);
    SeenTable(m, id, v);
    EnterHighPresent(m, id, frame, v, prot);
  }

  // ---------- any range ----------

  /** The pages of a range that lie below KERNEL_BASE. */
  function PagesBelow(v: nat, n: nat): nat {
    if v >= KERNEL_PAGE then 0 else if v + n <= KERNEL_PAGE then n else KERNEL_PAGE - v
  }

  lemma {:induction false} RangeConcat(m: Machine, id: PmapId, frame: Frame, v: nat, a: nat, n: nat, prot: bv12)
    requires a <= n && v + n <= NPAGES
    ensures EnterRange(m, id, frame, v, n, prot)
         == match EnterRange(m, id, frame, v, a, prot)
            case None => None
            case Some(m1) => EnterRange(m1, id, frame + a, (v + a) % NPAGES, n - a, prot)
    decreases a
  {
    hide Enter;
    if a > 0 {
      RangeStep(m, id, frame, v, n, prot);
      RangeStep(m, id, frame, v, a, prot);
      var r := Enter(m, id, frame, v, prot);
      if r.Some? { RangeConcat(r.value, id, frame + 1, v + 1, a - 1, n - 1, prot); }
    } else if n > 0 {
      assert v % NPAGES == v;
    }
  }

  /**
   What a range means.  When the kernel has a table for every page of the part above KERNEL_BASE at the time
   that part begins, page v + k is mapped to frame + k for every k, a user page in this map and a kernel
   page in every map that sees it; no other user page of any map changes, and no other kernel page changes
   once that part has begun.
   */
  lemma EnterRangeUpdates(m: Machine, id: PmapId, frame: Frame, v: nat, n: nat, prot: bv12)
    requires Good(m) && id != KERNEL && v + n <= NPAGES && (v + n <= KERNEL_PAGE || id in m.procs)
    ensures var a := PagesBelow(v, n);
            var r1, r := EnterRange(m, id, frame, v, a, prot), EnterRange(m, id, frame, v, n, prot);
            r1.Some? && KernelBacked(r1.value, v + a, n - a) ==>
              && r.Some? && Good(r.value)
              && (forall w :: v <= w < v + n ==> Lookup(r.value, id, w) == Pte(frame + (w - v), PAGE_PRESENT | prot))
              && (forall x, w: nat :: UserPage(x, w) && (x != id || !(v <= w < v + n)) ==>
                    Lookup(r.value, x, w) == Lookup(m, x, w))
              && (forall x, w: nat :: Seen(m, x, w) && KernelHalf(w) ==>
                    Lookup(r.value, x, w)
                    == if v <= w < v + n then Pte(frame + (w - v), PAGE_PRESENT | prot) else Lookup(r1.value, x, w))
  {
    hide WellFormed, Synced, Get, Lookup, Enter, EnterRange;
    var a := PagesBelow(v, n);
    UserRangeUpdates(m, id, frame, v, a, prot);
    RangeConcat(m, id, frame, v, a, n, prot);
    var r1 := EnterRange(m, id, frame, v, a, prot);
    if r1.Some? && KernelBacked(r1.value, v + a, n - a) {
      if a == n {
        RangeNone(r1.value, id, frame + a, (v + a) % NPAGES, prot);
      } else {
        assert (v + a) % NPAGES == v + a;
        RangeShared(r1.value, id, frame + a, v + a, n - a, prot);
      }
      assert forall x, w: nat :: UserPage(x, w) ==> Seen(r1.value, x, w);
      assert forall x, w: nat :: Seen(m, x, w) ==> Seen(r1.value, x, w);
    }
  }

  lemma RangeNone(m: Machine, id: PmapId, frame: Frame, v: nat, prot: bv12)
    ensures EnterRange(m, id, frame, v, 0, prot) == Some(m)
  {
  }

  /** The part above KERNEL_BASE keeps the invariant if and only if every page of it has a kernel table. */
  lemma KernelPartIff(m: Machine, id: PmapId, frame: Frame, v: nat, n: nat, prot: bv12)
    requires Good(m) && id in m.procs && KERNEL_PAGE <= v && v + n <= NPAGES
    ensures var r := EnterRange(m, id, frame, v, n, prot);
            r.Some? ==> (Good(r.value) <==> KernelBacked(m, v, n))
  {
    hide WellFormed, Synced, Get, Lookup, EnterRange;
    if KernelBacked(m, v, n) {
      RangeShared(m, id, frame, v, n, prot);
    } else {
      var w :| v <= w < v + n && Get(m, Dir(m, KERNEL), Pde(w)) == ZERO;
      GoodIsHalfOk(m, id);
      SeenTable(m, id, w);
      assert Get(m, Dir(m, id), Pde(w)) == ZERO;
      RangeParts(m, id, frame, v, n, prot);
    }
  }

  /**
   A range that is entered keeps the invariant if and only if the kernel has a table for every page of it
   above KERNEL_BASE when that part begins.
   */
  lemma EnterRangeIff(m: Machine, id: PmapId, frame: Frame, v: nat, n: nat, prot: bv12)
    requires Good(m) && id in m.procs && v + n <= NPAGES
    ensures var a := PagesBelow(v, n);
            var r1, r := EnterRange(m, id, frame, v, a, prot), EnterRange(m, id, frame, v, n, prot);
            r.Some? ==> r1.Some? && (Good(r.value) <==> KernelBacked(r1.value, v + a, n - a))
  {
    hide WellFormed, Synced, Get, Lookup, EnterRange;
    ListedHasDirectory(m, id);
    var a := PagesBelow(v, n);
    RangeConcat(m, id, frame, v, a, n, prot);
    UserRangeUpdates(m, id, frame, v, a, prot);
    var r1 := EnterRange(m, id, frame, v, a, prot);
    if r1.Some? {
      if a == n {
        RangeNone(r1.value, id, frame + a, (v + a) % NPAGES, prot);
      } else {
        assert (v + a) % NPAGES == v + a;
        KernelPartIff(r1.value, id, frame + a, v + a, n - a, prot);
      }
    }
  }
}
