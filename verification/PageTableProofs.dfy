/**
 What the page-table operations keep: the frames used for paging stay apart, every listed process
 sees the kernel's half, and a change to the user half of one map is seen by no other map.
 */
module PageTableProofs {
  import opened Types
  import opened PageTables

  // ---------- reading after writing ----------

  lemma GetPut(m: Machine, f: Frame, i: nat, e: Pte, g: Frame, j: nat)
    ensures Get(Put(m, f, i, e), g, j) == if f == g && i == j && f in m.mem && i < NTABLES then e else Get(m, g, j)
  {
  }

  ghost predicate Listed(m: Machine, f: Frame) {
    exists p :: p in m.procs && f == Dir(m, p)
  }

  lemma GetUpdate(m: Machine, idx: nat, e: Pte, g: Frame, j: nat)
    requires idx < NTABLES
    ensures Get(UpdateListed(m, idx, e), g, j) == if j == idx && g in m.mem && Listed(m, g) then e else Get(m, g, j)
    ensures UpdateListed(m, idx, e).mem.Keys == m.mem.Keys
  {
    var dirs := set p | p in m.procs :: Dir(m, p);
    assert g in dirs <==> Listed(m, g);
  }

  // ---------- the invariant ----------

  ghost predicate Holds(m: Machine, f: Frame, role: Role) {
    f in m.role && m.role[f] == role
  }

  ghost predicate DirOk(m: Machine, id: PmapId) {
    Dir(m, id) != 0 ==> Holds(m, Dir(m, id), Directory(id))
  }

  ghost predicate UserEntryOk(m: Machine, id: PmapId, i: nat) {
    Get(m, Dir(m, id), i) != ZERO ==> Holds(m, Get(m, Dir(m, id), i).frame, UserTable(id, i))
  }

  ghost predicate KernelEntryOk(m: Machine, i: nat) {
    Get(m, Dir(m, KERNEL), i) != ZERO ==>
      i >= KTABLE_START && Holds(m, Get(m, Dir(m, KERNEL), i).frame, KernelTable(i))
  }

  ghost predicate FreeOk(m: Machine) {
    && (forall i :: 0 <= i < |m.free| ==> 0 < m.free[i] < 0x20000 && m.free[i] !in m.mem)
    && (forall i, j :: 0 <= i < j < |m.free| ==> m.free[i] != m.free[j])
  }

  /**
   Every paging frame has one use.  All free frames are below 512 MB, where KERNEL_BASE + address
   does not wrap around.
   */
  ghost predicate WellFormed(m: Machine) {
    && m.role.Keys == m.mem.Keys && 0 !in m.mem
    && Dir(m, KERNEL) != 0
    && (forall id :: DirOk(m, id))
    && (forall p :: p in m.procs ==> p != KERNEL && Dir(m, p) != 0)
    && (forall id, i :: id != KERNEL && 0 <= i < KTABLE_START ==> UserEntryOk(m, id, i))
    && (forall i :: 0 <= i < NTABLES ==> KernelEntryOk(m, i))
    && FreeOk(m)
  }

  /** Every listed process has the kernel's entries in the kernel's half of its directory. */
  ghost predicate Synced(m: Machine) {
    forall p, i :: p in m.procs && KTABLE_START <= i < NTABLES ==>
      Get(m, Dir(m, p), i) == Get(m, Dir(m, KERNEL), i)
  }

  /** What mapping kernel pages leaves alone: everything a user translation goes through. */
  ghost predicate Kept(m: Machine, m': Machine) {
    && m'.pdbr == m.pdbr && m'.procs == m.procs
    && |m'.free| <= |m.free| && m'.free == m.free[|m.free| - |m'.free|..]
    && (forall f :: f in m.role ==> Holds(m', f, m.role[f]))
    && (forall f :: f in m'.role && f !in m.role ==> f in m.free)
    && (forall f, i :: f in m.role && UserPart(m.procs, m.role[f], i) ==> Get(m', f, i) == Get(m, f, i))
    && (forall p, i :: p in m.procs && KTABLE_START <= i < NTABLES ==> Together(m, m', p, i))
  }

  /** Entry `i` of a listed map and of the kernel stay as they were, or are the same now. */
  ghost predicate Together(m: Machine, m': Machine, p: PmapId, i: nat) {
    || Get(m', Dir(m', p), i) == Get(m', Dir(m', KERNEL), i)
    || (Get(m', Dir(m', p), i) == Get(m, Dir(m, p), i) && Get(m', Dir(m', KERNEL), i) == Get(m, Dir(m, KERNEL), i))
  }

  /** So what is kept includes the shared half, if it was shared. */
  lemma KeptSynced(m: Machine, m': Machine)
    requires Kept(m, m') && Synced(m)
    ensures Synced(m')
  {
    hide Get;
    forall p, i | p in m'.procs && KTABLE_START <= i < NTABLES
      ensures Get(m', Dir(m', p), i) == Get(m', Dir(m', KERNEL), i)
    {
      assert Together(m, m', p, i);
    }
  }

  /** User tables, the user half of every directory, and all of a directory that is not listed yet. */
  ghost predicate UserPart(procs: seq<PmapId>, role: Role, i: nat) {
    || role.UserTable?
    || (role.Directory? && (i < KTABLE_START || (role.id != KERNEL && role.id !in procs)))
  }

  lemma KeptTrans(a: Machine, b: Machine, c: Machine)
    requires Kept(a, b) && Kept(b, c) && FreeOk(a)
    ensures Kept(a, c)
  {
    var n := |a.free| - |b.free|;
    assert a.free[n..][|b.free| - |c.free|..] == a.free[|a.free| - |c.free|..];
    forall f, i | f in a.role && UserPart(a.procs, a.role[f], i) ensures Get(c, f, i) == Get(a, f, i) {
      assert Holds(b, f, a.role[f]);
    }
    forall f | f in a.role ensures Holds(c, f, a.role[f]) {
      assert Holds(b, f, a.role[f]);
    }
    forall p, i | p in a.procs && KTABLE_START <= i < NTABLES ensures Together(a, c, p, i) {
      assert Together(a, b, p, i) && Together(b, c, p, i);
    }
  }

  /** A kernel page lies in the kernel's half. */
  lemma KernelPageHigh(f: Frame)
    requires f < 0x20000
    ensures KERNEL_PAGE <= KernelPage(f) == f + KERNEL_PAGE < NPAGES
    ensures KTABLE_START <= Pde(KernelPage(f)) < NTABLES
  {
  }

  lemma HighPde(vpage: nat)
    ensures Pde(vpage) < NTABLES && Index(vpage) < NTABLES
    ensures KERNEL_PAGE <= vpage < NPAGES ==> Pde(vpage) >= KTABLE_START
    ensures vpage < KERNEL_PAGE ==> Pde(vpage) < KTABLE_START
  {
  }

  // ---------- writing into a kernel table, and giving the kernel a new table ----------

  lemma PutReads(m: Machine, t: Frame, i: nat, e: Pte, k: nat)
    requires Holds(m, t, KernelTable(k))
    ensures forall g, j :: (g in m.role ==> !m.role[g].KernelTable?) ==> Get(Put(m, t, i, e), g, j) == Get(m, g, j)
    ensures Put(m, t, i, e).mem.Keys == m.mem.Keys && Put(m, t, i, e) == m.(mem := Put(m, t, i, e).mem)
  {
    forall g, j | g in m.role ==> !m.role[g].KernelTable? ensures Get(Put(m, t, i, e), g, j) == Get(m, g, j) {
      GetPut(m, t, i, e, g, j);
    }
  }

  lemma PutKernelTableKeeps(m: Machine, t: Frame, i: nat, e: Pte, k: nat)
    requires WellFormed(m) && Holds(m, t, KernelTable(k))
    ensures WellFormed(Put(m, t, i, e)) && Kept(m, Put(m, t, i, e))
  {
    hide Get, Put;
    var m' := Put(m, t, i, e);
    PutReads(m, t, i, e, k);
    assert forall id :: DirOk(m, id);
    forall id ensures DirOk(m', id) { assert DirOk(m, id); }
    forall id, j | id != KERNEL && 0 <= j < KTABLE_START ensures UserEntryOk(m', id, j) {
      assert UserEntryOk(m, id, j) && DirOk(m, id);
    }
    forall j | 0 <= j < NTABLES ensures KernelEntryOk(m', j) {
      assert KernelEntryOk(m, j) && DirOk(m, KERNEL);
    }
    forall p, j | p in m.procs && KTABLE_START <= j < NTABLES ensures Together(m, m', p, j) {
      assert DirOk(m, p) && DirOk(m, KERNEL);
    }
    assert m'.free[0..] == m'.free;
  }

  /** Lines 244-246: enter a table at `idx` in the kernel's directory and in every listed one. */
  ghost function Link(m: Machine, idx: nat, e: Pte): Machine
    requires idx < NTABLES
  {
    Put(UpdateListed(m, idx, e), Dir(m, KERNEL), idx, e)
  }

  lemma GetLink(m: Machine, idx: nat, e: Pte, g: Frame, j: nat)
    requires idx < NTABLES
    ensures Get(Link(m, idx, e), g, j)
         == if j == idx && g in m.mem && (Listed(m, g) || g == Dir(m, KERNEL)) then e else Get(m, g, j)
    ensures Link(m, idx, e).mem.Keys == m.mem.Keys
  {
    GetUpdate(m, idx, e, g, j);
    GetPut(UpdateListed(m, idx, e), Dir(m, KERNEL), idx, e, g, j);
  }

  lemma ListedIsDirectory(m: Machine, g: Frame)
    requires WellFormed(m) && (Listed(m, g) || g == Dir(m, KERNEL))
    ensures g in m.role && m.role[g].Directory? && g in m.mem
    ensures m.role[g].id == KERNEL || m.role[g].id in m.procs
  {
    if Listed(m, g) {
      var p :| p in m.procs && g == Dir(m, p);
      assert DirOk(m, p);
    } else {
      assert DirOk(m, KERNEL);
    }
  }

  lemma LinkKeeps(m: Machine, t: Frame, idx: nat, bits: bv12)
    requires WellFormed(m) && KTABLE_START <= idx < NTABLES && Holds(m, t, KernelTable(idx))
    ensures WellFormed(Link(m, idx, Pte(t, bits))) && Kept(m, Link(m, idx, Pte(t, bits)))
  {
    hide Link, Get;
    var e := Pte(t, bits);
    var m' := Link(m, idx, e);
    LinkFields(m, idx, e);
    forall id ensures DirOk(m', id) { assert DirOk(m, id); }
    forall id, j | id != KERNEL && 0 <= j < KTABLE_START ensures UserEntryOk(m', id, j) {
      assert UserEntryOk(m, id, j);
      GetLink(m, idx, e, Dir(m, id), j);
    }
    forall j | 0 <= j < NTABLES ensures KernelEntryOk(m', j) {
      assert KernelEntryOk(m, j);
      GetLink(m, idx, e, Dir(m, KERNEL), j);
    }
    forall p, j | p in m.procs && KTABLE_START <= j < NTABLES ensures Together(m, m', p, j) {
      assert Listed(m, Dir(m, p));
      ListedIsDirectory(m, Dir(m, p));
      ListedIsDirectory(m, Dir(m, KERNEL));
      GetLink(m, idx, e, Dir(m, p), j);
      GetLink(m, idx, e, Dir(m, KERNEL), j);
    }
    forall f, i | f in m.role && UserPart(m.procs, m.role[f], i) ensures Get(m', f, i) == Get(m, f, i) {
      GetLink(m, idx, e, f, i);
      if Listed(m, f) || f == Dir(m, KERNEL) { ListedIsDirectory(m, f); }
    }
  }

  lemma LinkFields(m: Machine, idx: nat, e: Pte)
    requires idx < NTABLES
    ensures var m' := Link(m, idx, e);
            && m'.pdbr == m.pdbr && m'.procs == m.procs && m'.role == m.role && m'.free == m.free
            && m'.mem.Keys == m.mem.Keys && m.free[0..] == m.free
  {
    GetLink(m, idx, e, 0, 0);
  }

  // ---------- taking a page ----------

  /** A frame off the free list becomes a clear paging frame. */
  ghost function Clear(m: Machine, f: Frame, role: Role): Machine {
    m.(mem := m.mem[f := NewTable()], role := m.role[f := role])
  }

  lemma ClearKeeps(m: Machine, f: Frame, role: Role)
    requires WellFormed(m) && f !in m.mem && f != 0 && f !in m.free
    ensures WellFormed(Clear(m, f, role))
    ensures Holds(Clear(m, f, role), f, role)
    ensures forall i :: Get(Clear(m, f, role), f, i) == ZERO
    ensures forall g, i :: g != f ==> Get(Clear(m, f, role), g, i) == Get(m, g, i)
  {
    var m' := Clear(m, f, role);
    assert forall g, i :: g != f ==> Get(m', g, i) == Get(m, g, i);
    hide Get;
    forall id ensures DirOk(m', id) { assert DirOk(m, id); }
    forall id, j | id != KERNEL && 0 <= j < KTABLE_START ensures UserEntryOk(m', id, j) {
      assert UserEntryOk(m, id, j) && DirOk(m, id);
    }
    forall j | 0 <= j < NTABLES ensures KernelEntryOk(m', j) {
      assert KernelEntryOk(m, j) && DirOk(m, KERNEL);
    }
  }

  /** What page_table_allocate gives. */
  ghost predicate Taken(m: Machine, m': Machine, t: Frame, role: Role) {
    && WellFormed(m') && Kept(m, m')
    && t in m.free && t !in m.mem && t != 0 && Holds(m', t, role)
    && (forall i :: Get(m', t, i) == ZERO)
  }

  lemma PopKeeps(m: Machine)
    requires WellFormed(m) && m.free != []
    ensures var m0 := m.(free := m.free[1..]);
            WellFormed(m0) && Kept(m, m0) && m.free[0] !in m0.free
  {
    var m0 := m.(free := m.free[1..]);
    assert forall f, i :: Get(m0, f, i) == Get(m, f, i);
    assert forall id :: Dir(m0, id) == Dir(m, id);
    assert forall id :: DirOk(m, id) ==> DirOk(m0, id);
    assert forall id, i :: UserEntryOk(m, id, i) ==> UserEntryOk(m0, id, i);
    assert forall i :: KernelEntryOk(m, i) ==> KernelEntryOk(m0, i);
  }

  lemma {:induction false} AllocKeeps(m: Machine, role: Role)
    requires WellFormed(m)
    ensures var r := Alloc(m, role); r.Some? ==> Taken(m, r.value.0, r.value.1, role)
    decreases |m.free|, 0
  {
    hide WellFormed, Get, EnterMapped;
    if m.free != [] {
      var f, m0 := m.free[0], m.(free := m.free[1..]);
      PopKeeps(m);
      FreeFrame(m, f);
      KernelPageHigh(f);
      KernelEnterKeeps(m0, f, KernelPage(f), PAGE_RW);
      var r := EnterMapped(m0, KERNEL, f, KernelPage(f), PAGE_RW);
      if r.Some? {
        FreshFrame(m, m0, r.value, f);
        ClearKeeps(r.value, f, role);
        ClearIsKept(m, m0, r.value, f, role);
      }
    }
  }

  lemma FreeFrame(m: Machine, f: Frame)
    requires WellFormed(m) && f in m.free
    ensures 0 < f < 0x20000 && f !in m.mem && f !in m.role
  {
  }

  lemma FreshFrame(m: Machine, m0: Machine, m1: Machine, f: Frame)
    requires WellFormed(m) && m.free != [] && f == m.free[0] && m0 == m.(free := m.free[1..])
    requires Kept(m0, m1) && WellFormed(m1)
    ensures f !in m1.mem && f !in m1.free
  {
    assert f !in m0.free;
  }

  lemma ClearIsKept(m: Machine, m0: Machine, m1: Machine, f: Frame, role: Role)
    requires Kept(m, m0) && Kept(m0, m1) && WellFormed(m) && f in m.free && f !in m1.mem && WellFormed(m1)
    ensures Kept(m, Clear(m1, f, role))
  {
    hide Kept, Clear, WellFormed;
    FreeIsOk(m);
    FreeFrame(m, f);
    KeptTrans(m, m0, m1);
    ClearStays(m, m1, f, role);
  }

  lemma ClearStays(m: Machine, m1: Machine, f: Frame, role: Role)
    requires Kept(m, m1) && f in m.free && f !in m.role && f !in m1.mem && WellFormed(m1)
    ensures Kept(m, Clear(m1, f, role))
  {
    var m' := Clear(m1, f, role);
    ClearReads(m1, f, role);
    hide Get;
    forall g, i | g in m.role && UserPart(m.procs, m.role[g], i) ensures Get(m', g, i) == Get(m, g, i) {
      assert Get(m1, g, i) == Get(m, g, i);
    }
    forall g | g in m.role ensures Holds(m', g, m.role[g]) { assert Holds(m1, g, m.role[g]); }
    forall p, i | p in m.procs && KTABLE_START <= i < NTABLES ensures Together(m, m', p, i) {
      assert Together(m, m1, p, i) && DirOk(m1, p) && DirOk(m1, KERNEL);
    }
  }

  lemma ClearReads(m: Machine, f: Frame, role: Role)
    ensures forall g, i :: g != f ==> Get(Clear(m, f, role), g, i) == Get(m, g, i)
    ensures forall id :: Dir(Clear(m, f, role), id) == Dir(m, id)
  {
  }

  /** Mapping a kernel page keeps everything, however deep the allocation of tables nests. */
  lemma {:induction false} KernelEnterKeeps(m: Machine, frame: Frame, vpage: nat, prot: bv12)
    requires WellFormed(m) && KERNEL_PAGE <= vpage < NPAGES
    ensures var r := EnterMapped(m, KERNEL, frame, vpage, prot);
            r.Some? ==> WellFormed(r.value) && Kept(m, r.value) && (Synced(m) ==> Synced(r.value))
    decreases |m.free|, 1
  {
    hide WellFormed, Synced, Kept, Get, Put, UpdateListed, Alloc;
    var r := EnterMapped(m, KERNEL, frame, vpage, prot);
    var d, idx, e := Dir(m, KERNEL), Pde(vpage), Pte(frame, PAGE_PRESENT | prot);
    HighPde(vpage);
    if Get(m, d, idx) == ZERO {
      AllocKeeps(m, KernelTable(idx));
      var a := Alloc(m, KernelTable(idx));
      if a.Some? {
        var (m1, t) := a.value;
        LinkKeeps(m1, t, idx, PAGE_PRESENT | prot);
        var m2 := Link(m1, idx, Pte(t, PAGE_PRESENT | prot));
        KeptDir(m, m1);
        LinkFields(m1, idx, Pte(t, PAGE_PRESENT | prot));
        PutKernelTableKeeps(m2, t, Index(vpage), e, idx);
        FreeIsOk(m);
        KeptTrans(m, m1, m2);
        KeptTrans(m, m2, Put(m2, t, Index(vpage), e));
      }
    } else {
      KernelTableAt(m, idx);
      PutKernelTableKeeps(m, Get(m, d, idx).frame, Index(vpage), e, idx);
    }
    if r.Some? && Synced(m) { KeptSynced(m, r.value); }
  }

  lemma KeptDir(m: Machine, m': Machine)
    requires Kept(m, m')
    ensures forall id :: Dir(m', id) == Dir(m, id)
  {
  }

  lemma FreeIsOk(m: Machine)
    requires WellFormed(m)
    ensures FreeOk(m)
  {
  }

  lemma KernelTableAt(m: Machine, idx: nat)
    requires WellFormed(m) && idx < NTABLES && Get(m, Dir(m, KERNEL), idx) != ZERO
    ensures Holds(m, Get(m, Dir(m, KERNEL), idx).frame, KernelTable(idx))
  {
    assert KernelEntryOk(m, idx);
  }
}
