/**
 pmap.c in its own form: routines that write directory and table entries of physical frames in
 place.  Addresses are 32-bit numbers here.  Each routine is proved against the value function of
 module PageTables; a routine that reports false has gone through a null page.  Where a loop of the
 source need not stop (module AddressLoops), the routine asks that it does.
 */
module PmapInPlace {
  import opened Arithmetic
  import opened Types
  import opened PageTables
  import opened PageTableProofs
  import opened UserMaps
  import opened MapCopies
  import opened AddressLoops
  import opened MapRuns
  import opened RangeEnters

  /** addr_to_pdenum and addr_to_ptenum on an address agree with the split of its page number. */
  lemma MacrosSplitPage(addr: nat)
    requires addr < ADDRESSES
    ensures addr / 0x400000 % 1024 == Pde(addr / PAGE_SIZE)
    ensures addr / 0x1000 % 1024 == Index(addr / PAGE_SIZE)
    ensures addr / PAGE_SIZE < NPAGES
  {
  }

  /** The listed directories among the first `k` processes have entry `idx` set to `e`. */
  ghost function UpdateFirst(m: Machine, k: nat, idx: nat, e: Pte): Machine
    requires k <= |m.procs|
  {
    UpdateDirs(m, set p | p in m.procs[..k] :: Dir(m, p), idx, e)
  }

  ghost function UpdateDirs(m: Machine, dirs: set<Frame>, idx: nat, e: Pte): Machine {
    m.(mem := map f | f in m.mem :: if f in dirs && idx < NTABLES then m.mem[f][idx := e] else m.mem[f])
  }

  lemma UpdateFirstAll(m: Machine, idx: nat, e: Pte)
    requires idx < NTABLES
    ensures UpdateFirst(m, |m.procs|, idx, e) == UpdateListed(m, idx, e)
    ensures UpdateFirst(m, 0, idx, e) == m
  {
    assert m.procs[..|m.procs|] == m.procs;
    assert UpdateFirst(m, 0, idx, e).mem == m.mem;
  }

  lemma UpdateFirstNext(m: Machine, k: nat, idx: nat, e: Pte)
    requires k < |m.procs| && idx < NTABLES && Dir(m, m.procs[k]) in m.mem
    ensures UpdateFirst(m, k + 1, idx, e) == Put(UpdateFirst(m, k, idx, e), Dir(m, m.procs[k]), idx, e)
  {
    hide Put, Dir;
    var d := Dir(m, m.procs[k]);
    assert m.procs[..k + 1] == m.procs[..k] + [m.procs[k]];
    var a, b := set p | p in m.procs[..k] :: Dir(m, p), set p | p in m.procs[..k + 1] :: Dir(m, p);
    assert b == a + {d};
    AddDir(m, a, d, idx, e);
  }

  lemma AddDir(m: Machine, dirs: set<Frame>, d: Frame, idx: nat, e: Pte)
    requires idx < NTABLES && d in m.mem
    ensures UpdateDirs(m, dirs + {d}, idx, e) == Put(UpdateDirs(m, dirs, idx, e), d, idx, e)
  {
    var x, y := UpdateDirs(m, dirs + {d}, idx, e), Put(UpdateDirs(m, dirs, idx, e), d, idx, e);
    forall f | f in m.mem ensures x.mem[f] == y.mem[f] {
      if f == d && f in dirs {
        assert m.mem[d][idx := e][idx := e] == m.mem[d][idx := e];
      }
    }
    assert x.mem == y.mem;
  }

  class Vm {
    var mem: map<Frame, Table>
    var free: seq<Frame>
    var pdbr: map<PmapId, Frame>
    var procs: seq<PmapId>
    var low: Table
    ghost var role: map<Frame, Role>

    ghost function State(): Machine
      reads this
    {
      Machine(mem, free, pdbr, procs, low, role)
    }

    /** Where a pmap's directory is, or 0. */
    function DirOf(id: PmapId): Frame
      reads this
    {
      if id in pdbr then pdbr[id] else 0
    }

    constructor (m: Machine)
      ensures State() == m
    {
      mem, free, pdbr, procs, low, role := m.mem, m.free, m.pdbr, m.procs, m.low, m.role;
    }

    method WriteEntry(f: Frame, i: nat, e: Pte)
      requires f in mem && i < NTABLES
      modifies this`mem
      ensures State() == Put(old(State()), f, i, e)
    {
      mem := mem[f := mem[f][i := e]];
    }

    /** kernel_map_update */
    method KernelMapUpdate(e: Pte, idx: nat)
      requires WellFormed(State()) && idx < NTABLES
      modifies this`mem
      ensures State() == UpdateListed(old(State()), idx, e)
    {
      hide UpdateFirst, UpdateListed, Put, WellFormed;
      ghost var m := State();
      UpdateFirstAll(m, idx, e);
      for k := 0 to |procs|
        invariant State() == UpdateFirst(m, k, idx, e)
        invariant procs == m.procs && pdbr == m.pdbr && mem.Keys == m.mem.Keys
      {
        assert Dir(m, m.procs[k]) != 0 by { ListedHasDirectory(m, m.procs[k]); }
        DirectoryInMemory(m, m.procs[k]);
        UpdateFirstNext(m, k, idx, e);
        WriteEntry(DirOf(procs[k]), idx, e);
        PutFields(UpdateFirst(m, k, idx, e), Dir(m, m.procs[k]), idx, e);
      }
    }

    /** page_table_allocate */
    method PageTableAllocate(ghost use: Role) returns (ok: bool, t: Frame)
      requires WellFormed(State())
      modifies this
      ensures ok == Alloc(old(State()), use).Some?
      ensures ok ==> Alloc(old(State()), use) == Some((State(), t))
      decreases |free|, 0
    {
      hide WellFormed, Synced, EnterMapped, Get;
      t := 0;
      if free == [] { return false, 0; }
      ghost var m := State();
      var f := free[0];
      free := free[1..];
      GoodPop(m);
      ok := EnterKernelPage(f);
      if ok {
        mem := mem[f := NewTable()];
        role := role[f := use];
        t := f;
      }
    }

    /** Line 197: map a page of the free list at KERNEL_BASE plus its address. */
    method EnterKernelPage(f: Frame) returns (ok: bool)
      requires WellFormed(State()) && 0 < f < 0x20000
      modifies this
      ensures ok == EnterMapped(old(State()), KERNEL, f, KernelPage(f), PAGE_RW).Some?
      ensures ok ==> EnterMapped(old(State()), KERNEL, f, KernelPage(f), PAGE_RW) == Some(State())
      decreases |free|, 2
    {
      KernelPageHigh(f);
      hide WellFormed, HalfOk;
      KernelDirectory(State());
      KernelNotListed(State());
      ok := EnterEntry(KERNEL, f, KernelPage(f), PAGE_RW);
    }

    /** pmap_enter from line 239 on. */
    method EnterEntry(id: PmapId, frame: Frame, vpage: nat, prot: bv12) returns (ok: bool)
      requires Enterable(State(), id) && CanEnter(State(), id, vpage) && Dir(State(), id) != 0
      modifies this
      ensures ok == EnterMapped(old(State()), id, frame, vpage, prot).Some?
      ensures ok ==> EnterMapped(old(State()), id, frame, vpage, prot) == Some(State())
      decreases |free|, 1
    {
      hide WellFormed, Synced, HalfOk, Alloc, UpdateListed, Kept;
      HighPde(vpage);
      ghost var m := State();
      DirectoryInMemory(m, id);
      var pde, idx := DirOf(id), Pde(vpage);
      if mem[pde][idx] == ZERO {
        var got, t := PageTableAllocate(TableRole(id, idx));
        AllocTaken(m, TableRole(id, idx));
        if !got { return false; }
        ghost var m1 := State();
        DirectoryInMemory(m1, id);
        HoldsInMemory(m1, t, TableRole(id, idx));
        var newpte := Pte(t, PAGE_PRESENT | prot);
        if id == KERNEL {
          KernelMapUpdate(newpte, idx);
          GetUpdate(m1, idx, newpte, 0, 0);
        }
        WriteEntry(pde, idx, newpte);
        WriteEntry(t, Index(vpage), Pte(frame, PAGE_PRESENT | prot));
      } else {
        TableThere(m, id, vpage);
        WriteEntry(mem[pde][idx].frame, Index(vpage), Pte(frame, PAGE_PRESENT | prot));
      }
      ok := true;
    }

    /**
     pmap_enter: `paddr` and `vaddr` are addresses, `prot` the page bits.  The kernel's map is entered above
     KERNEL_BASE; any other map below it and, when its process is listed, above it too, even when it has parted
     from the kernel before.
     */
    method PmapEnter(id: PmapId, paddr: nat, vaddr: nat, prot: bv12) returns (ok: bool)
      requires Enterable(State(), id) && CanEnter(State(), id, vaddr / PAGE_SIZE)
      requires paddr < ADDRESSES && vaddr < ADDRESSES
      modifies this
      ensures ok == Enter(old(State()), id, paddr / PAGE_SIZE, vaddr / PAGE_SIZE, prot).Some?
      ensures ok ==> Enter(old(State()), id, paddr / PAGE_SIZE, vaddr / PAGE_SIZE, prot) == Some(State())
    {
      hide EnterMapped, Alloc, Get, WellFormed, Synced, HalfOk, Kept, SameLookups;
      MacrosSplitPage(vaddr);
      ghost var m := State();
      KernelDirectory(m);
      if DirOf(id) == 0 {
        NotListedYet(m, id);
        var got, d := PageTableAllocate(Directory(id));
        AllocTaken(m, Directory(id));
        if !got { return false; }
        SetDirectory(State(), id, d);
        pdbr := pdbr[id := d];
      }
      ok := EnterEntry(id, paddr / PAGE_SIZE, vaddr / PAGE_SIZE, prot);
    }

    /** pmap_enter_range, on 32-bit numbers; it enters the inclusive range exactly when VisitsRangeIff says. */
    method PmapEnterRange(id: PmapId, paddr: nat, vaddr: nat, limit: nat, prot: bv12) returns (ok: bool)
      requires Enterable(State(), id) && paddr < ADDRESSES && vaddr < ADDRESSES && limit < ADDRESSES
      requires RangeStops(paddr, limit)
      requires if id == KERNEL then KERNEL_PAGE <= vaddr / PAGE_SIZE <= NPAGES - Visited(paddr, limit)
               else id in procs || vaddr / PAGE_SIZE + Visited(paddr, limit) <= KERNEL_PAGE
      modifies this
      ensures var r := EnterRange(old(State()), id, paddr / PAGE_SIZE, vaddr / PAGE_SIZE, Visited(paddr, limit), prot);
              ok == r.Some? && (ok ==> r == Some(State()))
    {
      hide Enter, Enterable, Step, LastAddress, Visited, Aligned, RangeStops;
      RangeStopsIff(paddr, limit);
      ghost var m := State();
      ghost var n, k := Visited(paddr, limit), 0;
      var last := LastAddress(paddr, limit);
      var pa, va := paddr, vaddr;
      StepStart(paddr);
      StepStart(vaddr);
      while pa <= last
        invariant 0 <= k <= n && pa == Step(paddr, k)
        invariant va == Step(vaddr, k)
        invariant Enterable(State(), id) && procs == m.procs
        invariant EnterRange(m, id, paddr / PAGE_SIZE, vaddr / PAGE_SIZE, n, prot)
               == EnterRange(State(), id, paddr / PAGE_SIZE + k, (vaddr / PAGE_SIZE + k) % NPAGES, n - k, prot)
        decreases n - k
      {
        VisitedPages(paddr, limit, k);
        NextPage(paddr, k);
        StepPage(vaddr, k);
        EnterKeepsEnterable(State(), id, pa / PAGE_SIZE, va / PAGE_SIZE, prot);
        ok := PmapEnter(id, pa, va, prot);
        if !ok { return; }
        StepNext(paddr, k);
        StepNext(vaddr, k);
        NextModulo(vaddr / PAGE_SIZE, k);
        pa := (pa + PAGE_SIZE) % ADDRESSES;
        va := (va + PAGE_SIZE) % ADDRESSES;
        k := k + 1;
      }
      ok := true;
    }

    /** Lines 330-335: copy the entries that are not zero into a clear table. */
    method CopyEntries(dst: Frame, src: Frame)
      requires dst in mem && src in mem && dst != src && mem[dst] == NewTable()
      modifies this`mem
      ensures State() == Fill(old(State()), dst, src)
    {
      ghost var m := State();
      for i := 0 to NTABLES
        invariant mem.Keys == m.mem.Keys && mem[src] == m.mem[src]
        invariant forall f :: f in m.mem && f != dst ==> mem[f] == m.mem[f]
        invariant forall j :: 0 <= j < i ==> mem[dst][j] == m.mem[src][j]
        invariant forall j :: i <= j < NTABLES ==> mem[dst][j] == ZERO
      {
        if mem[src][i] != ZERO {
          WriteEntry(dst, i, mem[src][i]);
        }
      }
      assert mem[dst] == m.mem[src];
      assert mem == m.mem[dst := m.mem[src]];
    }

    /** Lines 344-349 and 368-373. */
    method ShareKernelEntries(id: PmapId)
      requires Good(State()) && id != KERNEL && Dir(State(), id) != 0
      modifies this`mem
      ensures State() == ShareEntries(old(State()), id)
    {
      ghost var m := State();
      DirectoryInMemory(m, id);
      KernelDirectory(m);
      DistinctDirectories(m, id, KERNEL);
      var dest, src := DirOf(id), DirOf(KERNEL);
      hide WellFormed, Synced;
      for i := KTABLE_START to NTABLES
        invariant mem.Keys == m.mem.Keys && mem[src] == m.mem[src]
        invariant forall f :: f in m.mem && f != dest ==> mem[f] == m.mem[f]
        invariant forall j :: 0 <= j < NTABLES ==>
          mem[dest][j] == if KTABLE_START <= j < i && m.mem[src][j] != ZERO then m.mem[src][j] else m.mem[dest][j]
      {
        if mem[src][i] != ZERO {
          WriteEntry(dest, i, mem[src][i]);
        }
      }
      assert mem[dest] == ShareEntries(m, id).mem[dest];
      assert mem == ShareEntries(m, id).mem;
    }

    /** pmap_copy, and the switch of the child process, already listed, to the new map. */
    method PmapCopy(src: PmapId, dst: PmapId) returns (ok: bool)
      requires Good(State()) && src != KERNEL && dst != KERNEL && src != dst
      requires Dir(State(), src) != 0 && Dir(State(), dst) == 0
      modifies this
      ensures ok == Copy(old(State()), src, dst).Some?
      ensures ok ==> Copy(old(State()), src, dst) == Some(State())
    {
      hide WellFormed, Synced, Alloc, CopyTables, ShareEntries, CopyOne, Get;
      ghost var m := State();
      ok := MakeDirectory(dst);
      NewDirectoryIsBlank(m, dst);
      if !ok { return; }
      ghost var m1 := State();
      ok := CopyUserTables(src, dst);
      if !ok { return; }
      CopyTablesCopy(m1, src, dst, KTABLE_START);
      ShareKernelEntries(dst);
      ShareFields(CopyTables(m1, src, dst, KTABLE_START).value, dst);
      procs := procs + [dst];
    }

    method MakeDirectory(id: PmapId) returns (ok: bool)
      requires Good(State())
      modifies this
      ensures ok == NewDirectory(old(State()), id).Some?
      ensures ok ==> NewDirectory(old(State()), id) == Some(State())
    {
      hide Alloc, WellFormed, Synced;
      var got, d := PageTableAllocate(Directory(id));
      if got { pdbr := pdbr[id := d]; }
      ok := got;
    }

    /** Lines 323-338. */
    method CopyUserTables(src: PmapId, dst: PmapId) returns (ok: bool)
      requires CopiedTo(State(), src, dst, 0)
      modifies this
      ensures ok == CopyTables(old(State()), src, dst, KTABLE_START).Some?
      ensures ok ==> CopyTables(old(State()), src, dst, KTABLE_START) == Some(State())
    {
      hide CopiedTo, CopyOne;
      ghost var m := State();
      var n := 0;
      while n < KTABLE_START
        invariant 0 <= n <= KTABLE_START
        invariant CopyTables(m, src, dst, n) == Some(State())
        invariant CopiedTo(State(), src, dst, n)
      {
        CopyOneExtends(State(), src, dst, n);
        ok := CopyTable(src, dst, n);
        if !ok {
          CopyTablesStops(m, src, dst, n + 1, KTABLE_START);
          return;
        }
        n := n + 1;
      }
      ok := true;
    }

    /** One round of the loop of lines 323-338. */
    method CopyTable(src: PmapId, dst: PmapId, i: nat) returns (ok: bool)
      requires CopiedTo(State(), src, dst, i) && i < KTABLE_START
      modifies this
      ensures ok == CopyOne(old(State()), src, dst, i).Some?
      ensures ok ==> CopyOne(old(State()), src, dst, i) == Some(State())
    {
      hide WellFormed, Synced, Alloc;
      ghost var m := State();
      DirectoryInMemory(m, src);
      if mem[DirOf(src)][i] == ZERO { return true; }
      UserWalk(m, src, i);
      HoldsInMemory(m, Get(m, Dir(m, src), i).frame, UserTable(src, i));
      var e := mem[DirOf(src)][i];
      var got, t := PageTableAllocate(UserTable(dst, i));
      AllocTaken(m, UserTable(dst, i));
      if !got { return false; }
      ghost var m1 := State();
      KeptTable(m, m1, e.frame, src, i, 0);
      HoldsInMemory(m1, e.frame, UserTable(src, i));
      HoldsInMemory(m1, t, UserTable(dst, i));
      DirectoryInMemory(m1, dst);
      ClearTable(m1, t);
      CopyEntries(t, e.frame);
      WriteEntry(DirOf(dst), i, Pte(t, e.bits));
      ok := true;
    }

    /** pmap_share_kernel, and the listing of the new process with its map. */
    method PmapShareKernel(dst: PmapId) returns (ok: bool)
      requires Good(State()) && dst != KERNEL && Dir(State(), dst) == 0
      modifies this
      ensures ok == ShareKernel(old(State()), dst).Some?
      ensures ok ==> ShareKernel(old(State()), dst) == Some(State())
    {
      hide WellFormed, Synced, NewDirectory, ShareEntries, Get;
      NewDirectoryIsBlank(State(), dst);
      ok := MakeDirectory(dst);
      if !ok { return; }
      ghost var m1 := State();
      ShareKernelEntries(dst);
      ShareFields(m1, dst);
      procs := procs + [dst];
    }

    /** pmap_cow: `start` and `end` are addresses. */
    method PmapCow(id: PmapId, start: nat, end: nat)
      requires Rewritable(id, start, end)
      modifies this`mem, this`low
      ensures State() == if Dir(old(State()), id) == 0 then old(State())
                         else Rewrite(old(State()), id, start / PAGE_SIZE, PagesIn(start, end), MakeReadOnly)
    {
      if DirOf(id) == 0 { return; }
      RewriteRange(id, start, end, MakeReadOnly);
    }

    /** pmap_protect: `svaddr` and `evaddr` are addresses. */
    method PmapProtect(id: PmapId, svaddr: nat, evaddr: nat, prot: bv8) returns (ret: int)
      requires Rewritable(id, svaddr, evaddr)
      modifies this`mem, this`low
      ensures ret == if Dir(old(State()), id) == 0 then 0 else 1
      ensures State() == if Dir(old(State()), id) == 0 then old(State())
                         else Rewrite(old(State()), id, svaddr / PAGE_SIZE, PagesIn(svaddr, evaddr), Protect(prot))
    {
      if DirOf(id) == 0 { return 0; }
      RewriteRange(id, svaddr, evaddr, Protect(prot));
      ret := 1;
    }

    /** Any range that the loop gets to the end of; above KERNEL_BASE, of a map whose process is listed. */
    ghost predicate Rewritable(id: PmapId, start: nat, end: nat)
      reads this
    {
      && Good(State()) && id != KERNEL && start < ADDRESSES && end < ADDRESSES
      && (Dir(State(), id) != 0 ==> Stops(start, end))
      && (id in procs || start / PAGE_SIZE + PagesIn(start, end) <= KERNEL_PAGE)
    }

    /** The common loop of pmap_cow and pmap_protect. */
    method RewriteRange(id: PmapId, start: nat, end: nat, c: BitChange)
      requires Rewritable(id, start, end) && Dir(State(), id) != 0
      modifies this`mem, this`low
      ensures State() == Rewrite(old(State()), id, start / PAGE_SIZE, PagesIn(start, end), c)
    {
      hide WellFormed, Synced, Rewrite, RewriteOne, Lookup, Stops, Step, PagesIn;
      StopsIff(start, end);
      ghost var m, v0, n, k := State(), start / PAGE_SIZE, PagesIn(start, end), 0;
      var addr := start;
      while addr < end
        invariant 0 <= k <= n && addr == start + k * PAGE_SIZE
        invariant Good(State()) && Dir(State(), id) != 0 && procs == m.procs
        invariant Rewrite(m, id, v0, n, c) == Rewrite(State(), id, v0 + k, n - k, c)
        decreases n - k
      {
        PagesInFit(start, end, k);
        RoundInMap(start, n, k);
        ghost var now := State();
        assert Seen(now, id, v0 + k);
        RewriteEntry(id, addr / PAGE_SIZE, c);
        RewriteOneSeen(now, id, v0 + k, c);
        RewriteStep(now, id, v0 + k, n - k, c);
        addr := (addr + PAGE_SIZE) % ADDRESSES;
        k := k + 1;
      }
      PagesInFit(start, end, k);
      RewriteNone(State(), id, v0 + k, c);
    }

    /** One round of that loop: the entry is looked for without asking whether there is a table. */
    method RewriteEntry(id: PmapId, v: nat, c: BitChange)
      requires Good(State()) && Seen(State(), id, v) && Dir(State(), id) != 0
      modifies this`mem, this`low
      ensures State() == RewriteOne(old(State()), id, v, c)
    {
      hide WellFormed, Synced, ChangedEntry, RoleAt;
      ghost var now := State();
      HighPde(v);
      DirectoryInMemory(now, id);
      SeenTable(now, id, v);
      var pde, i := mem[DirOf(id)][Pde(v)], Index(v);
      if pde == ZERO {
        low := low[i := ChangedEntry(c, low[i])];
      } else {
        HoldsInMemory(now, pde.frame, RoleAt(id, v));
        WriteEntry(pde.frame, i, ChangedEntry(c, mem[pde.frame][i]));
      }
    }
  }

  lemma StepStart(paddr: nat)
    requires paddr < ADDRESSES
    ensures Step(paddr, 0) == paddr
  {
  }

  lemma VisitedPages(paddr: nat, limit: nat, k: nat)
    requires paddr < ADDRESSES && limit < ADDRESSES && RangeStops(paddr, limit)
    requires k <= Visited(paddr, limit) && Step(paddr, k) <= LastAddress(paddr, limit)
    ensures k < Visited(paddr, limit) && Step(paddr, k) == paddr + k * PAGE_SIZE < ADDRESSES
  {
    RangeStopsIff(paddr, limit);
    AlignedIs(limit);
  }

  /** The page of the stepped address, modulo the number of pages. */
  lemma StepPage(vaddr: nat, k: nat)
    requires vaddr < ADDRESSES
    ensures Step(vaddr, k) < ADDRESSES && Step(vaddr, k) / PAGE_SIZE == (vaddr / PAGE_SIZE + k) % NPAGES < NPAGES
    ensures vaddr / PAGE_SIZE + k < NPAGES ==> Step(vaddr, k) / PAGE_SIZE == vaddr / PAGE_SIZE + k
  {
    NextPage(vaddr, k);
    var x := vaddr + k * PAGE_SIZE;
    var q, s := x / ADDRESSES, x % ADDRESSES;
    assert x == q * ADDRESSES + s == s + (q * NPAGES) * PAGE_SIZE;
    NextPage(s, q * NPAGES);
    assert x / PAGE_SIZE == s / PAGE_SIZE + q * NPAGES;
    DivUnique(x / PAGE_SIZE, NPAGES, q, s / PAGE_SIZE);
  }

  lemma NextModulo(v: nat, k: nat)
    ensures (v + (k + 1)) % NPAGES == ((v + k) % NPAGES + 1) % NPAGES
  {
  }

  lemma RoundInMap(start: nat, n: nat, k: nat)
    requires k < n && start + n * PAGE_SIZE < ADDRESSES
    ensures (start + k * PAGE_SIZE) / PAGE_SIZE == start / PAGE_SIZE + k < NPAGES
    ensures start + (k + 1) * PAGE_SIZE < ADDRESSES
  {
    NextPage(start, k);
  }

  lemma RewriteStep(m: Machine, id: PmapId, v: nat, n: nat, c: BitChange)
    requires n > 0
    ensures Rewrite(m, id, v, n, c) == Rewrite(RewriteOne(m, id, v, c), id, v + 1, n - 1, c)
  {
  }

  lemma RewriteNone(m: Machine, id: PmapId, v: nat, c: BitChange)
    ensures Rewrite(m, id, v, 0, c) == m
  {
  }

  lemma ClearTable(m: Machine, t: Frame)
    requires t in m.mem && forall j :: Get(m, t, j) == ZERO
    ensures m.mem[t] == NewTable()
  {
    forall j | 0 <= j < NTABLES ensures m.mem[t][j] == NewTable()[j] { assert Get(m, t, j) == ZERO; }
  }

  lemma {:induction false} CopyTablesStops(m: Machine, src: PmapId, dst: PmapId, k: nat, n: nat)
    requires k <= n && CopyTables(m, src, dst, k) == None
    ensures CopyTables(m, src, dst, n) == None
    decreases n
  {
    if k < n { CopyTablesStops(m, src, dst, k, n - 1); }
  }
}
