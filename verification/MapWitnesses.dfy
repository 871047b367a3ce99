/**
 Concrete machines on which the page-table routines do what they should not: a process that gets a
 kernel table of its own, a protection change that writes into frame 0, and a kernel page table whose
 own page is not mapped any more.
 */
module MapWitnesses {
  import opened Types
  import opened PageTables
  import opened PageTableProofs
  import opened UserMaps
  import opened MapRuns
  import opened KernelTables
  import opened MapFrames
  import opened RangeEnters

  /** One process, numbered 7; the kernel has one table, in frame 2, for the region of frames 0x400 to 0x7FF. */
  function Sample(free: seq<Frame>): Machine {
    var dir := NewTable()[897 := Pte(2, RW_PRESENT)];
    Machine(map[1 := dir, 2 := NewTable(), 3 := dir], free, map[KERNEL := 1, 7 := 3], [7],
            NewTable()[0 := Pte(0, PAGE_RW)],
            map[1 := Directory(KERNEL), 2 := KernelTable(897), 3 := Directory(7)])
  }

  lemma SampleGood(free: seq<Frame>)
    requires LowFrames(free) && forall i :: 0 <= i < |free| ==> free[i] > 3
    ensures Good(Sample(free)) && Tables(Sample(free)) == {897}
  {
    var m := Sample(free);
    assert forall f, i: nat :: i != 897 ==> Get(m, f, i) == ZERO;
    assert Get(m, 1, 897) == Get(m, 3, 897) == Pte(2, RW_PRESENT) && Get(m, 2, 897) == Get(m, 0, 897) == ZERO;
    forall id ensures DirOk(m, id) {
    }
    forall id, i | id != KERNEL && 0 <= i < KTABLE_START ensures UserEntryOk(m, id, i) {
    }
    forall i | 0 <= i < NTABLES ensures KernelEntryOk(m, i) {
    }
  }

  lemma SampleRegions()
    ensures Region(5) == Region(6) == 896 && Region(0x400) == Region(0x401) == 897 && Region(0x800) == 898
  {
    assert KernelPage(5) == 0xE0005 && KernelPage(6) == 0xE0006;
    assert KernelPage(0x400) == 0xE0400 && KernelPage(0x401) == 0xE0401 && KernelPage(0x800) == 0xE0800;
  }

  /** pmap_enter of the first kernel page through the map of the process. */
  lemma ProcessGetsOwnKernelTable(frame: Frame, prot: bv12)
    ensures var m := Sample([0x400]);
            var r := Enter(m, 7, frame, KERNEL_PAGE, prot);
            && Good(m) && 7 in m.procs && r.Some? && !Synced(r.value)
            && Get(r.value, 3, 896) == Pte(0x400, PAGE_PRESENT | prot) && Get(r.value, 1, 896) == ZERO
  {
    hide WellFormed, Synced, Alloc;
    var m := Sample([0x400]);
    SampleGood([0x400]);
    SampleRegions();
    AllocNests(m, UserTable(7, 896));
    AllocTaken(m, UserTable(7, 896));
    EnterSharedSplits(m, 7, frame, KERNEL_PAGE, prot);
    var m1 := Alloc(m, UserTable(7, 896)).value.0;
    assert Get(m1, 1, 896) == NestEntry(m.free, 0, 896, Get(m, 1, 896));
    HoldsInMemory(m1, 3, Directory(7));
  }

  /** pmap_enter_range of two pages, the last user page and the first kernel page. */
  lemma RangeAcrossKernelBase(frame: Frame, prot: bv12)
    ensures var m := Sample([0x400, 0x401]);
            var r := EnterRange(m, 7, frame, KERNEL_PAGE - 1, 2, prot);
            Good(m) && 7 in m.procs && r.Some? && !Synced(r.value)
  {
    hide WellFormed, Synced, Enter, Get, Tables, First, Supply, Region;
    var m, v := Sample([0x400, 0x401]), KERNEL_PAGE - 1;
    SampleGood([0x400, 0x401]);
    FirstUserPage(frame, prot);
    EnterUpdates(m, 7, frame, v, prot);
    var m1 := Enter(m, 7, frame, v, prot).value;
    OnlyTable(m1);
    EnterSharedSucceedsIff(m1, 7, frame + 1, KERNEL_PAGE, prot);
    EnterSharedSplits(m1, 7, frame + 1, KERNEL_PAGE, prot);
    var r2 := Enter(m1, 7, frame + 1, KERNEL_PAGE, prot);
    RangeStep(m, 7, frame, v, 2, prot);
    RangeStep(m1, 7, frame + 1, KERNEL_PAGE, 1, prot);
    RangeNone(r2.value, 7, frame + 2, KERNEL_PAGE + 1, prot);
  }

  lemma FirstUserPage(frame: Frame, prot: bv12)
    ensures var r := Enter(Sample([0x400, 0x401]), 7, frame, KERNEL_PAGE - 1, prot);
            r.Some? && Tables(r.value) == {897} && r.value.free == [0x401]
  {
    hide WellFormed, Synced, Enter, Tables;
    var m := Sample([0x400, 0x401]);
    SampleGood([0x400, 0x401]);
    SampleRegions();
    EnterTakesExactly(m, 7, frame, KERNEL_PAGE - 1, prot);
    assert PagesToEnter(m, 7, KERNEL_PAGE - 1) == 1;
    SupplyReady(Tables(m), m.free, 1);
    assert m.free[1..] == [0x401];
  }

  lemma OnlyTable(m: Machine)
    requires Tables(m) == {897} && m.free == [0x401]
    ensures Get(m, Dir(m, KERNEL), Pde(KERNEL_PAGE)) == ZERO && First(Tables(m), m.free) == 0
  {
    SampleRegions();
    assert 896 !in Tables(m);
  }

  /** pmap_cow of the first page, which has no table: only the word at physical address 0 changes. */
  lemma StrayStore()
    ensures var m := Sample([]);
            var m' := Rewrite(m, 7, 0, 1, MakeReadOnly);
            && Good(m) && Seen(m, 7, 0) && !Backed(m, 7, 0, 1)
            && m.low[0] == Pte(0, PAGE_RW) && m' == m.(low := m.low[0 := ZERO])
  {
    SampleGood([]);
    var m := Sample([]);
    assert Get(m, Dir(m, 7), Pde(0)) == ZERO;
    assert Changed(MakeReadOnly, PAGE_RW) == 0;
    var m1 := RewriteOne(m, 7, 0, MakeReadOnly);
    assert m1 == m.(low := m.low[0 := ZERO]);
    assert Rewrite(m1, 7, 1, 0, MakeReadOnly) == m1;
  }

  /** Frames 5 and 6 in one region without a table: frame 6 becomes its table and is not mapped. */
  lemma TableLosesItsPage(role: Role)
    ensures var m := Sample([5, 6, 0x400]);
            var r := Alloc(m, role);
            && Good(m) && r.Some? && r.value.0.free == []
            && Get(r.value.0, 1, 896) == Pte(6, RW_PRESENT) && Lookup(r.value.0, KERNEL, KernelPage(6)) == ZERO
            && Lookup(r.value.0, KERNEL, KernelPage(5)) == Pte(5, RW_PRESENT)
  {
    hide WellFormed, Synced, Alloc, Get, Lookup, Tables, Region;
    var free := [5, 6, 0x400];
    SampleGood(free);
    SampleRegions();
    assert Region(free[0]) == Region(free[1]) == 896 && Region(free[2]) == 897;
    assert First(Tables(Sample(free)), free) == 2;
    NestMappedIff(Sample(free), role);
    assert Crowded(free, 1) && !Crowded(free, 0);
    assert Lookup(Alloc(Sample(free), role).value.0, KERNEL, KernelPage(free[1])) == ZERO;
    assert Lookup(Alloc(Sample(free), role).value.0, KERNEL, KernelPage(free[0])) == Pte(free[0], RW_PRESENT);
  }

  /** The same two levels further in: frame 0x800 keeps its page, and its table, frame 6, does not. */
  lemma DeeperTableLosesItsPage(role: Role)
    ensures var m := Sample([5, 0x800, 6, 0x400]);
            var r := Alloc(m, role);
            && Good(m) && r.Some? && r.value.0.free == []
            && Get(r.value.0, 1, 898) == Pte(6, RW_PRESENT) && Lookup(r.value.0, KERNEL, KernelPage(6)) == ZERO
            && Lookup(r.value.0, KERNEL, KernelPage(0x800)) == Pte(0x800, RW_PRESENT)
  {
    hide WellFormed, Synced, Alloc, Get, Lookup, Tables, Region;
    var free := [5, 0x800, 6, 0x400];
    SampleGood(free);
    SampleRegions();
    assert Region(free[0]) == Region(free[2]) == 896 && Region(free[1]) == 898 && Region(free[3]) == 897;
    assert First(Tables(Sample(free)), free) == 3;
    NestMappedIff(Sample(free), role);
    assert Crowded(free, 2) && !Crowded(free, 1);
    assert Lookup(Alloc(Sample(free), role).value.0, KERNEL, KernelPage(free[2])) == ZERO;
    assert Lookup(Alloc(Sample(free), role).value.0, KERNEL, KernelPage(free[1])) == Pte(free[1], RW_PRESENT);
  }
}
