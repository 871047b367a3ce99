/**
 pmap_enter on the user half of a map refines the update of one page of an abstract map from
 (pmap, page) to entry; pmap_enter_range is its iteration; pmap_cow and pmap_protect change the RW
 bit and nothing else.
 */
module UserMaps {
  import opened Types
  import opened PageTables
  import opened PageTableProofs

  ghost predicate Good(m: Machine) { WellFormed(m) && Synced(m) }

  /** A user page: of any map but the kernel's, below KERNEL_BASE. */
  ghost predicate UserPage(id: PmapId, vpage: nat) { id != KERNEL && vpage < KERNEL_PAGE }

  lemma PageSplit(v: nat, w: nat)
    requires v < NPAGES && w < NPAGES && Pde(v) == Pde(w) && Index(v) == Index(w)
    ensures v == w
  {
  }

  /** A user translation goes through a user entry and a user table. */
  lemma UserWalk(m: Machine, id: PmapId, i: nat)
    requires WellFormed(m) && id != KERNEL && i < KTABLE_START
    ensures Get(m, Dir(m, id), i) != ZERO ==>
              Dir(m, id) != 0 && Holds(m, Dir(m, id), Directory(id))
              && Holds(m, Get(m, Dir(m, id), i).frame, UserTable(id, i))
  {
    assert UserEntryOk(m, id, i) && DirOk(m, id);
  }

  lemma KeptEntry(m: Machine, m': Machine, id: PmapId, i: nat)
    requires Good(m) && Good(m') && Kept(m, m') && id != KERNEL && i < KTABLE_START
    ensures Dir(m', id) == Dir(m, id)
    ensures Get(m', Dir(m', id), i) == Get(m, Dir(m, id), i)
  {
    assert DirOk(m, id);
    if Dir(m, id) != 0 { assert UserPart(m.procs, m.role[Dir(m, id)], i); }
  }

  lemma KeptTable(m: Machine, m': Machine, t: Frame, id: PmapId, i: nat, j: nat)
    requires Kept(m, m') && Holds(m, t, UserTable(id, i))
    ensures Get(m', t, j) == Get(m, t, j) && Holds(m', t, UserTable(id, i))
  {
    assert UserPart(m.procs, m.role[t], j);
  }

  ghost predicate SameLookups(m: Machine, m': Machine) {
    forall id, v :: UserPage(id, v) ==> Lookup(m', id, v) == Lookup(m, id, v)
  }

  /** Whatever the kernel maps for itself, no user translation changes. */
  lemma KeptLookups(m: Machine, m': Machine)
    requires Good(m) && Good(m') && Kept(m, m')
    ensures SameLookups(m, m')
  {
    hide WellFormed, Synced, Kept, Get;
    forall id, v | UserPage(id, v) ensures Lookup(m', id, v) == Lookup(m, id, v) {
      HighPde(v);
      KeptEntry(m, m', id, Pde(v));
      var e := Get(m, Dir(m, id), Pde(v));
      if e != ZERO {
        UserWalk(m, id, Pde(v));
        KeptTable(m, m', e.frame, id, Pde(v), Index(v));
      }
    }
  }

  // ---------- one page ----------

  /** `m'` is `m` with user page `v` of map `id` mapped by `e`, and every other user page of every map as before. */
  ghost predicate Updates(m: Machine, m': Machine, id: PmapId, v: nat, e: Pte) {
    && Lookup(m', id, v) == e
    && forall id2, w :: UserPage(id2, w) && (id2 != id || w != v) ==> Lookup(m', id2, w) == Lookup(m, id2, w)
  }

  /** Writing into user tables leaves every directory, and so the invariant, alone. */
  lemma PutTableKeeps(m: Machine, t: Frame, i: nat, e: Pte, id: PmapId, k: nat)
    requires WellFormed(m) && Holds(m, t, UserTable(id, k))
    ensures WellFormed(Put(m, t, i, e)) && (Synced(m) ==> Synced(Put(m, t, i, e)))
  {
    var m' := Put(m, t, i, e);
    forall g, j | g in m.role && m.role[g].Directory? ensures Get(m', g, j) == Get(m, g, j) {
      GetPut(m, t, i, e, g, j);
    }
    hide Get, Put;
    PutFields(m, t, i, e);
    forall x ensures DirOk(m', x) { assert DirOk(m, x); }
    forall x, j | x != KERNEL && 0 <= j < KTABLE_START ensures UserEntryOk(m', x, j) {
      assert UserEntryOk(m, x, j) && DirOk(m, x);
      NoDirectory(m, m', x, j);
    }
    forall j | 0 <= j < NTABLES ensures KernelEntryOk(m', j) {
      assert KernelEntryOk(m, j) && DirOk(m, KERNEL);
    }
    forall p, j | Synced(m) && p in m'.procs && KTABLE_START <= j < NTABLES
      ensures Get(m', Dir(m', p), j) == Get(m', Dir(m', KERNEL), j)
    {
      assert DirOk(m, p) && DirOk(m, KERNEL);
    }
  }

  lemma PutFields(m: Machine, f: Frame, i: nat, e: Pte)
    ensures var m' := Put(m, f, i, e);
            && m'.role == m.role && m'.pdbr == m.pdbr && m'.procs == m.procs && m'.free == m.free
            && m'.mem.Keys == m.mem.Keys && m' == m.(mem := m'.mem)
  {
  }

  lemma NoDirectory(m: Machine, m': Machine, id: PmapId, j: nat)
    requires 0 !in m.mem && m'.mem.Keys == m.mem.Keys
    ensures Get(m', 0, j) == Get(m, 0, j) == ZERO
  {
  }

  /** A page whose table the invariant speaks of: a user page, or a kernel page of the kernel or of a listed map. */
  ghost predicate Seen(m: Machine, id: PmapId, v: nat) {
    v < NPAGES && if v < KERNEL_PAGE then id != KERNEL else id == KERNEL || id in m.procs
  }

  /** Page `v` of `id` and page `w` of `id2` have one entry: kernel pages are shared, user pages are not. */
  ghost predicate OnePage(id: PmapId, v: nat, id2: PmapId, w: nat) {
    w == v && (id2 == id || v >= KERNEL_PAGE)
  }

  ghost function RoleAt(id: PmapId, v: nat): Role {
    if v < KERNEL_PAGE then UserTable(id, Pde(v)) else KernelTable(Pde(v))
  }

  lemma SeenTable(m: Machine, id: PmapId, v: nat)
    requires Good(m) && Seen(m, id, v)
    ensures Get(m, Dir(m, id), Pde(v)) != ZERO ==> Holds(m, Get(m, Dir(m, id), Pde(v)).frame, RoleAt(id, v))
    ensures v >= KERNEL_PAGE ==> Get(m, Dir(m, id), Pde(v)) == Get(m, Dir(m, KERNEL), Pde(v))
  {
    HighPde(v);
    if v < KERNEL_PAGE {
      UserWalk(m, id, Pde(v));
    } else {
      assert id in m.procs ==> Get(m, Dir(m, id), Pde(v)) == Get(m, Dir(m, KERNEL), Pde(v));
      assert KernelEntryOk(m, Pde(v));
    }
  }

  /** Writing the entry of a page that has a table changes that page, in every map that shares it, and no other. */
  lemma PutSeen(m: Machine, id: PmapId, v: nat, e: Pte)
    requires Good(m) && Seen(m, id, v) && Get(m, Dir(m, id), Pde(v)) != ZERO
    ensures var m' := Put(m, Get(m, Dir(m, id), Pde(v)).frame, Index(v), e);
            && Good(m') && m' == m.(mem := m'.mem)
            && (forall id2, i :: Get(m', Dir(m, id2), i) == Get(m, Dir(m, id2), i))
            && (forall id2, w :: Seen(m, id2, w) ==>
                  Lookup(m', id2, w) == if OnePage(id, v, id2, w) then e else Lookup(m, id2, w))
  {
    hide WellFormed, Synced, Put, Get;
    SeenTable(m, id, v);
    var t := Get(m, Dir(m, id), Pde(v)).frame;
    var m' := Put(m, t, Index(v), e);
    PutAnyTable(m, t, Index(v), e, RoleAt(id, v));
    PutFields(m, t, Index(v), e);
    HoldsInMemory(m, t, RoleAt(id, v));
    forall id2, i ensures Get(m', Dir(m, id2), i) == Get(m, Dir(m, id2), i) {
      DirectoryIsNoTable(m, id2, t, RoleAt(id, v));
      GetPut(m, t, Index(v), e, Dir(m, id2), i);
    }
    forall id2, w | Seen(m, id2, w)
      ensures Lookup(m', id2, w) == if OnePage(id, v, id2, w) then e else Lookup(m, id2, w)
    {
      SeenTable(m, id2, w);
      HighPde(w);
      HighPde(v);
      var d := Get(m, Dir(m, id2), Pde(w));
      if d != ZERO {
        GetPut(m, t, Index(v), e, d.frame, Index(w));
        if d.frame == t && Index(w) == Index(v) { PageSplit(v, w); }
      }
    }
  }

  lemma PutAnyTable(m: Machine, t: Frame, i: nat, e: Pte, role: Role)
    requires WellFormed(m) && Holds(m, t, role) && !role.Directory?
    ensures WellFormed(Put(m, t, i, e)) && (Synced(m) ==> Synced(Put(m, t, i, e)))
  {
    hide WellFormed, Synced, Put;
    match role
    case UserTable(id, k) => PutTableKeeps(m, t, i, e, id, k);
    case KernelTable(k) =>
      PutKernelTableKeeps(m, t, i, e, k);
      if Synced(m) { KeptSynced(m, Put(m, t, i, e)); }
  }

  lemma EnterPresent(m: Machine, id: PmapId, v: nat, e: Pte)
    requires Good(m) && UserPage(id, v) && Get(m, Dir(m, id), Pde(v)) != ZERO
    ensures var m' := Put(m, Get(m, Dir(m, id), Pde(v)).frame, Index(v), e);
            Good(m') && Updates(m, m', id, v, e)
  {
    hide WellFormed, Synced, Put, Get, Lookup;
    PutSeen(m, id, v, e);
    assert Seen(m, id, v);
    assert forall id2, w :: UserPage(id2, w) ==> Seen(m, id2, w);
  }

  lemma HoldsInMemory(m: Machine, f: Frame, role: Role)
    requires WellFormed(m) && Holds(m, f, role)
    ensures f in m.mem && f != 0
  {
  }

  lemma KernelDirectory(m: Machine)
    requires WellFormed(m)
    ensures Dir(m, KERNEL) != 0 && Dir(m, KERNEL) in m.mem
  {
    assert DirOk(m, KERNEL);
  }

  lemma ListedHasDirectory(m: Machine, id: PmapId)
    requires WellFormed(m) && id in m.procs
    ensures id != KERNEL && Dir(m, id) != 0 && Dir(m, KERNEL) != 0
  {
  }

  lemma GoodPop(m: Machine)
    requires WellFormed(m) && m.free != []
    ensures 0 < m.free[0] < 0x20000
    ensures var m0 := m.(free := m.free[1..]);
            && WellFormed(m0) && (Synced(m) ==> Synced(m0)) && (forall g, i :: Get(m0, g, i) == Get(m, g, i))
            && (forall id, v :: Lookup(m0, id, v) == Lookup(m, id, v))
            && Dir(m0, KERNEL) == Dir(m, KERNEL)
  {
    FreeFrame(m, m.free[0]);
    PopKeeps(m);
    if Synced(m) { KeptSynced(m, m.(free := m.free[1..])); }
  }

  lemma DirectoryIsNoTable(m: Machine, id: PmapId, t: Frame, role: Role)
    requires WellFormed(m) && Holds(m, t, role) && !role.Directory?
    ensures Dir(m, id) != t
  {
    assert DirOk(m, id);
  }

  // ---------- a new table ----------

  lemma LinkUserKeeps(m: Machine, id: PmapId, i: nat, t: Frame, bits: bv12)
    requires WellFormed(m) && id != KERNEL && i < KTABLE_START && Dir(m, id) != 0 && Holds(m, t, UserTable(id, i))
    ensures var m' := Put(m, Dir(m, id), i, Pte(t, bits)); WellFormed(m') && (Synced(m) ==> Synced(m'))
  {
    hide Put, Get;
    var d, e := Dir(m, id), Pte(t, bits);
    var m' := Put(m, d, i, e);
    PutFields(m, d, i, e);
    assert DirOk(m, id);
    forall x ensures DirOk(m', x) { assert DirOk(m, x); }
    forall x, j | x != KERNEL && 0 <= j < KTABLE_START ensures UserEntryOk(m', x, j) {
      assert UserEntryOk(m, x, j) && DirOk(m, x);
      GetPut(m, d, i, e, Dir(m, x), j);
    }
    forall j | 0 <= j < NTABLES ensures KernelEntryOk(m', j) {
      assert KernelEntryOk(m, j) && DirOk(m, KERNEL);
      GetPut(m, d, i, e, Dir(m, KERNEL), j);
    }
    forall p, j | Synced(m) && p in m'.procs && KTABLE_START <= j < NTABLES
      ensures Get(m', Dir(m', p), j) == Get(m', Dir(m', KERNEL), j)
    {
      assert DirOk(m, p) && DirOk(m, KERNEL);
      GetPut(m, d, i, e, Dir(m, p), j);
      GetPut(m, d, i, e, Dir(m, KERNEL), j);
    }
  }

  /** Entering an empty table changes no translation. */
  lemma LinkUserLookups(m: Machine, id: PmapId, i: nat, t: Frame, bits: bv12)
    requires Good(m) && id != KERNEL && i < KTABLE_START && Dir(m, id) != 0 && Holds(m, t, UserTable(id, i))
    requires Get(m, Dir(m, id), i) == ZERO && forall j :: Get(m, t, j) == ZERO
    ensures SameLookups(m, Put(m, Dir(m, id), i, Pte(t, bits)))
  {
    hide Put, Get, WellFormed, Synced;
    var d, e := Dir(m, id), Pte(t, bits);
    var m' := Put(m, d, i, e);
    PutFields(m, d, i, e);
    forall id2, w | UserPage(id2, w) ensures Lookup(m', id2, w) == Lookup(m, id2, w) {
      GetPut(m, d, i, e, Dir(m, id2), Pde(w));
      HighPde(w);
      DirectoryIsNoTable(m, id, t, UserTable(id, i));
      DistinctDirectories(m, id, id2);
      GetPut(m, d, i, e, t, Index(w));
      var x := Get(m, Dir(m, id2), Pde(w));
      if x != ZERO {
        UserWalk(m, id2, Pde(w));
        DirectoryIsNoTable(m, id, x.frame, UserTable(id2, Pde(w)));
        GetPut(m, d, i, e, x.frame, Index(w));
      }
    }
  }

  lemma DistinctDirectories(m: Machine, id: PmapId, id2: PmapId)
    requires WellFormed(m) && Dir(m, id) != 0
    ensures Dir(m, id) == Dir(m, id2) ==> id == id2
  {
    assert DirOk(m, id) && DirOk(m, id2);
  }

  /** A map that has a directory. */
  lemma EnterMappedUpdates(m: Machine, id: PmapId, frame: Frame, v: nat, prot: bv12)
    requires Good(m) && UserPage(id, v) && Dir(m, id) != 0
    ensures var r := EnterMapped(m, id, frame, v, prot);
            r.Some? ==>
              && Good(r.value) && Updates(m, r.value, id, v, Pte(frame, PAGE_PRESENT | prot))
              && r.value.pdbr == m.pdbr && r.value.procs == m.procs
  {
    hide WellFormed, Synced, Kept, Get, Put, Alloc, Lookup;
    HighPde(v);
    var d, i, e := Dir(m, id), Pde(v), Pte(frame, PAGE_PRESENT | prot);
    if Get(m, d, i) == ZERO {
      AllocTaken(m, UserTable(id, i));
      var a := Alloc(m, UserTable(id, i));
      if a.Some? {
        var (m1, t) := a.value;
        var e0 := Pte(t, PAGE_PRESENT | prot);
        KeptEntry(m, m1, id, i);
        KeptLookups(m, m1);
        LinkUserKeeps(m1, id, i, t, PAGE_PRESENT | prot);
        LinkUserLookups(m1, id, i, t, PAGE_PRESENT | prot);
        var m2 := Put(m1, d, i, e0);
        PutFields(m1, d, i, e0);
        DirectoryInMemory(m1, id);
        GetPut(m1, d, i, e0, d, i);
        EnterPresent(m2, id, v, e);
        PutFields(m2, t, Index(v), e);
      }
    } else {
      EnterPresent(m, id, v, e);
      PutFields(m, Get(m, d, i).frame, Index(v), e);
    }
  }

  lemma DirectoryInMemory(m: Machine, id: PmapId)
    requires WellFormed(m) && Dir(m, id) != 0
    ensures Dir(m, id) in m.mem && Holds(m, Dir(m, id), Directory(id))
  {
    assert DirOk(m, id);
  }

  lemma AllocTaken(m: Machine, role: Role)
    requires WellFormed(m)
    ensures var r := Alloc(m, role);
            r.Some? ==>
              && WellFormed(r.value.0) && (Synced(m) ==> Synced(r.value.0))
              && Kept(m, r.value.0) && Holds(r.value.0, r.value.1, role)
              && r.value.1 != 0 && r.value.1 !in m.role
              && r.value.0.pdbr == m.pdbr && r.value.0.procs == m.procs
              && forall j :: Get(r.value.0, r.value.1, j) == ZERO
  {
    AllocKeeps(m, role);
    FreeIsOwn(m);
    hide Alloc, WellFormed, Synced;
    var r := Alloc(m, role);
    if r.Some? && Synced(m) { KeptSynced(m, r.value.0); }
  }

  lemma FreeIsOwn(m: Machine)
    requires WellFormed(m)
    ensures forall f :: f in m.free ==> f !in m.role
  {
  }

  /** Giving a map without one a clear directory changes no translation: it maps nothing before or after. */
  lemma SetDirectory(m: Machine, id: PmapId, d: Frame)
    requires WellFormed(m) && id != KERNEL && Dir(m, id) == 0 && d != 0 && Holds(m, d, Directory(id))
    requires forall j :: Get(m, d, j) == ZERO
    ensures var m' := m.(pdbr := m.pdbr[id := d]);
            WellFormed(m') && (Synced(m) ==> Synced(m')) && SameLookups(m, m') && Dir(m', id) == d
  {
    var m' := m.(pdbr := m.pdbr[id := d]);
    assert forall f, i :: Get(m', f, i) == Get(m, f, i);
    assert forall x :: Dir(m', x) == if x == id then d else Dir(m, x);
    assert Get(m, 0, 0) == ZERO;
    forall x ensures DirOk(m', x) { assert DirOk(m, x); }
    forall x, j | x != KERNEL && 0 <= j < KTABLE_START ensures UserEntryOk(m', x, j) {
      assert UserEntryOk(m, x, j);
    }
    forall j | 0 <= j < NTABLES ensures KernelEntryOk(m', j) { assert KernelEntryOk(m, j); }
  }

  /**
   pmap_enter on a user page: the page is mapped to (frame | PRESENT | protection), no other user
   page of any map changes, and the invariant and the shared kernel half are kept.
   */
  lemma EnterUpdates(m: Machine, id: PmapId, frame: Frame, v: nat, prot: bv12)
    requires Good(m) && UserPage(id, v)
    ensures var r := Enter(m, id, frame, v, prot);
            r.Some? ==>
              && Good(r.value) && Updates(m, r.value, id, v, Pte(frame, PAGE_PRESENT | prot))
              && r.value.procs == m.procs && (forall x :: x != id ==> Dir(r.value, x) == Dir(m, x))
  {
    hide WellFormed, Synced, Kept, Get, Alloc, Lookup, EnterMapped;
    if Dir(m, id) == 0 {
      AllocTaken(m, Directory(id));
      var a := Alloc(m, Directory(id));
      if a.Some? {
        var (m1, d) := a.value;
        KeptLookups(m, m1);
        KeptDir(m, m1);
        SetDirectory(m1, id, d);
        EnterMappedUpdates(m1.(pdbr := m1.pdbr[id := d]), id, frame, v, prot);
      }
    } else {
      EnterMappedUpdates(m, id, frame, v, prot);
    }
  }

  // ---------- ranges ----------

  /** Below KERNEL_BASE pmap_enter_range maps page v + k to frame + k for every k below n, and no other user page. */
  lemma {:induction false} UserRangeUpdates(m: Machine, id: PmapId, frame: Frame, v: nat, n: nat, prot: bv12)
    requires Good(m) && id != KERNEL && (n > 0 ==> v + n <= KERNEL_PAGE)
    ensures var r := EnterRange(m, id, frame, v, n, prot);
            r.Some? ==>
              && Good(r.value) && r.value.procs == m.procs
              && (forall w :: v <= w < v + n ==> Lookup(r.value, id, w) == Pte(frame + (w - v), PAGE_PRESENT | prot))
              && (forall id2, w: nat :: UserPage(id2, w) && (id2 != id || !(v <= w < v + n)) ==>
                    Lookup(r.value, id2, w) == Lookup(m, id2, w))
    decreases n
  {
    hide WellFormed, Synced, Lookup, Enter;
    if n > 0 {
      EnterUpdates(m, id, frame, v, prot);
      var r1 := Enter(m, id, frame, v, prot);
      if r1.Some? {
        UserRangeUpdates(r1.value, id, frame + 1, v + 1, n - 1, prot);
      }
    }
  }

  /** Every page of the range has a table. */
  ghost predicate Backed(m: Machine, id: PmapId, v: nat, n: nat) {
    forall w :: v <= w < v + n ==> Get(m, Dir(m, id), Pde(w)) != ZERO
  }

  /** One round on a page with a table; on a page without one nothing changes but a word of frame 0. */
  lemma RewriteOneSeen(m: Machine, id: PmapId, v: nat, c: BitChange)
    requires Good(m) && Seen(m, id, v)
    ensures var m', backed := RewriteOne(m, id, v, c), Get(m, Dir(m, id), Pde(v)) != ZERO;
            && Good(m') && m' == m.(mem := m'.mem, low := m'.low)
            && (forall id2, i :: Get(m', Dir(m, id2), i) == Get(m, Dir(m, id2), i))
            && (forall id2, w :: Seen(m, id2, w) ==>
                  Lookup(m', id2, w) ==
                  if OnePage(id, v, id2, w) && backed then ChangedEntry(c, Lookup(m, id2, w)) else Lookup(m, id2, w))
            && m'.low == if backed then m.low else m.low[Index(v) := ChangedEntry(c, m.low[Index(v)])]
  {
    hide WellFormed, Synced, Lookup, ChangedEntry;
    HighPde(v);
    var pde := Get(m, Dir(m, id), Pde(v));
    if pde != ZERO {
      var e := ChangedEntry(c, Get(m, pde.frame, Index(v)));
      PutSeen(m, id, v, e);
      forall id2, w | Seen(m, id2, w) && OnePage(id, v, id2, w)
        ensures Lookup(m, id2, w) == Get(m, pde.frame, Index(v))
      {
        SeenTable(m, id, v);
        SeenTable(m, id2, w);
        LookupThrough(m, id2, w);
      }
    } else {
      LowKeeps(m, m.low[Index(v) := ChangedEntry(c, m.low[Index(v)])]);
    }
  }

  lemma LookupThrough(m: Machine, id: PmapId, v: nat)
    ensures var pde := Get(m, Dir(m, id), Pde(v));
            pde != ZERO ==> Lookup(m, id, v) == Get(m, pde.frame, Index(v))
  {
  }

  /** Frame 0 is no paging frame. */
  lemma LowKeeps(m: Machine, low: Table)
    requires Good(m)
    ensures var m' := m.(low := low);
            && Good(m') && (forall g, i :: Get(m', g, i) == Get(m, g, i))
            && (forall id, v :: Lookup(m', id, v) == Lookup(m, id, v))
  {
    var m' := m.(low := low);
    assert forall f, i :: Get(m', f, i) == Get(m, f, i);
    assert forall id :: Dir(m', id) == Dir(m, id);
    forall x ensures DirOk(m', x) { assert DirOk(m, x); }
    forall x, j | x != KERNEL && 0 <= j < KTABLE_START ensures UserEntryOk(m', x, j) { assert UserEntryOk(m, x, j); }
    forall j | 0 <= j < NTABLES ensures KernelEntryOk(m', j) { assert KernelEntryOk(m, j); }
  }

  /** A page of the range that has no table falls on word `j` of frame 0. */
  ghost predicate Strays(m: Machine, id: PmapId, v: nat, n: nat, j: nat) {
    exists w :: v <= w < v + n && Get(m, Dir(m, id), Pde(w)) == ZERO && Index(w) == j
  }

  /**
   pmap_cow and pmap_protect on any range of pages.  A page in range that has a table keeps its frame
   and has its bits changed, in this map alone if it is a user page and in every map if it is a kernel
   page; no other page of any map changes.  Each page in range without a table changes a word of
   frame 0 instead.
   */
  lemma {:induction false} RewriteChangesBits(m: Machine, id: PmapId, v: nat, n: nat, c: BitChange)
    requires Good(m) && forall w :: v <= w < v + n ==> Seen(m, id, w)
    ensures var m' := Rewrite(m, id, v, n, c);
            && Good(m') && m' == m.(mem := m'.mem, low := m'.low)
            && (forall id2, i :: Get(m', Dir(m, id2), i) == Get(m, Dir(m, id2), i))
            && (forall id2, w: nat :: Seen(m, id2, w) ==>
                  Lookup(m', id2, w) ==
                  if v <= w < v + n && OnePage(id, w, id2, w) && Get(m, Dir(m, id), Pde(w)) != ZERO
                  then ChangedEntry(c, Lookup(m, id2, w)) else Lookup(m, id2, w))
            && (forall j :: 0 <= j < NTABLES ==>
                  m'.low[j] == if Strays(m, id, v, n, j) then ChangedEntry(c, m.low[j]) else m.low[j])
    decreases n
  {
    hide WellFormed, Synced, Lookup, Get, Put, ChangedEntry, RewriteOne;
    if n > 0 {
      var m1 := RewriteOne(m, id, v, c);
      assert Seen(m, id, v);
      RewriteOneSeen(m, id, v, c);
      RewriteChangesBits(m1, id, v + 1, n - 1, c);
      var m' := Rewrite(m1, id, v + 1, n - 1, c);
      assert forall id2 :: Dir(m1, id2) == Dir(m, id2);
      forall id2, i ensures Get(m', Dir(m, id2), i) == Get(m, Dir(m, id2), i) {
        assert Get(m', Dir(m1, id2), i) == Get(m1, Dir(m1, id2), i);
      }
      forall id2, w: nat | Seen(m, id2, w)
        ensures Lookup(m', id2, w) ==
                if v <= w < v + n && OnePage(id, w, id2, w) && Get(m, Dir(m, id), Pde(w)) != ZERO
                then ChangedEntry(c, Lookup(m, id2, w)) else Lookup(m, id2, w)
      {
        assert Seen(m1, id2, w);
        assert Get(m1, Dir(m1, id), Pde(w)) == Get(m, Dir(m, id), Pde(w));
      }
      forall j | 0 <= j < NTABLES
        ensures Rewrite(m1, id, v + 1, n - 1, c).low[j]
             == if Strays(m, id, v, n, j) then ChangedEntry(c, m.low[j]) else m.low[j]
      {
        StraysStep(m, m1, id, v, n, j);
        ChangeTwice(c, m.low[j]);
      }
    }
  }

  lemma StraysStep(m: Machine, m1: Machine, id: PmapId, v: nat, n: nat, j: nat)
    requires n > 0 && Dir(m1, id) == Dir(m, id)
    requires forall i :: Get(m1, Dir(m, id), i) == Get(m, Dir(m, id), i)
    ensures Strays(m, id, v, n, j) <==>
              (Get(m, Dir(m, id), Pde(v)) == ZERO && Index(v) == j) || Strays(m1, id, v + 1, n - 1, j)
  {
    hide Get;
    if Strays(m, id, v, n, j) {
      var w :| v <= w < v + n && Get(m, Dir(m, id), Pde(w)) == ZERO && Index(w) == j;
      if w > v { assert Get(m1, Dir(m1, id), Pde(w)) == ZERO && Index(w) == j; }
    }
    if Strays(m1, id, v + 1, n - 1, j) {
      var w :| v + 1 <= w < v + n && Get(m1, Dir(m1, id), Pde(w)) == ZERO && Index(w) == j;
      assert Get(m, Dir(m, id), Pde(w)) == ZERO;
    }
  }

  lemma ChangeTwice(c: BitChange, e: Pte)
    ensures ChangedEntry(c, ChangedEntry(c, e)) == ChangedEntry(c, e)
  {
    match c
    case MakeReadOnly =>
    case Protect(prot) =>
      ProtectSetsRw(e.bits, prot);
      ProtectSetsRw(Changed(c, e.bits), prot);
      CowClearsRw(e.bits);
  }

  /** The frame that the round for page `w` writes into. */
  ghost function StoreFrame(m: Machine, id: PmapId, w: nat): Frame { Get(m, Dir(m, id), Pde(w)).frame }

  /**
   Every store of pmap_cow and pmap_protect goes into a user table of this map if and only if the range
   lies below KERNEL_BASE and every page of it has a table.
   */
  lemma StoresLandIff(m: Machine, id: PmapId, v: nat, n: nat)
    requires Good(m) && forall w :: v <= w < v + n ==> Seen(m, id, w)
    ensures (forall w :: v <= w < v + n ==> Holds(m, StoreFrame(m, id, w), UserTable(id, Pde(w))))
       <==> Backed(m, id, v, n) && (n > 0 ==> v + n <= KERNEL_PAGE)
  {
    hide WellFormed, Synced, Get;
    forall w | v <= w < v + n
      ensures Holds(m, StoreFrame(m, id, w), UserTable(id, Pde(w)))
         <==> Get(m, Dir(m, id), Pde(w)) != ZERO && w < KERNEL_PAGE
    {
      assert Seen(m, id, w);
      SeenTable(m, id, w);
      NoFrameZero(m);
    }
    if n > 0 && forall w :: v <= w < v + n ==> Holds(m, StoreFrame(m, id, w), UserTable(id, Pde(w))) {
      assert Holds(m, StoreFrame(m, id, v + n - 1), UserTable(id, Pde(v + n - 1)));
      forall w | v <= w < v + n ensures Get(m, Dir(m, id), Pde(w)) != ZERO {
        assert Holds(m, StoreFrame(m, id, w), UserTable(id, Pde(w)));
      }
    }
  }

  lemma NoFrameZero(m: Machine)
    requires Good(m)
    ensures 0 !in m.role
  {
  }

  /** pmap_cow clears the RW bit and no other. */
  lemma CowClearsRw(bits: bv12)
    ensures Changed(MakeReadOnly, bits) & PAGE_RW == 0
    ensures Changed(MakeReadOnly, bits) | PAGE_RW == bits | PAGE_RW
  {
  }

  /** pmap_protect sets the RW bit for write access, clears it for other access alone, and else leaves it. */
  lemma ProtectSetsRw(bits: bv12, prot: bv8)
    ensures prot & VM_PAGE_WRITE != 0 ==> Changed(Protect(prot), bits) == bits | PAGE_RW
    ensures prot & VM_PAGE_WRITE == 0 && (prot & VM_PAGE_READ != 0 || prot & VM_PAGE_EXEC != 0) ==>
              Changed(Protect(prot), bits) == Changed(MakeReadOnly, bits)
    ensures prot & VM_PAGE_WRITE == 0 && prot & VM_PAGE_READ == 0 && prot & VM_PAGE_EXEC == 0 ==>
              Changed(Protect(prot), bits) == bits
  {
    if prot & VM_PAGE_WRITE != 0 {
      CowClearsRw(bits);
    }
  }
}
