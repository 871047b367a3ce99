/**
 Runs of page-table operations: every run keeps the invariant and the shared kernel half, and the
 user half of the whole machine refines a plain map from (pmap, page) to entry.
 */
module MapRuns {
  import opened Types
  import opened PageTables
  import opened PageTableProofs
  import opened UserMaps
  import opened MapCopies

  datatype Op =
    | EnterUser(id: PmapId, frame: Frame, v: nat, prot: bv12)
    | EnterKernel(frame: Frame, v: nat, prot: bv12)
    | EnterShared(id: PmapId, frame: Frame, v: nat, prot: bv12)
    | CopyMap(src: PmapId, dst: PmapId)
    | ShareMap(dst: PmapId)
    | ChangeBits(id: PmapId, v: nat, n: nat, c: BitChange)

  /**
   How the kernel calls them: user pages below KERNEL_BASE, kernel pages above, new maps fresh.  One
   condition is not the callers' but what the results need: the kernel has a table for a kernel page
   entered through a process's map.  Without it the results fail, as EnterSharedIff says.
   */
  ghost predicate Enabled(m: Machine, op: Op) {
    match op
    case EnterUser(id, _, v, _) => UserPage(id, v)
    case EnterKernel(_, v, _) => KernelHalf(v)
    case EnterShared(id, _, v, _) => id in m.procs && KernelHalf(v) && Get(m, Dir(m, KERNEL), Pde(v)) != ZERO
    case CopyMap(src, dst) =>
      src != KERNEL && dst != KERNEL && src != dst && Dir(m, src) != 0 && Dir(m, dst) == 0
    case ShareMap(dst) => dst != KERNEL && Dir(m, dst) == 0
    case ChangeBits(id, v, n, _) => forall w :: v <= w < v + n ==> Seen(m, id, w)
  }

  ghost function Apply(m: Machine, op: Op): Option<Machine> {
    match op
    case EnterUser(id, frame, v, prot) => Enter(m, id, frame, v, prot)
    case EnterKernel(frame, v, prot) => Enter(m, KERNEL, frame, v, prot)
    case EnterShared(id, frame, v, prot) => Enter(m, id, frame, v, prot)
    case CopyMap(src, dst) => Copy(m, src, dst)
    case ShareMap(dst) => ShareKernel(m, dst)
    case ChangeBits(id, v, n, c) => Some(Rewrite(m, id, v, n, c))
  }

  /** The bits with which the directory enters the table of a page, if the page has a table. */
  ghost function TableBits(m: Machine, id: PmapId, v: nat): Option<bv12> {
    var e := Get(m, Dir(m, id), Pde(v));
    if e == ZERO then None else Some(e.bits)
  }

  /** What an operation means for the table of a user page, given which tables there were before. */
  ghost function TableMeaning(op: Op, before: (PmapId, nat) -> Option<bv12>, id: PmapId, v: nat): Option<bv12> {
    match op
    case EnterUser(x, _, w, prot) =>
      if id == x && Pde(v) == Pde(w) && before(id, v) == None then Some(PAGE_PRESENT | prot) else before(id, v)
    case EnterKernel(_, _, _) => before(id, v)
    case EnterShared(_, _, _, _) => before(id, v)
    case CopyMap(src, dst) => if id == dst then before(src, v) else before(id, v)
    case ShareMap(dst) => if id == dst then None else before(id, v)
    case ChangeBits(_, _, _, _) => before(id, v)
  }

  /** What an operation means for a user page, given what every user page was mapped by and which had tables. */
  ghost function Meaning(op: Op, before: (PmapId, nat) -> Pte, tables: (PmapId, nat) -> Option<bv12>,
                         id: PmapId, v: nat): Pte
  {
    match op
    case EnterUser(x, frame, w, prot) =>
      if id == x && v == w then Pte(frame, PAGE_PRESENT | prot) else before(id, v)
    case EnterKernel(_, _, _) => before(id, v)
    case EnterShared(_, _, _, _) => before(id, v)
    case CopyMap(src, dst) => if id == dst then before(src, v) else before(id, v)
    case ShareMap(dst) => if id == dst then ZERO else before(id, v)
    case ChangeBits(x, w, n, c) =>
      if id == x && w <= v < w + n && tables(id, v).Some? then ChangedEntry(c, before(id, v)) else before(id, v)
  }

  lemma KernelEnterGood(m: Machine, frame: Frame, v: nat, prot: bv12)
    requires Good(m) && KERNEL_PAGE <= v < NPAGES
    ensures var r := Enter(m, KERNEL, frame, v, prot);
            r.Some? ==> Good(r.value) && Kept(m, r.value) && SameLookups(m, r.value)
  {
    hide EnterMapped, Get;
    assert Dir(m, KERNEL) != 0;
    KernelEnterKeeps(m, frame, v, prot);
    var r := Enter(m, KERNEL, frame, v, prot);
    if r.Some? { KeptLookups(m, r.value); }
  }

  // ---------- a kernel page entered through a process's map ----------

  ghost predicate KernelHalf(v: nat) { KERNEL_PAGE <= v < NPAGES }

  /**
   When the kernel has a table for the page, pmap_enter on a listed map is pmap_enter on the kernel's:
   it takes no page, and changes that page in the kernel and in every listed map, and no other page.
   */
  lemma EnterSharedUpdates(m: Machine, id: PmapId, frame: Frame, v: nat, prot: bv12)
    requires Good(m) && id in m.procs && KernelHalf(v) && Get(m, Dir(m, KERNEL), Pde(v)) != ZERO
    ensures var r := Enter(m, id, frame, v, prot);
            && r.Some? && r == Enter(m, KERNEL, frame, v, prot)
            && Good(r.value) && r.value == m.(mem := r.value.mem)
            && (forall id2, w :: Seen(m, id2, w) ==>
                  Lookup(r.value, id2, w) == if w == v then Pte(frame, PAGE_PRESENT | prot) else Lookup(m, id2, w))
  {
    hide WellFormed, Synced, Get, Put, Lookup;
    ListedHasDirectory(m, id);
    SeenTable(m, id, v);
    PutSeen(m, id, v, Pte(frame, PAGE_PRESENT | prot));
  }

  /**
   When the kernel has none, the process gets a table of its own there and its kernel half is no longer
   the kernel's, whatever else the allocation did.
   */
  lemma EnterSharedSplits(m: Machine, id: PmapId, frame: Frame, v: nat, prot: bv12)
    requires Good(m) && id in m.procs && KernelHalf(v) && Get(m, Dir(m, KERNEL), Pde(v)) == ZERO
    ensures var r := Enter(m, id, frame, v, prot);
            r.Some? ==>
              && r.value.procs == m.procs && r.value.pdbr == m.pdbr
              && Get(r.value, Dir(m, id), Pde(v)) != Get(r.value, Dir(m, KERNEL), Pde(v))
              && !Synced(r.value)
  {
    hide WellFormed, Synced, Get, Put, Alloc, Kept;
    HighPde(v);
    ListedHasDirectory(m, id);
    SeenTable(m, id, v);
    var d, k, i := Dir(m, id), Dir(m, KERNEL), Pde(v);
    AllocTaken(m, UserTable(id, i));
    var a := Alloc(m, UserTable(id, i));
    if a.Some? {
      var (m1, t) := a.value;
      var e0, e := Pte(t, PAGE_PRESENT | prot), Pte(frame, PAGE_PRESENT | prot);
      var m2 := Put(m1, d, i, e0);
      var m3 := Put(m2, t, Index(v), e);
      PutFields(m1, d, i, e0);
      PutFields(m2, t, Index(v), e);
      DirectoryInMemory(m1, id);
      DistinctDirectories(m1, id, KERNEL);
      DirectoryIsNoTable(m1, id, t, UserTable(id, i));
      DirectoryIsNoTable(m1, KERNEL, t, UserTable(id, i));
      GetPut(m1, d, i, e0, d, i);
      GetPut(m1, d, i, e0, k, i);
      GetPut(m2, t, Index(v), e, d, i);
      GetPut(m2, t, Index(v), e, k, i);
      KernelEntryNot(m1, i, t, UserTable(id, i));
      NotSynced(m3, id, i);
    }
  }

  lemma NotSynced(m: Machine, id: PmapId, i: nat)
    requires id in m.procs && KTABLE_START <= i < NTABLES && Get(m, Dir(m, id), i) != Get(m, Dir(m, KERNEL), i)
    ensures !Synced(m)
  {
  }

  lemma KernelEntryNot(m: Machine, i: nat, t: Frame, role: Role)
    requires WellFormed(m) && i < NTABLES && Holds(m, t, role) && !role.KernelTable? && t != 0
    ensures Get(m, Dir(m, KERNEL), i).frame != t
  {
    assert KernelEntryOk(m, i);
  }

  /** So such an enter keeps the invariant if and only if the kernel has a table for the page. */
  lemma EnterSharedIff(m: Machine, id: PmapId, frame: Frame, v: nat, prot: bv12)
    requires Good(m) && id in m.procs && KernelHalf(v)
    ensures var r := Enter(m, id, frame, v, prot);
            r.Some? ==> (Good(r.value) <==> Get(m, Dir(m, KERNEL), Pde(v)) != ZERO)
  {
    hide Get, WellFormed, Enter;
    if Get(m, Dir(m, KERNEL), Pde(v)) == ZERO {
      EnterSharedSplits(m, id, frame, v, prot);
    } else {
      EnterSharedUpdates(m, id, frame, v, prot);
    }
  }

  // ---------- the operations ----------

  /** Each operation keeps the invariant and means what it should for every user page. */
  lemma OpRefines(m: Machine, op: Op)
    requires Good(m) && Enabled(m, op)
    ensures var r := Apply(m, op);
            r.Some? ==>
              && Good(r.value)
              && forall id, v :: UserPage(id, v) ==>
                   Lookup(r.value, id, v)
                   == Meaning(op, (x: PmapId, w: nat) => Lookup(m, x, w),
                              (x: PmapId, w: nat) => TableBits(m, x, w), id, v)
  {
    hide WellFormed, Synced, Lookup, Enter, Copy, ShareKernel, Rewrite, Get, TableBits;
    match op
    case EnterUser(id, frame, v, prot) => EnterUpdates(m, id, frame, v, prot);
    case EnterKernel(frame, v, prot) => KernelEnterGood(m, frame, v, prot);
    case EnterShared(id, frame, v, prot) =>
      EnterSharedUpdates(m, id, frame, v, prot);
      assert forall id2, w :: UserPage(id2, w) ==> Seen(m, id2, w);
    case CopyMap(src, dst) =>
      CopyTranslatesAlike(m, src, dst);
      assert forall v :: UserPage(dst, v) ==> UserPage(src, v);
    case ShareMap(dst) => ShareKernelMapsNothing(m, dst);
    case ChangeBits(id, v, n, c) => ChangeRefines(m, id, v, n, c);
  }

  lemma ChangeRefines(m: Machine, id: PmapId, v: nat, n: nat, c: BitChange)
    requires Good(m) && forall w :: v <= w < v + n ==> Seen(m, id, w)
    ensures var m' := Rewrite(m, id, v, n, c);
            && Good(m')
            && forall x, w: nat :: UserPage(x, w) ==>
                 Lookup(m', x, w)
                 == if x == id && v <= w < v + n && TableBits(m, x, w).Some? then ChangedEntry(c, Lookup(m, x, w))
                    else Lookup(m, x, w)
  {
    hide WellFormed, Synced, Lookup, Rewrite, Get;
    RewriteChangesBits(m, id, v, n, c);
    assert forall x, w: nat :: UserPage(x, w) ==> Seen(m, x, w);
  }

  // ---------- which pages have tables ----------

  /** A directory entry after an enter: a new table with these bits where one is needed, and otherwise as before. */
  ghost predicate Linked(before: Pte, after: Pte, here: bool, prot: bv12) {
    if here && before == ZERO then after != ZERO && after.bits == PAGE_PRESENT | prot else after == before
  }

  lemma EnterTables(m: Machine, id: PmapId, frame: Frame, v: nat, prot: bv12)
    requires Good(m) && UserPage(id, v) && Dir(m, id) != 0
    ensures var r := EnterMapped(m, id, frame, v, prot);
            r.Some? ==>
              && r.value.pdbr == m.pdbr
              && forall x, i :: x != KERNEL && 0 <= i < KTABLE_START ==>
                   Linked(Get(m, Dir(m, x), i), Get(r.value, Dir(m, x), i), x == id && i == Pde(v), prot)
  {
    hide WellFormed, Synced, Kept, Get, Put, Alloc, Lookup;
    HighPde(v);
    var d, i, e := Dir(m, id), Pde(v), Pte(frame, PAGE_PRESENT | prot);
    if Get(m, d, i) == ZERO {
      AllocTaken(m, UserTable(id, i));
      var a := Alloc(m, UserTable(id, i));
      if a.Some? {
        var (m1, t) := a.value;
        var e0 := Pte(t, PAGE_PRESENT | prot);
        var m2 := Put(m1, d, i, e0);
        var m3 := Put(m2, t, Index(v), e);
        PutFields(m1, d, i, e0);
        PutFields(m2, t, Index(v), e);
        DirectoryInMemory(m1, id);
        forall x, j | x != KERNEL && 0 <= j < KTABLE_START
          ensures Get(m3, Dir(m, x), j) == if x == id && j == i then e0 else Get(m, Dir(m, x), j)
        {
          KeptEntry(m, m1, x, j);
          DistinctDirectories(m1, id, x);
          DirectoryIsNoTable(m1, x, t, UserTable(id, i));
          GetPut(m1, d, i, e0, Dir(m, x), j);
          GetPut(m2, t, Index(v), e, Dir(m, x), j);
        }
      }
    } else {
      PutSeen(m, id, v, e);
    }
  }

  lemma EnterUserTables(m: Machine, id: PmapId, frame: Frame, v: nat, prot: bv12)
    requires Good(m) && UserPage(id, v)
    ensures var r := Enter(m, id, frame, v, prot);
            r.Some? ==>
              forall x, i :: x != KERNEL && 0 <= i < KTABLE_START ==>
                Linked(Get(m, Dir(m, x), i), Get(r.value, Dir(r.value, x), i), x == id && i == Pde(v), prot)
  {
    if Dir(m, id) == 0 {
      NewDirectoryIsBlank(m, id);
      hide WellFormed, Synced, Get, Alloc, Lookup, EnterMapped, SameDirectory;
      var r1 := NewDirectory(m, id);
      if r1.Some? {
        EnterTables(r1.value, id, frame, v, prot);
        forall x, i | x != KERNEL && 0 <= i < KTABLE_START
          ensures Get(r1.value, Dir(r1.value, x), i) == Get(m, Dir(m, x), i)
        {
          BlankOrSame(m, id, x, i);
        }
      }
    } else {
      hide WellFormed, Synced, Get, EnterMapped;
      EnterTables(m, id, frame, v, prot);
    }
  }

  lemma BlankOrSame(m: Machine, id: PmapId, x: PmapId, i: nat)
    requires Good(m) && id != KERNEL && Dir(m, id) == 0 && x != KERNEL && i < KTABLE_START
    ensures var r := NewDirectory(m, id); r.Some? ==> Get(r.value, Dir(r.value, x), i) == Get(m, Dir(m, x), i)
  {
    NewDirectoryIsBlank(m, id);
    if x != id { NewDirectoryKeepsOthers(m, id, x); }
    hide NewDirectory;
  }

  /** Each operation means what it should for the tables of user pages. */
  lemma OpTables(m: Machine, op: Op)
    requires Good(m) && Enabled(m, op)
    ensures var r := Apply(m, op);
            r.Some? ==>
              forall id, v :: UserPage(id, v) ==>
                TableBits(r.value, id, v) == TableMeaning(op, (x: PmapId, w: nat) => TableBits(m, x, w), id, v)
  {
    hide WellFormed, Synced, Lookup, Enter, Copy, ShareKernel, Rewrite, Get, SameDirectory;
    var r := Apply(m, op);
    if r.Some? {
      forall id, v | UserPage(id, v)
        ensures TableBits(r.value, id, v) == TableMeaning(op, (x: PmapId, w: nat) => TableBits(m, x, w), id, v)
      {
        HighPde(v);
        OpTable(m, op, id, v);
      }
    }
  }

  lemma OpTable(m: Machine, op: Op, id: PmapId, v: nat)
    requires Good(m) && Enabled(m, op) && Apply(m, op).Some? && UserPage(id, v) && Pde(v) < KTABLE_START
    ensures TableBits(Apply(m, op).value, id, v)
         == TableMeaning(op, (x: PmapId, w: nat) => TableBits(m, x, w), id, v)
  {
    hide WellFormed, Synced, Lookup, Enter, Copy, ShareKernel, Rewrite, Get;
    match op
    case EnterUser(x, frame, w, prot) => EnterUserTables(m, x, frame, w, prot);
    case EnterKernel(frame, w, prot) =>
      KernelEnterGood(m, frame, w, prot);
      KeptEntry(m, Enter(m, KERNEL, frame, w, prot).value, id, Pde(v));
    case EnterShared(x, frame, w, prot) => EnterSharedDirs(m, x, frame, w, prot, id, Pde(v));
    case CopyMap(src, dst) =>
      CopyHasTables(m, src, dst);
      if id != dst { assert SameDirectory(m, Copy(m, src, dst).value, id); }
    case ShareMap(dst) =>
      ShareHasNoTables(m, dst);
      if id != dst { assert SameDirectory(m, ShareKernel(m, dst).value, id); }
    case ChangeBits(x, w, n, c) =>
      RewriteChangesBits(m, x, w, n, c);
      var m' := Rewrite(m, x, w, n, c);
      assert Get(m', Dir(m, id), Pde(v)) == Get(m, Dir(m, id), Pde(v)) && Dir(m', id) == Dir(m, id);
  }

  lemma EnterSharedDirs(m: Machine, id: PmapId, frame: Frame, v: nat, prot: bv12, x: PmapId, i: nat)
    requires Good(m) && id in m.procs && KernelHalf(v) && Get(m, Dir(m, KERNEL), Pde(v)) != ZERO
    ensures var r := Enter(m, id, frame, v, prot);
            r.Some? && Get(r.value, Dir(r.value, x), i) == Get(m, Dir(m, x), i)
  {
    hide WellFormed, Synced, Get, Put, Lookup;
    ListedHasDirectory(m, id);
    SeenTable(m, id, v);
    PutSeen(m, id, v, Pte(frame, PAGE_PRESENT | prot));
  }

  // ---------- runs ----------

  ghost predicate Next(m: Machine, op: Op, m': Machine) {
    Enabled(m, op) && Apply(m, op) == Some(m')
  }

  ghost predicate IsRun(ms: seq<Machine>, ops: seq<Op>) {
    && |ms| == |ops| + 1 && Good(ms[0])
    && forall i :: 0 <= i < |ops| ==> Next(ms[i], ops[i], ms[i + 1])
  }

  /** Which user pages have a table after the first `n` operations of a run, and with what bits. */
  ghost function ExpectedTable(m0: Machine, ops: seq<Op>, n: nat, id: PmapId, v: nat): Option<bv12>
    requires n <= |ops|
    decreases n
  {
    if n == 0 then TableBits(m0, id, v)
    else TableMeaning(ops[n - 1], (x: PmapId, w: nat) => ExpectedTable(m0, ops, n - 1, x, w), id, v)
  }

  /** The plain map after the first `n` operations of a run. */
  ghost function Expected(m0: Machine, ops: seq<Op>, n: nat, id: PmapId, v: nat): Pte
    requires n <= |ops|
    decreases n
  {
    if n == 0 then Lookup(m0, id, v)
    else
      Meaning(ops[n - 1], (x: PmapId, w: nat) => Expected(m0, ops, n - 1, x, w),
              (x: PmapId, w: nat) => ExpectedTable(m0, ops, n - 1, x, w), id, v)
  }

  /**
   After any run the page tables translate every user page of every map as the plain map says, user pages
   have tables where it says, all listed processes have the kernel's entries 896..1023, and paging frames
   are still apart.
   */
  lemma {:induction false} RunRefines(ms: seq<Machine>, ops: seq<Op>, n: nat)
    requires IsRun(ms, ops) && n < |ms|
    ensures WellFormed(ms[n]) && Synced(ms[n])
    ensures forall id, v :: UserPage(id, v) ==> TableBits(ms[n], id, v) == ExpectedTable(ms[0], ops, n, id, v)
    ensures forall id, v :: UserPage(id, v) ==> Lookup(ms[n], id, v) == Expected(ms[0], ops, n, id, v)
  {
    hide Lookup, TableBits, Apply, Enabled, WellFormed, Synced;
    if n > 0 {
      RunRefines(ms, ops, n - 1);
      assert Next(ms[n - 1], ops[n - 1], ms[n - 1 + 1]);
      OpRefines(ms[n - 1], ops[n - 1]);
      OpTables(ms[n - 1], ops[n - 1]);
      forall id, v | UserPage(id, v)
        ensures TableBits(ms[n], id, v) == ExpectedTable(ms[0], ops, n, id, v)
        ensures Lookup(ms[n], id, v) == Expected(ms[0], ops, n, id, v)
      {
        MeaningLocal(ms[n - 1], ops[n - 1], ms[0], ops, n - 1, id, v);
      }
    }
  }

  /** The meaning of an enabled operation on a user page looks at user pages only. */
  lemma MeaningLocal(m: Machine, op: Op, m0: Machine, ops: seq<Op>, n: nat, id: PmapId, v: nat)
    requires n < |ops| && op == ops[n] && UserPage(id, v) && Enabled(m, op)
    requires forall x, w :: UserPage(x, w) ==> Lookup(m, x, w) == Expected(m0, ops, n, x, w)
    requires forall x, w :: UserPage(x, w) ==> TableBits(m, x, w) == ExpectedTable(m0, ops, n, x, w)
    ensures TableMeaning(op, (x: PmapId, w: nat) => TableBits(m, x, w), id, v) == ExpectedTable(m0, ops, n + 1, id, v)
    ensures Meaning(op, (x: PmapId, w: nat) => Lookup(m, x, w), (x: PmapId, w: nat) => TableBits(m, x, w), id, v)
         == Expected(m0, ops, n + 1, id, v)
  {
    hide Lookup, TableBits;
    assert op.CopyMap? ==> UserPage(op.src, v);
  }

  // ---------- copies ----------

  /** The operation may change a user page of map `x`. */
  predicate Touches(op: Op, x: PmapId) {
    match op
    case EnterUser(id, _, _, _) => id == x
    case EnterKernel(_, _, _) => false
    case EnterShared(_, _, _, _) => false
    case CopyMap(_, dst) => dst == x
    case ShareMap(dst) => dst == x
    case ChangeBits(id, _, _, _) => id == x
  }

  lemma {:induction false} UntouchedStays(ms: seq<Machine>, ops: seq<Op>, i: nat, n: nat, x: PmapId)
    requires IsRun(ms, ops) && i <= n < |ms| && forall j :: i <= j < n ==> !Touches(ops[j], x)
    ensures forall v :: UserPage(x, v) ==>
              Lookup(ms[n], x, v) == Lookup(ms[i], x, v) && TableBits(ms[n], x, v) == TableBits(ms[i], x, v)
    decreases n - i
  {
    hide Lookup, TableBits, Enabled, Apply, WellFormed, Synced;
    if i < n {
      UntouchedStays(ms, ops, i, n - 1, x);
      RunRefines(ms, ops, n - 1);
      assert Next(ms[n - 1], ops[n - 1], ms[n - 1 + 1]);
      OpRefines(ms[n - 1], ops[n - 1]);
      OpTables(ms[n - 1], ops[n - 1]);
    }
  }

  /**
   A copy stays independent.  However a run goes on after a copy, as long as no operation touches the
   source it translates as at the copy, and as long as none touches the copy so does the copy: whatever
   is done to the one, or to any other map, is not seen in the other.
   */
  lemma CopyStaysIndependent(ms: seq<Machine>, ops: seq<Op>, i: nat, n: nat, x: PmapId)
    requires IsRun(ms, ops) && i < n < |ms| && ops[i].CopyMap? && (x == ops[i].src || x == ops[i].dst)
    requires forall j :: i < j < n ==> !Touches(ops[j], x)
    ensures forall v :: UserPage(x, v) ==>
              && Lookup(ms[n], x, v) == Lookup(ms[i], ops[i].src, v)
              && TableBits(ms[n], x, v) == TableBits(ms[i], ops[i].src, v)
  {
    hide Lookup, TableBits, Apply, WellFormed, Synced;
    UntouchedStays(ms, ops, i + 1, n, x);
    RunRefines(ms, ops, i);
    assert Next(ms[i], ops[i], ms[i + 1]);
    OpRefines(ms[i], ops[i]);
    OpTables(ms[i], ops[i]);
  }
}
