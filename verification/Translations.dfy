/**
 What the processor makes of the page tables: the walk of section 5.2 of the Intel 80386 Programmer's
 Reference Manual.  A page is translated only if the PRESENT bit is set in its directory entry and in its
 table entry, and it may be written, or used from user mode, only if both entries allow it.
 */
module Translations {
  import opened Types
  import opened PageTables
  import opened PageTableProofs
  import opened UserMaps
  import opened MapCopies
  import opened MapRuns
  import opened KernelTables
  import opened RangeEnters

  /** Where a page is, and what may be done to it: the R/W bit (2) and the U/S bit (4). */
  datatype Access = Access(frame: Frame, rights: bv12)

  /** The walk; None is a page fault. */
  function Walk(m: Machine, id: PmapId, v: nat): Option<Access> {
    var pde := Get(m, Dir(m, id), Pde(v));
    if pde.bits & 1 == 0 then None
    else
      var pte := Get(m, pde.frame, Index(v));
      if pte.bits & 1 == 0 then None else Some(Access(pte.frame, pde.bits & pte.bits & 6))
  }

  /** The walk in terms of what the runs of module MapRuns predict. */
  function Reached(table: Option<bv12>, e: Pte): Option<Access> {
    if table.Some? && table.value & 1 != 0 && e.bits & 1 != 0 then Some(Access(e.frame, table.value & e.bits & 6))
    else None
  }

  lemma WalkIs(m: Machine, id: PmapId, v: nat)
    ensures Walk(m, id, v) == Reached(TableBits(m, id, v), Lookup(m, id, v))
  {
  }

  /** What the bits of an old table leave of the rights asked for; a new table is entered with those very rights. */
  function Allowed(table: Option<bv12>, prot: bv12): bv12 {
    if table.Some? then table.value & prot & 6 else prot & 6
  }

  lemma ReachedNew(table: Option<bv12>, frame: Frame, prot: bv12)
    ensures Reached(Some(PAGE_PRESENT | prot), Pte(frame, PAGE_PRESENT | prot)) == Some(Access(frame, prot & 6))
    ensures table.Some? && table.value & 1 != 0 ==>
              Reached(table, Pte(frame, PAGE_PRESENT | prot)) == Some(Access(frame, table.value & prot & 6))
    ensures Reached(table, ZERO) == None && Reached(None, Pte(frame, prot)) == None
    ensures (PAGE_PRESENT | prot) & 1 != 0
  {
  }

  // ---------- every table is present ----------

  /** Every user table that is entered is entered as present, and so is every table of the kernel. */
  ghost predicate Present(m: Machine) { UserPresent(m) && KernelPresent(m) }

  ghost predicate UserPresent(m: Machine) {
    forall id, v: nat :: UserPage(id, v) && TableBits(m, id, v).Some? ==> TableBits(m, id, v).value & 1 != 0
  }

  ghost predicate KernelPresent(m: Machine) {
    forall i: nat :: EntryPresent(m, i)
  }

  ghost predicate EntryPresent(m: Machine, i: nat) {
    Get(m, Dir(m, KERNEL), i) == ZERO || Get(m, Dir(m, KERNEL), i).bits & 1 != 0
  }

  /** Each entry of the kernel's directory is as before, or zero, or present. */
  lemma StaysPresent(m: Machine, m': Machine)
    requires KernelPresent(m)
    requires forall i: nat :: Get(m', Dir(m', KERNEL), i) == Get(m, Dir(m, KERNEL), i) || EntryPresent(m', i)
    ensures KernelPresent(m')
  {
    forall i: nat ensures EntryPresent(m', i) { assert EntryPresent(m, i); }
  }

  lemma PutPresent(m: Machine, f: Frame, i: nat, e: Pte)
    requires KernelPresent(m) && (f == Dir(m, KERNEL) ==> e.bits & 1 != 0)
    ensures KernelPresent(Put(m, f, i, e))
  {
    StaysPresent(m, Put(m, f, i, e));
  }

  lemma UpdatePresent(m: Machine, i: nat, e: Pte)
    requires KernelPresent(m) && i < NTABLES && e.bits & 1 != 0
    ensures KernelPresent(UpdateListed(m, i, e))
  {
    StaysPresent(m, UpdateListed(m, i, e));
  }

  lemma {:induction false} AllocPresent(m: Machine, role: Role)
    requires KernelPresent(m)
    ensures var r := Alloc(m, role); r.Some? ==> KernelPresent(r.value.0) && r.value.0.pdbr == m.pdbr
    decreases |m.free|, 0
  {
    if m.free != [] {
      var f, m0 := m.free[0], m.(free := m.free[1..]);
      StaysPresent(m, m0);
      EnterMappedPresent(m0, KERNEL, f, KernelPage(f), PAGE_RW);
      var r := EnterMapped(m0, KERNEL, f, KernelPage(f), PAGE_RW);
      if r.Some? {
        StaysPresent(r.value, r.value.(mem := r.value.mem[f := NewTable()], role := r.value.role[f := role]));
      }
    }
  }

  lemma {:induction false} EnterMappedPresent(m: Machine, id: PmapId, frame: Frame, v: nat, prot: bv12)
    requires KernelPresent(m)
    ensures var r := EnterMapped(m, id, frame, v, prot); r.Some? ==> KernelPresent(r.value) && r.value.pdbr == m.pdbr
    decreases |m.free|, 1
  {
    hide Alloc, KernelPresent;
    ReachedNew(None, 0, prot);
    var d, i, e := Dir(m, id), Pde(v), Pte(frame, PAGE_PRESENT | prot);
    if Get(m, d, i) == ZERO {
      AllocPresent(m, TableRole(id, i));
      var a := Alloc(m, TableRole(id, i));
      if a.Some? {
        var (m1, t) := a.value;
        var e0 := Pte(t, PAGE_PRESENT | prot);
        if id == KERNEL { UpdatePresent(m1, i, e0); }
        var m2 := if id == KERNEL then UpdateListed(m1, i, e0) else m1;
        PutPresent(m2, d, i, e0);
        PutPresent(Put(m2, d, i, e0), t, Index(v), e);
      }
    } else {
      PutPresent(m, Get(m, d, i).frame, Index(v), e);
    }
  }

  lemma SetPdbrPresent(m: Machine, id: PmapId, d: Frame)
    requires KernelPresent(m) && id != KERNEL
    ensures KernelPresent(m.(pdbr := m.pdbr[id := d]))
  {
    StaysPresent(m, m.(pdbr := m.pdbr[id := d]));
  }

  lemma EnterPresents(m: Machine, id: PmapId, frame: Frame, v: nat, prot: bv12)
    requires KernelPresent(m) && Dir(m, KERNEL) != 0
    ensures var r := Enter(m, id, frame, v, prot); r.Some? ==> KernelPresent(r.value)
  {
    hide Alloc, EnterMapped, KernelPresent;
    if Dir(m, id) == 0 {
      AllocPresent(m, Directory(id));
      var a := Alloc(m, Directory(id));
      if a.Some? {
        SetPdbrPresent(a.value.0, id, a.value.1);
        EnterMappedPresent(a.value.0.(pdbr := a.value.0.pdbr[id := a.value.1]), id, frame, v, prot);
      }
    } else {
      EnterMappedPresent(m, id, frame, v, prot);
    }
  }

  lemma NewDirectoryPresent(m: Machine, id: PmapId)
    requires KernelPresent(m) && id != KERNEL
    ensures var r := NewDirectory(m, id); r.Some? ==> KernelPresent(r.value)
  {
    hide Alloc, KernelPresent;
    AllocPresent(m, Directory(id));
    var a := Alloc(m, Directory(id));
    if a.Some? { SetPdbrPresent(a.value.0, id, a.value.1); }
  }

  lemma CopyOnePresent(m: Machine, src: PmapId, dst: PmapId, n: nat)
    requires CopiedTo(m, src, dst, n) && n < KTABLE_START && KernelPresent(m)
    ensures var r := CopyOne(m, src, dst, n); r.Some? ==> KernelPresent(r.value)
  {
    hide WellFormed, Synced, Alloc, KernelPresent, Get, Put;
    var e := Get(m, Dir(m, src), n);
    if e != ZERO {
      AllocTaken(m, UserTable(dst, n));
      AllocPresent(m, UserTable(dst, n));
      var a := Alloc(m, UserTable(dst, n));
      if a.Some? {
        var (m1, t) := a.value;
        DirectoryIsNoTable(m1, KERNEL, t, UserTable(dst, n));
        var m2 := if e.frame in m1.mem then m1.(mem := m1.mem[t := m1.mem[e.frame]]) else m1;
        OtherFramePresent(m1, m2, t);
        KernelDirectory(m1);
        DistinctDirectories(m1, KERNEL, dst);
        PutPresent(m2, Dir(m2, dst), n, Pte(t, e.bits));
      }
    }
  }

  lemma OtherFramePresent(m: Machine, m': Machine, t: Frame)
    requires KernelPresent(m) && m'.pdbr == m.pdbr && t != Dir(m, KERNEL)
    requires forall f :: f != t ==> (f in m'.mem <==> f in m.mem) && (f in m.mem ==> m'.mem[f] == m.mem[f])
    ensures KernelPresent(m')
  {
    StaysPresent(m, m');
  }

  lemma {:induction false} CopyTablesPresent(m: Machine, src: PmapId, dst: PmapId, n: nat)
    requires CopiedTo(m, src, dst, 0) && n <= KTABLE_START && KernelPresent(m)
    ensures var r := CopyTables(m, src, dst, n); r.Some? ==> KernelPresent(r.value)
  {
    hide CopiedTo, CopyOne, KernelPresent;
    if n > 0 {
      CopyTablesPresent(m, src, dst, n - 1);
      CopyTablesCopy(m, src, dst, n - 1);
      var r := CopyTables(m, src, dst, n - 1);
      if r.Some? { CopyOnePresent(r.value, src, dst, n - 1); }
    }
  }

  lemma SharePresent(m: Machine, id: PmapId)
    requires Good(m) && KernelPresent(m) && id != KERNEL && id !in m.procs && Dir(m, id) != 0
    requires forall i :: KTABLE_START <= i < NTABLES ==> Get(m, Dir(m, id), i) == ZERO
    ensures KernelPresent(ShareEntries(m, id).(procs := m.procs + [id]))
  {
    hide WellFormed, Synced, ShareEntries, Get;
    ShareKeeps(m, id);
    DistinctDirectories(m, id, KERNEL);
    StaysPresent(m, ShareEntries(m, id).(procs := m.procs + [id]));
  }

  lemma CopyPresent(m: Machine, src: PmapId, dst: PmapId)
    requires Good(m) && src != KERNEL && dst != KERNEL && src != dst && Dir(m, src) != 0 && Dir(m, dst) == 0
    requires KernelPresent(m)
    ensures var r := Copy(m, src, dst); r.Some? ==> KernelPresent(r.value)
  {
    hide WellFormed, Synced, NewDirectory, CopyTables, ShareEntries, Get, KernelPresent;
    NewDirectoryIsBlank(m, dst);
    NewDirectoryPresent(m, dst);
    var r1 := NewDirectory(m, dst);
    if r1.Some? {
      CopyTablesCopy(r1.value, src, dst, KTABLE_START);
      CopyTablesPresent(r1.value, src, dst, KTABLE_START);
      var r2 := CopyTables(r1.value, src, dst, KTABLE_START);
      if r2.Some? { SharePresent(r2.value, dst); }
    }
  }

  lemma ShareKernelPresent(m: Machine, dst: PmapId)
    requires Good(m) && dst != KERNEL && Dir(m, dst) == 0 && KernelPresent(m)
    ensures var r := ShareKernel(m, dst); r.Some? ==> KernelPresent(r.value)
  {
    hide WellFormed, Synced, NewDirectory, ShareEntries, Get, KernelPresent;
    NewDirectoryIsBlank(m, dst);
    NewDirectoryPresent(m, dst);
    var r := NewDirectory(m, dst);
    if r.Some? { SharePresent(r.value, dst); }
  }

  lemma RewritePresent(m: Machine, id: PmapId, v: nat, n: nat, c: BitChange)
    requires Good(m) && (forall w :: v <= w < v + n ==> Seen(m, id, w)) && KernelPresent(m)
    ensures KernelPresent(Rewrite(m, id, v, n, c))
  {
    hide WellFormed, Synced, Rewrite, Get, Lookup;
    RewriteChangesBits(m, id, v, n, c);
    StaysPresent(m, Rewrite(m, id, v, n, c));
  }

  /** Every operation keeps every table present. */
  lemma OpPresent(m: Machine, op: Op)
    requires Good(m) && Enabled(m, op) && Present(m)
    ensures var r := Apply(m, op); r.Some? ==> Present(r.value)
  {
    hide WellFormed, Synced, Enter, Copy, ShareKernel, Rewrite, Get, KernelPresent, TableBits;
    KernelDirectory(m);
    OpUserPresent(m, op);
    match op
    case EnterUser(id, frame, v, prot) => EnterPresents(m, id, frame, v, prot);
    case EnterKernel(frame, v, prot) => EnterPresents(m, KERNEL, frame, v, prot);
    case EnterShared(id, frame, v, prot) => EnterPresents(m, id, frame, v, prot);
    case CopyMap(src, dst) => CopyPresent(m, src, dst);
    case ShareMap(dst) => ShareKernelPresent(m, dst);
    case ChangeBits(id, v, n, c) => RewritePresent(m, id, v, n, c);
  }

  lemma OpUserPresent(m: Machine, op: Op)
    requires Good(m) && Enabled(m, op) && UserPresent(m)
    ensures var r := Apply(m, op); r.Some? ==> UserPresent(r.value)
  {
    hide WellFormed, Synced, Apply, TableBits;
    OpTables(m, op);
    if op.EnterUser? { ReachedNew(None, 0, op.prot); }
    assert op.CopyMap? ==> forall v: nat :: UserPage(op.dst, v) ==> UserPage(op.src, v);
  }

  // ---------- one operation ----------

  lemma NoTableNoEntry(m: Machine, id: PmapId, v: nat)
    ensures TableBits(m, id, v) == None ==> Lookup(m, id, v) == ZERO
  {
  }

  /**
   After pmap_enter the processor finds the page in its frame, with the rights asked for if its table is new
   and with what the table's own bits leave of them otherwise.  No other user page of any map is
   translated differently.
   */
  lemma EnterTranslates(m: Machine, id: PmapId, frame: Frame, v: nat, prot: bv12)
    requires Good(m) && Present(m) && UserPage(id, v)
    ensures var r := Enter(m, id, frame, v, prot);
            r.Some? ==>
              && Good(r.value) && Present(r.value)
              && Walk(r.value, id, v) == Some(Access(frame, Allowed(TableBits(m, id, v), prot)))
              && (forall x, w: nat :: UserPage(x, w) && (x != id || w != v) ==> Walk(r.value, x, w) == Walk(m, x, w))
              && (forall w: nat :: UserPage(id, w) ==>
                    Allowed(TableBits(r.value, id, w), prot) == Allowed(TableBits(m, id, w), prot))
  {
    var op, r := EnterUser(id, frame, v, prot), Enter(m, id, frame, v, prot);
    assert Apply(m, op) == r;
    assert UserPresent(m);
    hide WellFormed, Synced, Enter, Apply, Lookup, TableBits, Walk, Reached, Allowed, Present, UserPresent;
    OpPresent(m, op);
    EnterBoth(m, id, frame, v, prot);
    if r.Some? {
      forall x, w: nat | UserPage(x, w) && (x != id || w != v) ensures Walk(r.value, x, w) == Walk(m, x, w) {
        OtherWalk(m, r.value, x, w, PAGE_PRESENT | prot);
      }
      EnteredWalk(m, r.value, id, frame, v, prot);
      forall w: nat | UserPage(id, w)
        ensures Allowed(TableBits(r.value, id, w), prot) == Allowed(TableBits(m, id, w), prot)
      {
        NewAllowed(TableBits(m, id, w), prot);
      }
    }
  }

  /** OpRefines and OpTables for this operation. */
  lemma EnterBoth(m: Machine, id: PmapId, frame: Frame, v: nat, prot: bv12)
    requires Good(m) && UserPage(id, v)
    ensures var r := Enter(m, id, frame, v, prot);
            r.Some? ==>
              && Good(r.value)
              && (forall x, w: nat :: UserPage(x, w) ==>
                    Lookup(r.value, x, w)
                    == if x == id && w == v then Pte(frame, PAGE_PRESENT | prot) else Lookup(m, x, w))
              && (forall x, w: nat :: UserPage(x, w) ==>
                    TableBits(r.value, x, w)
                    == if x == id && Pde(w) == Pde(v) && TableBits(m, x, w) == None then Some(PAGE_PRESENT | prot)
                       else TableBits(m, x, w))
  {
    var op, r := EnterUser(id, frame, v, prot), Enter(m, id, frame, v, prot);
    assert Apply(m, op) == r;
    hide WellFormed, Synced, Enter, Apply, Lookup, TableBits;
    OpRefines(m, op);
    OpTables(m, op);
  }

  /** A page whose entry stays is translated as before, whether or not its region got a table. */
  lemma OtherWalk(m: Machine, m': Machine, x: PmapId, w: nat, bits: bv12)
    requires Lookup(m', x, w) == Lookup(m, x, w)
    requires TableBits(m', x, w) == TableBits(m, x, w)
          || (TableBits(m, x, w) == None && TableBits(m', x, w) == Some(bits))
    ensures Walk(m', x, w) == Walk(m, x, w)
  {
    hide Lookup, TableBits, Walk;
    WalkIs(m, x, w);
    WalkIs(m', x, w);
    NoTableNoEntry(m, x, w);
    ReachedNew(Some(bits), 0, 0);
  }

  lemma EnteredWalk(m: Machine, m': Machine, id: PmapId, frame: Frame, v: nat, prot: bv12)
    requires UserPage(id, v) && UserPresent(m) && Lookup(m', id, v) == Pte(frame, PAGE_PRESENT | prot)
    requires TableBits(m', id, v)
          == if TableBits(m, id, v) == None then Some(PAGE_PRESENT | prot) else TableBits(m, id, v)
    ensures Walk(m', id, v) == Some(Access(frame, Allowed(TableBits(m, id, v), prot)))
  {
    hide Lookup, TableBits, Walk, Reached, Allowed;
    WalkIs(m', id, v);
    ReachedNew(TableBits(m, id, v), frame, prot);
    NewAllowed(TableBits(m, id, v), prot);
  }

  lemma NewAllowed(table: Option<bv12>, prot: bv12)
    ensures Allowed(Some(PAGE_PRESENT | prot), prot) == prot & 6 == Allowed(None, prot)
    ensures table.Some? ==> Allowed(table, prot) == table.value & prot & 6
  {
  }

  /** pmap_enter gives exactly the rights asked for if and only if the table is new or has them all. */
  lemma EnterRightsIff(m: Machine, id: PmapId, frame: Frame, v: nat, prot: bv12)
    requires Good(m) && Present(m) && UserPage(id, v)
    ensures var r, table := Enter(m, id, frame, v, prot), TableBits(m, id, v);
            r.Some? ==> (Walk(r.value, id, v) == Some(Access(frame, prot & 6)) <==>
                         (table.Some? ==> !table.value & prot & 6 == 0))
  {
    hide WellFormed, Synced, Enter, TableBits, Walk, Present, Allowed;
    EnterTranslates(m, id, frame, v, prot);
    AllowedAll(TableBits(m, id, v), prot);
  }

  lemma AllowedAll(table: Option<bv12>, prot: bv12)
    ensures Allowed(table, prot) == prot & 6 <==> (table.Some? ==> !table.value & prot & 6 == 0)
  {
  }

  /** pmap_copy: the processor finds every user page of the copy where the source has it, with the same rights. */
  lemma CopyWalksAlike(m: Machine, src: PmapId, dst: PmapId)
    requires Good(m) && src != KERNEL && dst != KERNEL && src != dst && Dir(m, src) != 0 && Dir(m, dst) == 0
    ensures var r := Copy(m, src, dst);
            r.Some? ==>
              && (forall v: nat :: UserPage(dst, v) ==> Walk(r.value, dst, v) == Walk(m, src, v))
              && (forall x, v: nat :: UserPage(x, v) && x != dst ==> Walk(r.value, x, v) == Walk(m, x, v))
  {
    var op, r := CopyMap(src, dst), Copy(m, src, dst);
    assert Apply(m, op) == r;
    hide WellFormed, Synced, Copy, Apply, Lookup, TableBits, Walk, Reached;
    OpRefines(m, op);
    OpTables(m, op);
    if r.Some? {
      forall x, v: nat | UserPage(x, v)
        ensures Walk(r.value, x, v) == if x == dst then Walk(m, src, v) else Walk(m, x, v)
      {
        WalkIs(r.value, x, v);
        WalkIs(m, x, v);
        WalkIs(m, src, v);
      }
    }
  }

  /** pmap_share_kernel: the new map has no user page. */
  lemma ShareWalksNowhere(m: Machine, dst: PmapId)
    requires Good(m) && dst != KERNEL && Dir(m, dst) == 0
    ensures var r := ShareKernel(m, dst);
            r.Some? ==>
              && (forall v: nat :: UserPage(dst, v) ==> Walk(r.value, dst, v) == None)
              && (forall x, v: nat :: UserPage(x, v) && x != dst ==> Walk(r.value, x, v) == Walk(m, x, v))
  {
    var op, r := ShareMap(dst), ShareKernel(m, dst);
    assert Apply(m, op) == r;
    hide WellFormed, Synced, ShareKernel, Apply, Lookup, TableBits, Walk;
    OpRefines(m, op);
    OpTables(m, op);
    if r.Some? {
      forall x, v: nat | UserPage(x, v)
        ensures Walk(r.value, x, v) == if x == dst then None else Walk(m, x, v)
      {
        WalkIs(r.value, x, v);
        WalkIs(m, x, v);
      }
    }
  }

  // ---------- protection ----------

  /** What a protection change makes of a translated page whose table is entered with the bits `table`. */
  ghost predicate Protected(table: Option<bv12>, a: Option<Access>, b: Option<Access>, c: BitChange) {
    && (a.Some? <==> b.Some?)
    && (a.Some? && table.Some? ==>
          && b.value.frame == a.value.frame && b.value.rights & 4 == a.value.rights & 4
          && (c == MakeReadOnly ==> b.value.rights & 2 == 0)
          && (c.Protect? && c.prot & 2 != 0 ==> b.value.rights & 2 == table.value & 2)
          && (c.Protect? && c.prot & 2 == 0 && c.prot & 5 != 0 ==> b.value.rights & 2 == 0)
          && (c.Protect? && c.prot & 7 == 0 ==> b == a))
  }

  lemma ChangedReached(table: Option<bv12>, e: Pte, c: BitChange)
    ensures Protected(table, Reached(table, e), Reached(table, ChangedEntry(c, e)), c)
  {
  }

  /**
   After pmap_cow no page of the range can be written; after pmap_protect for writing a page can be written
   if and only if its table allows it, and otherwise not, unless nothing was asked for.  Where pages are,
   and everything outside the range, stays.
   */
  lemma ChangeTranslates(m: Machine, id: PmapId, v: nat, n: nat, c: BitChange)
    requires Good(m) && id != KERNEL && v + n <= KERNEL_PAGE
    ensures var m' := Rewrite(m, id, v, n, c);
            && (forall w: nat :: v <= w < v + n ==>
                  Protected(TableBits(m, id, w), Walk(m, id, w), Walk(m', id, w), c))
            && (forall x, w: nat :: UserPage(x, w) && !(x == id && v <= w < v + n) ==> Walk(m', x, w) == Walk(m, x, w))
  {
    var op, m' := ChangeBits(id, v, n, c), Rewrite(m, id, v, n, c);
    assert Apply(m, op) == Some(m');
    assert Enabled(m, op);
    hide WellFormed, Synced, Rewrite, Apply, Enabled, Lookup, TableBits, Walk, Reached, Protected, ChangedEntry;
    OpRefines(m, op);
    OpTables(m, op);
    forall x, w: nat | UserPage(x, w)
      ensures if x == id && v <= w < v + n then Protected(TableBits(m, id, w), Walk(m, id, w), Walk(m', id, w), c)
              else Walk(m', x, w) == Walk(m, x, w)
    {
      WalkIs(m, x, w);
      WalkIs(m', x, w);
      ChangedReached(TableBits(m, x, w), Lookup(m, x, w), c);
      NoTableNothing(TableBits(m, x, w), Lookup(m, x, w), c);
    }
  }

  lemma NoTableNothing(table: Option<bv12>, e: Pte, c: BitChange)
    ensures table == None ==> Reached(table, e) == None && Protected(table, None, None, c)
  {
  }

  // ---------- ranges ----------

  /** A range of user pages. */
  lemma {:induction false} UserRangeTranslates(m: Machine, id: PmapId, frame: Frame, v: nat, n: nat, prot: bv12)
    requires Good(m) && Present(m) && id != KERNEL && (n > 0 ==> v + n <= KERNEL_PAGE)
    ensures var r := EnterRange(m, id, frame, v, n, prot);
            r.Some? ==>
              && Good(r.value) && Present(r.value)
              && (forall w: nat :: v <= w < v + n ==>
                    Walk(r.value, id, w) == Some(Access(frame + (w - v), Allowed(TableBits(m, id, w), prot))))
              && (forall x, w: nat :: UserPage(x, w) && !(x == id && v <= w < v + n) ==>
                    Walk(r.value, x, w) == Walk(m, x, w))
    decreases n
  {
    hide WellFormed, Synced, Present, Enter, TableBits, Walk, Allowed;
    if n > 0 {
      RangeStep(m, id, frame, v, n, prot);
      EnterTranslates(m, id, frame, v, prot);
      var r := Enter(m, id, frame, v, prot);
      if r.Some? { UserRangeTranslates(r.value, id, frame + 1, v + 1, n - 1, prot); }
    }
  }

  lemma {:induction false} RangeSharedDirs(m: Machine, id: PmapId, frame: Frame, v: nat, n: nat, prot: bv12)
    requires Good(m) && id in m.procs && KERNEL_PAGE <= v && v + n <= NPAGES && KernelBacked(m, v, n)
    ensures var r := EnterRange(m, id, frame, v, n, prot);
            r.Some? && forall x, i: nat :: Get(r.value, Dir(r.value, x), i) == Get(m, Dir(m, x), i)
    decreases n
  {
    hide WellFormed, Synced, Get, Lookup, Enter;
    if n > 0 {
      assert Get(m, Dir(m, KERNEL), Pde(v)) != ZERO;
      EnterSharedUpdates(m, id, frame, v, prot);
      RangeStep(m, id, frame, v, n, prot);
      var m1 := Enter(m, id, frame, v, prot).value;
      forall x, i: nat ensures Get(m1, Dir(m1, x), i) == Get(m, Dir(m, x), i) {
        EnterSharedDirs(m, id, frame, v, prot, x, i);
      }
      RangeSharedDirs(m1, id, frame + 1, v + 1, n - 1, prot);
    }
  }

  /** A range above KERNEL_BASE for which the kernel has tables, seen from the kernel and every listed map. */
  lemma SharedRangeTranslates(m: Machine, id: PmapId, frame: Frame, v: nat, n: nat, prot: bv12)
    requires Good(m) && Present(m) && id in m.procs && KERNEL_PAGE <= v && v + n <= NPAGES && KernelBacked(m, v, n)
    ensures var r := EnterRange(m, id, frame, v, n, prot);
            && r.Some?
            && (forall x, w: nat :: Seen(m, x, w) ==>
                  Walk(r.value, x, w)
                  == if v <= w < v + n
                     then Some(Access(frame + (w - v), Allowed(TableBits(m, KERNEL, w), prot)))
                     else Walk(m, x, w))
  {
    hide WellFormed, Synced, Get, Lookup, EnterRange, Walk, Reached, Allowed;
    RangeShared(m, id, frame, v, n, prot);
    RangeSharedDirs(m, id, frame, v, n, prot);
    var m' := EnterRange(m, id, frame, v, n, prot).value;
    forall x, w: nat | Seen(m, x, w)
      ensures Walk(m', x, w)
           == if v <= w < v + n then Some(Access(frame + (w - v), Allowed(TableBits(m, KERNEL, w), prot)))
              else Walk(m, x, w)
    {
      WalkIs(m, x, w);
      WalkIs(m', x, w);
      assert TableBits(m', x, w) == TableBits(m, x, w);
      if v <= w < v + n {
        SeenTable(m, x, w);
        assert EntryPresent(m, Pde(w));
        ReachedNew(TableBits(m, KERNEL, w), frame + (w - v), prot);
        NewAllowed(TableBits(m, KERNEL, w), prot);
      }
    }
  }

  /** pmap_enter_range on any range of a listed map whose part above KERNEL_BASE has kernel tables. */
  lemma EnterRangeTranslates(m: Machine, id: PmapId, frame: Frame, v: nat, n: nat, prot: bv12)
    requires Good(m) && Present(m) && id != KERNEL && v + n <= NPAGES && (v + n <= KERNEL_PAGE || id in m.procs)
    ensures var a := PagesBelow(v, n);
            var r1, r := EnterRange(m, id, frame, v, a, prot), EnterRange(m, id, frame, v, n, prot);
            r1.Some? && KernelBacked(r1.value, v + a, n - a) ==>
              && r.Some?
              && (forall w: nat :: v <= w < v + n ==>
                    var table := if w < KERNEL_PAGE then TableBits(m, id, w) else TableBits(r1.value, KERNEL, w);
                    Walk(r.value, id, w) == Some(Access(frame + (w - v), Allowed(table, prot))))
              && (forall x, w: nat :: UserPage(x, w) && !(x == id && v <= w < v + n) ==>
                    Walk(r.value, x, w) == Walk(m, x, w))
  {
    hide WellFormed, Synced, Present, TableBits, Walk, Allowed, EnterRange;
    var a := PagesBelow(v, n);
    UserRangeUpdates(m, id, frame, v, a, prot);
    UserRangeTranslates(m, id, frame, v, a, prot);
    RangeConcat(m, id, frame, v, a, n, prot);
    var r1 := EnterRange(m, id, frame, v, a, prot);
    if r1.Some? && KernelBacked(r1.value, v + a, n - a) {
      if a == n {
        RangeNone(r1.value, id, frame + a, (v + a) % NPAGES, prot);
      } else {
        assert (v + a) % NPAGES == v + a;
        SharedRangeTranslates(r1.value, id, frame + a, v + a, n - a, prot);
      }
      assert forall x, w: nat :: UserPage(x, w) ==> Seen(r1.value, x, w);
    }
  }

  // ---------- kernel pages ----------

  /** pmap_enter on the kernel's map: the kernel and every listed map find the page in its frame. */
  lemma KernelEnterTranslates(m: Machine, frame: Frame, v: nat, prot: bv12)
    requires Good(m) && Present(m) && KernelHalf(v)
    ensures var r := Enter(m, KERNEL, frame, v, prot);
            r.Some? ==>
              && Present(r.value)
              && (forall x :: Seen(m, x, v) ==>
                    Walk(r.value, x, v) == Some(Access(frame, Allowed(TableBits(m, KERNEL, v), prot))))
              && (forall x, w: nat :: UserPage(x, w) ==> Walk(r.value, x, w) == Walk(m, x, w))
  {
    var op, r := EnterKernel(frame, v, prot), Enter(m, KERNEL, frame, v, prot);
    assert Apply(m, op) == r;
    hide WellFormed, Synced, Enter, EnterMapped, Apply, Lookup, Walk, Reached, Allowed, KernelPresent, UserPresent, Get;
    OpRefines(m, op);
    OpTables(m, op);
    OpPresent(m, op);
    if r.Some? {
      KernelEnterGood(m, frame, v, prot);
      forall x, w: nat | UserPage(x, w) ensures Walk(r.value, x, w) == Walk(m, x, w) {
        WalkIs(m, x, w);
        WalkIs(r.value, x, w);
      }
      forall x | Seen(m, x, v)
        ensures Walk(r.value, x, v) == Some(Access(frame, Allowed(TableBits(m, KERNEL, v), prot)))
      {
        KernelPageAt(m, frame, v, prot, x);
        WalkIs(r.value, x, v);
        ReachedNew(TableBits(m, KERNEL, v), frame, prot);
        NewAllowed(TableBits(m, KERNEL, v), prot);
        KernelTablePresent(m, v);
      }
    }
  }

  lemma KernelTablePresent(m: Machine, v: nat)
    requires KernelPresent(m)
    ensures TableBits(m, KERNEL, v).Some? ==> TableBits(m, KERNEL, v).value & 1 != 0
  {
    assert EntryPresent(m, Pde(v));
  }

  lemma KernelPageAt(m: Machine, frame: Frame, v: nat, prot: bv12, x: PmapId)
    requires Good(m) && KernelHalf(v) && Seen(m, x, v) && Enter(m, KERNEL, frame, v, prot).Some?
    ensures var r := Enter(m, KERNEL, frame, v, prot).value;
            && Lookup(r, x, v) == Pte(frame, PAGE_PRESENT | prot)
            && TableBits(r, x, v)
               == if TableBits(m, KERNEL, v) == None then Some(PAGE_PRESENT | prot) else TableBits(m, KERNEL, v)
  {
    var r := Enter(m, KERNEL, frame, v, prot).value;
    hide WellFormed, Synced, Get, EnterMapped, Kept, Lookup;
    KernelDirectory(m);
    KernelEnterGood(m, frame, v, prot);
    KernelOwnPage(m, frame, v, prot);
    assert r.procs == m.procs by { KeptProcs(m, Some(r)); }
    SeenTable(r, x, v);
    SameEntrySameLookup(r, x, v);
  }

  lemma SameEntrySameLookup(m: Machine, x: PmapId, v: nat)
    requires Get(m, Dir(m, x), Pde(v)) == Get(m, Dir(m, KERNEL), Pde(v))
    ensures Lookup(m, x, v) == Lookup(m, KERNEL, v)
  {
  }

  lemma KernelOwnPage(m: Machine, frame: Frame, v: nat, prot: bv12)
    requires Good(m) && KernelHalf(v) && Dir(m, KERNEL) != 0 && Enter(m, KERNEL, frame, v, prot).Some?
    requires Enter(m, KERNEL, frame, v, prot).value.pdbr == m.pdbr
    ensures var r := Enter(m, KERNEL, frame, v, prot).value;
            && Lookup(r, KERNEL, v) == Pte(frame, PAGE_PRESENT | prot)
            && TableBits(r, KERNEL, v)
               == if TableBits(m, KERNEL, v) == None then Some(PAGE_PRESENT | prot) else TableBits(m, KERNEL, v)
  {
    hide WellFormed, Synced, Get, Put, Kept, Lookup, Alloc, NestLookup;
    ReachedNew(None, 0, prot);
    if TableBits(m, KERNEL, v) == None {
      KernelAbsent(m, frame, v, prot);
    } else {
      PutSeen(m, KERNEL, v, Pte(frame, PAGE_PRESENT | prot));
    }
  }

  // ---------- runs ----------

  lemma {:induction false} RunPresent(ms: seq<Machine>, ops: seq<Op>, n: nat)
    requires IsRun(ms, ops) && n < |ms| && Present(ms[0])
    ensures Present(ms[n])
  {
    hide Enabled, Apply, WellFormed, Synced, Present, Lookup, TableBits;
    if n > 0 {
      RunPresent(ms, ops, n - 1);
      RunRefines(ms, ops, n - 1);
      assert Next(ms[n - 1], ops[n - 1], ms[n - 1 + 1]);
      OpPresent(ms[n - 1], ops[n - 1]);
    }
  }

  /**
   After any run the processor finds every user page of every map where the plain map says, with the rights
   that the plain map's bits for the page and for its table leave.
   */
  lemma RunTranslates(ms: seq<Machine>, ops: seq<Op>, n: nat)
    requires IsRun(ms, ops) && n < |ms| && Present(ms[0])
    ensures Present(ms[n])
    ensures forall id, v: nat :: UserPage(id, v) ==>
              Walk(ms[n], id, v) == Reached(ExpectedTable(ms[0], ops, n, id, v), Expected(ms[0], ops, n, id, v))
  {
    assert |ms| == |ops| + 1;
    hide IsRun, Walk, Reached, Lookup, TableBits, Present, Expected, ExpectedTable, WellFormed, Synced;
    RunPresent(ms, ops, n);
    RunRefines(ms, ops, n);
    forall id, v: nat | UserPage(id, v)
      ensures Walk(ms[n], id, v) == Reached(ExpectedTable(ms[0], ops, n, id, v), Expected(ms[0], ops, n, id, v))
    {
      WalkIs(ms[n], id, v);
    }
  }

  /** A page entered in a run stays where it was put until the run touches its map again. */
  lemma EnteredStays(ms: seq<Machine>, ops: seq<Op>, i: nat, n: nat)
    requires IsRun(ms, ops) && i < n < |ms| && Present(ms[0]) && ops[i].EnterUser?
    requires forall j :: i < j < n ==> !Touches(ops[j], ops[i].id)
    ensures var op := ops[i];
            Walk(ms[n], op.id, op.v) == Some(Access(op.frame, Allowed(TableBits(ms[i], op.id, op.v), op.prot)))
  {
    hide Walk, Reached, Lookup, TableBits, Present, WellFormed, Synced, Enter, Allowed;
    var op := ops[i];
    RunPresent(ms, ops, i);
    RunRefines(ms, ops, i);
    assert Next(ms[i], op, ms[i + 1]);
    EnterTranslates(ms[i], op.id, op.frame, op.v, op.prot);
    UntouchedStays(ms, ops, i + 1, n, op.id);
    WalkIs(ms[i + 1], op.id, op.v);
    WalkIs(ms[n], op.id, op.v);
  }

  /** Source and copy stay independent in what the processor sees, too. */
  lemma CopyWalksIndependently(ms: seq<Machine>, ops: seq<Op>, i: nat, n: nat, x: PmapId)
    requires IsRun(ms, ops) && i < n < |ms| && ops[i].CopyMap? && (x == ops[i].src || x == ops[i].dst)
    requires forall j :: i < j < n ==> !Touches(ops[j], x)
    ensures forall v: nat :: UserPage(x, v) ==> Walk(ms[n], x, v) == Walk(ms[i], ops[i].src, v)
  {
    assert |ms| == |ops| + 1;
    hide IsRun, Walk, Reached, Lookup, TableBits;
    CopyStaysIndependent(ms, ops, i, n, x);
    forall v: nat | UserPage(x, v) ensures Walk(ms[n], x, v) == Walk(ms[i], ops[i].src, v) {
      WalkIs(ms[n], x, v);
      WalkIs(ms[i], ops[i].src, v);
    }
  }
}
