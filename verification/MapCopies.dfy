/**
 pmap_copy and pmap_share_kernel: the copy translates every user page as its source does, through
 tables of its own, and the kernel's half stays the same in every listed map over every run.
 */
module MapCopies {
  import opened Types
  import opened PageTables
  import opened PageTableProofs
  import opened UserMaps

  // ---------- a new map ----------

  /** `id` has a clear directory and belongs to no listed process. */
  ghost predicate Blank(m: Machine, id: PmapId) {
    && id != KERNEL && id !in m.procs && Dir(m, id) != 0
    && forall i :: Get(m, Dir(m, id), i) == ZERO
  }

  lemma NewDirectoryIsBlank(m: Machine, id: PmapId)
    requires Good(m) && id != KERNEL && Dir(m, id) == 0
    ensures var r := NewDirectory(m, id);
            r.Some? ==>
              && Good(r.value) && Blank(r.value, id) && SameLookups(m, r.value)
              && r.value.procs == m.procs && (forall x :: x != id ==> Dir(r.value, x) == Dir(m, x))
  {
    hide WellFormed, Synced, Kept, Alloc, Lookup;
    NotListed(m, id);
    AllocTaken(m, Directory(id));
    var a := Alloc(m, Directory(id));
    if a.Some? {
      var (m1, d) := a.value;
      KeptLookups(m, m1);
      KeptDir(m, m1);
      SetDirectory(m1, id, d);
      var m2 := m1.(pdbr := m1.pdbr[id := d]);
      forall i ensures Get(m2, d, i) == ZERO { assert Get(m1, d, i) == ZERO; }
    }
  }

  /** A map's user tables are where they were. */
  ghost predicate SameDirectory(m: Machine, m': Machine, id: PmapId) {
    forall i :: 0 <= i < KTABLE_START ==> Get(m', Dir(m', id), i) == Get(m, Dir(m, id), i)
  }

  lemma SameEntries(m: Machine, m': Machine, f: Frame, i: nat)
    requires m'.mem == m.mem
    ensures Get(m', f, i) == Get(m, f, i)
  {
  }

  lemma NewDirectoryKeepsOthers(m: Machine, id: PmapId, other: PmapId)
    requires Good(m) && id != KERNEL && other != KERNEL && other != id
    ensures var r := NewDirectory(m, id); r.Some? ==> SameDirectory(m, r.value, other)
  {
    AllocTaken(m, Directory(id));
    hide WellFormed, Synced, Get, Alloc, Kept;
    var a := Alloc(m, Directory(id));
    if a.Some? {
      var (m1, d) := a.value;
      var m2 := m1.(pdbr := m1.pdbr[id := d]);
      forall i | 0 <= i < KTABLE_START ensures Get(m2, Dir(m2, other), i) == Get(m, Dir(m, other), i) {
        KeptEntry(m, m1, other, i);
        SameEntries(m1, m2, Dir(m1, other), i);
      }
    }
  }

  lemma NotListed(m: Machine, id: PmapId)
    requires Good(m) && Dir(m, id) == 0
    ensures id !in m.procs
  {
  }

  // ---------- the copied tables ----------

  /** Entry `i` of `dst` is a private copy of entry `i` of `src`: same bits, same table contents. */
  ghost predicate Copied(m: Machine, src: PmapId, dst: PmapId, i: nat) {
    var e, c := Get(m, Dir(m, src), i), Get(m, Dir(m, dst), i);
    if e == ZERO then c == ZERO
    else c != ZERO && c.bits == e.bits && forall j :: Get(m, c.frame, j) == Get(m, e.frame, j)
  }

  /** What holds once the first `n` entries are copied. */
  ghost predicate CopiedTo(m: Machine, src: PmapId, dst: PmapId, n: nat) {
    && Good(m) && dst != KERNEL && src != KERNEL && src != dst
    && dst !in m.procs && Dir(m, dst) != 0 && Dir(m, src) != 0
    && (forall i :: 0 <= i < n && i < KTABLE_START ==> Copied(m, src, dst, i))
    && (forall i :: n <= i < NTABLES ==> Get(m, Dir(m, dst), i) == ZERO)
  }

  /** No translation and no user entry in the directory of a map other than `dst` changes. */
  ghost predicate SameOthers(m: Machine, m': Machine, dst: PmapId) {
    && m'.procs == m.procs && m'.pdbr == m.pdbr
    && (forall id, v :: UserPage(id, v) && id != dst ==> Lookup(m', id, v) == Lookup(m, id, v))
    && (forall id, i :: id != dst && id != KERNEL && 0 <= i < KTABLE_START ==>
          Get(m', Dir(m, id), i) == Get(m, Dir(m, id), i))
  }

  /** Filling the new table with the source's entries. */
  ghost function Fill(m: Machine, t: Frame, from: Frame): Machine {
    if from in m.mem then m.(mem := m.mem[t := m.mem[from]]) else m
  }

  lemma FillKeeps(m: Machine, t: Frame, from: Frame, id: PmapId, k: nat, src: PmapId)
    requires Good(m) && Holds(m, t, UserTable(id, k)) && Holds(m, from, UserTable(src, k))
    ensures Good(Fill(m, t, from))
    ensures forall g, j :: Get(Fill(m, t, from), g, j) == if g == t then Get(m, from, j) else Get(m, g, j)
    ensures var m' := Fill(m, t, from);
            && m'.role == m.role && m'.pdbr == m.pdbr && m'.procs == m.procs && m'.free == m.free
            && m'.mem.Keys == m.mem.Keys
  {
    var m' := Fill(m, t, from);
    assert forall g, j :: Get(m', g, j) == if g == t then Get(m, from, j) else Get(m, g, j);
    hide Get;
    forall x ensures DirOk(m', x) { assert DirOk(m, x); }
    forall x, j | x != KERNEL && 0 <= j < KTABLE_START ensures UserEntryOk(m', x, j) {
      assert UserEntryOk(m, x, j) && DirOk(m, x);
      NoDirectory(m, m', x, j);
    }
    forall j | 0 <= j < NTABLES ensures KernelEntryOk(m', j) {
      assert KernelEntryOk(m, j) && DirOk(m, KERNEL);
    }
    forall p, j | p in m'.procs && KTABLE_START <= j < NTABLES
      ensures Get(m', Dir(m', p), j) == Get(m', Dir(m', KERNEL), j)
    {
      assert DirOk(m, p) && DirOk(m, KERNEL);
    }
  }

  /** A table no entry refers to yet may be filled without any translation changing. */
  lemma FillLookups(m: Machine, t: Frame, from: Frame, dst: PmapId, i: nat, src: PmapId)
    requires Good(m) && Holds(m, t, UserTable(dst, i)) && Holds(m, from, UserTable(src, i)) && i < KTABLE_START
    requires dst != KERNEL && Get(m, Dir(m, dst), i) == ZERO
    ensures SameLookups(m, Fill(m, t, from))
  {
    FillKeeps(m, t, from, dst, i, src);
    hide WellFormed, Synced, Get, Fill;
    var m' := Fill(m, t, from);
    forall id, v | UserPage(id, v) ensures Lookup(m', id, v) == Lookup(m, id, v) {
      HighPde(v);
      DirectoryIsNoTable(m, id, t, UserTable(dst, i));
      if Get(m, Dir(m, id), Pde(v)) != ZERO { UserWalk(m, id, Pde(v)); }
    }
  }

  /** Linking a filled table into `dst` changes translations of `dst` only. */
  lemma LinkOthers(m: Machine, dst: PmapId, i: nat, t: Frame, bits: bv12)
    requires Good(m) && dst != KERNEL && i < KTABLE_START && Dir(m, dst) != 0 && Holds(m, t, UserTable(dst, i))
    ensures SameOthers(m, Put(m, Dir(m, dst), i, Pte(t, bits)), dst)
  {
    hide Put, Get, WellFormed, Synced;
    var d, e := Dir(m, dst), Pte(t, bits);
    var m' := Put(m, d, i, e);
    PutFields(m, d, i, e);
    forall id, v | UserPage(id, v) && id != dst ensures Lookup(m', id, v) == Lookup(m, id, v) {
      HighPde(v);
      DistinctDirectories(m, dst, id);
      GetPut(m, d, i, e, Dir(m, id), Pde(v));
      var x := Get(m, Dir(m, id), Pde(v));
      if x != ZERO {
        UserWalk(m, id, Pde(v));
        DirectoryIsNoTable(m, dst, x.frame, UserTable(id, Pde(v)));
        GetPut(m, d, i, e, x.frame, Index(v));
      }
    }
    forall id, j | id != dst && id != KERNEL && 0 <= j < KTABLE_START
      ensures Get(m', Dir(m, id), j) == Get(m, Dir(m, id), j)
    {
      DistinctDirectories(m, dst, id);
      GetPut(m, d, i, e, Dir(m, id), j);
    }
  }

  lemma OthersTrans(a: Machine, b: Machine, c: Machine, dst: PmapId)
    requires SameOthers(a, b, dst) && SameOthers(b, c, dst)
    ensures SameOthers(a, c, dst)
  {
    hide Get, Lookup;
    forall id, i | id != dst && id != KERNEL && 0 <= i < KTABLE_START
      ensures Get(c, Dir(a, id), i) == Get(a, Dir(a, id), i)
    {
      assert Get(c, Dir(b, id), i) == Get(b, Dir(b, id), i) && Dir(b, id) == Dir(a, id);
    }
  }

  lemma KeptOthers(m: Machine, m1: Machine, dst: PmapId)
    requires Good(m) && Good(m1) && Kept(m, m1)
    ensures SameOthers(m, m1, dst)
  {
    hide WellFormed, Synced, Get, Lookup;
    KeptLookups(m, m1);
    KeptDir(m, m1);
    forall id, i | id != dst && id != KERNEL && 0 <= i < KTABLE_START
      ensures Get(m1, Dir(m, id), i) == Get(m, Dir(m, id), i)
    {
      KeptEntry(m, m1, id, i);
    }
  }

  lemma FillOthers(m: Machine, t: Frame, from: Frame, dst: PmapId, i: nat, src: PmapId)
    requires Good(m) && Holds(m, t, UserTable(dst, i)) && Holds(m, from, UserTable(src, i)) && i < KTABLE_START
    requires dst != KERNEL && Get(m, Dir(m, dst), i) == ZERO
    ensures SameOthers(m, Fill(m, t, from), dst)
  {
    hide WellFormed, Synced, Get, Lookup, Fill;
    FillKeeps(m, t, from, dst, i, src);
    FillLookups(m, t, from, dst, i, src);
    forall id, j | id != dst && id != KERNEL && 0 <= j < KTABLE_START
      ensures Get(Fill(m, t, from), Dir(m, id), j) == Get(m, Dir(m, id), j)
    {
      DirectoryIsNoTable(m, id, t, UserTable(dst, i));
    }
  }

  /** Allocation leaves a copy in progress as it is. */
  lemma KeptCopied(m: Machine, m1: Machine, src: PmapId, dst: PmapId, n: nat)
    requires CopiedTo(m, src, dst, n) && Good(m1) && Kept(m, m1) && n <= KTABLE_START
    ensures CopiedTo(m1, src, dst, n)
  {
    hide WellFormed, Synced, Get;
    KeptDir(m, m1);
    DirectoryInMemory(m, dst);
    forall i | n <= i < NTABLES ensures Get(m1, Dir(m1, dst), i) == ZERO {
      assert UserPart(m.procs, m.role[Dir(m, dst)], i);
      assert Get(m, Dir(m, dst), i) == ZERO;
    }
    forall i | 0 <= i < n && i < KTABLE_START ensures Copied(m1, src, dst, i) {
      assert Copied(m, src, dst, i);
      KeptEntry(m, m1, src, i);
      KeptEntry(m, m1, dst, i);
      UserWalk(m, src, i);
      UserWalk(m, dst, i);
      var e, c := Get(m, Dir(m, src), i), Get(m, Dir(m, dst), i);
      if e != ZERO {
        forall j ensures Get(m1, c.frame, j) == Get(m1, e.frame, j) {
          KeptTable(m, m1, e.frame, src, i, j);
          KeptTable(m, m1, c.frame, dst, i, j);
        }
      }
    }
  }

  /** Filling and linking the next table extends the copy by one entry. */
  lemma ExtendCopied(m: Machine, src: PmapId, dst: PmapId, n: nat, t: Frame)
    requires CopiedTo(m, src, dst, n) && n < KTABLE_START && Holds(m, t, UserTable(dst, n)) && t != 0
    requires Get(m, Dir(m, src), n) != ZERO
    ensures var e := Get(m, Dir(m, src), n);
            var m' := Put(Fill(m, t, e.frame), Dir(m, dst), n, Pte(t, e.bits));
            CopiedTo(m', src, dst, n + 1) && SameOthers(m, m', dst)
  {
    UserWalk(m, src, n);
    var e := Get(m, Dir(m, src), n);
    var m2 := Fill(m, t, e.frame);
    FillKeeps(m, t, e.frame, dst, n, src);
    FillOthers(m, t, e.frame, dst, n, src);
    DirectoryIsNoTable(m, dst, t, UserTable(dst, n));
    DirectoryIsNoTable(m, src, t, UserTable(dst, n));
    DirectoryIsNoTable(m, dst, e.frame, UserTable(src, n));
    LinkUserKeeps(m2, dst, n, t, e.bits);
    LinkOthers(m2, dst, n, t, e.bits);
    var m' := Put(m2, Dir(m, dst), n, Pte(t, e.bits));
    PutFields(m2, Dir(m, dst), n, Pte(t, e.bits));
    OthersTrans(m, m2, m', dst);
    hide WellFormed, Synced, Get, Put, Fill, Lookup;
    forall i | 0 <= i < n + 1 && i < KTABLE_START ensures Copied(m', src, dst, i) {
      if i < n { assert Copied(m, src, dst, i); }
      ExtendOne(m, m2, m', src, dst, n, t, i);
    }
    forall i | n + 1 <= i < NTABLES ensures Get(m', Dir(m', dst), i) == ZERO {
      GetPut(m2, Dir(m, dst), n, Pte(t, e.bits), Dir(m, dst), i);
      assert Get(m, Dir(m, dst), i) == ZERO;
    }
  }

  lemma ExtendOne(m: Machine, m2: Machine, m': Machine, src: PmapId, dst: PmapId, n: nat, t: Frame, i: nat)
    requires CopiedTo(m, src, dst, n) && n < KTABLE_START && Holds(m, t, UserTable(dst, n)) && t != 0 && i <= n
    requires Get(m, Dir(m, src), n) != ZERO && (i < n ==> Copied(m, src, dst, i))
    requires m2.pdbr == m.pdbr && m'.pdbr == m.pdbr && m2.mem.Keys == m.mem.Keys
    requires forall g, j :: Get(m2, g, j) == if g == t then Get(m, Get(m, Dir(m, src), n).frame, j) else Get(m, g, j)
    requires m' == Put(m2, Dir(m, dst), n, Pte(t, Get(m, Dir(m, src), n).bits))
    ensures Copied(m', src, dst, i)
  {
    hide WellFormed, Synced, Get, Put;
    var d, e := Dir(m, dst), Get(m, Dir(m, src), n);
    DirectoryInMemory(m, dst);
    DistinctDirectories(m, dst, src);
    DirectoryIsNoTable(m, dst, t, UserTable(dst, n));
    DirectoryIsNoTable(m, src, t, UserTable(dst, n));
    GetPut(m2, d, n, Pte(t, e.bits), Dir(m, src), i);
    GetPut(m2, d, n, Pte(t, e.bits), d, i);
    UserWalk(m, src, i);
    UserWalk(m, dst, i);
    var x, c := Get(m', Dir(m', src), i), Get(m', Dir(m', dst), i);
    if x != ZERO {
      DirectoryIsNoTable(m, dst, x.frame, UserTable(src, i));
      forall j ensures Get(m', c.frame, j) == Get(m', x.frame, j) {
        GetPut(m2, d, n, Pte(t, e.bits), c.frame, j);
        GetPut(m2, d, n, Pte(t, e.bits), x.frame, j);
        if i < n { DirectoryIsNoTable(m, dst, c.frame, UserTable(dst, i)); }
      }
    }
  }

  lemma CopyOneExtends(m: Machine, src: PmapId, dst: PmapId, n: nat)
    requires CopiedTo(m, src, dst, n) && n < KTABLE_START
    ensures var r := CopyOne(m, src, dst, n);
            r.Some? ==> CopiedTo(r.value, src, dst, n + 1) && SameOthers(m, r.value, dst)
  {
    hide WellFormed, Synced, Kept, Alloc, Lookup, Put, Get;
    var e := Get(m, Dir(m, src), n);
    if e == ZERO {
      NextIsZero(m, src, dst, n);
    } else {
      AllocTaken(m, UserTable(dst, n));
      var a := Alloc(m, UserTable(dst, n));
      if a.Some? {
        var (m1, t) := a.value;
        KeptOthers(m, m1, dst);
        KeptDir(m, m1);
        KeptEntry(m, m1, src, n);
        KeptCopied(m, m1, src, dst, n);
        ExtendCopied(m1, src, dst, n, t);
        FillKeepsDir(m1, t, e.frame);
        OthersTrans(m, m1, CopyOne(m, src, dst, n).value, dst);
      }
    }
  }

  lemma NextIsZero(m: Machine, src: PmapId, dst: PmapId, n: nat)
    requires CopiedTo(m, src, dst, n) && n < KTABLE_START && Get(m, Dir(m, src), n) == ZERO
    ensures CopiedTo(m, src, dst, n + 1)
  {
    hide WellFormed, Synced, Get;
    assert Get(m, Dir(m, dst), n) == ZERO;
    assert Copied(m, src, dst, n);
  }

  lemma FillKeepsDir(m: Machine, t: Frame, from: Frame)
    ensures forall id :: Dir(Fill(m, t, from), id) == Dir(m, id)
  {
  }

  lemma {:induction false} CopyTablesCopy(m: Machine, src: PmapId, dst: PmapId, n: nat)
    requires CopiedTo(m, src, dst, 0) && n <= KTABLE_START
    ensures var r := CopyTables(m, src, dst, n);
            r.Some? ==> CopiedTo(r.value, src, dst, n) && SameOthers(m, r.value, dst)
  {
    hide CopiedTo, CopyOne, Lookup;
    if n > 0 {
      CopyTablesCopy(m, src, dst, n - 1);
      var r := CopyTables(m, src, dst, n - 1);
      if r.Some? {
        CopyOneExtends(r.value, src, dst, n - 1);
        var r' := CopyOne(r.value, src, dst, n - 1);
        if r'.Some? { OthersTrans(m, r.value, r'.value, dst); }
      }
    }
  }

  // ---------- the kernel's half ----------

  lemma ShareKeeps(m: Machine, id: PmapId)
    requires Good(m) && id != KERNEL && id !in m.procs && Dir(m, id) != 0
    requires forall i :: KTABLE_START <= i < NTABLES ==> Get(m, Dir(m, id), i) == ZERO
    ensures var m' := ShareEntries(m, id).(procs := m.procs + [id]);
            && Good(m') && m'.pdbr == m.pdbr
            && (forall g, i: nat :: Get(m', g, i) ==
                  if g == Dir(m, id) && KTABLE_START <= i < NTABLES then Get(m, Dir(m, KERNEL), i) else Get(m, g, i))
  {
    DirectoryInMemory(m, id);
    DirectoryInMemory(m, KERNEL);
    DistinctDirectories(m, KERNEL, id);
    var m' := ShareEntries(m, id).(procs := m.procs + [id]);
    forall g, i: nat ensures Get(m', g, i) ==
      if g == Dir(m, id) && KTABLE_START <= i < NTABLES then Get(m, Dir(m, KERNEL), i) else Get(m, g, i)
    {
      if g == Dir(m, id) && KTABLE_START <= i < NTABLES { assert Get(m, Dir(m, id), i) == ZERO; }
    }
    ShareFields(m, id);
    hide Get, ShareEntries;
    forall x ensures DirOk(m', x) { assert DirOk(m, x); }
    forall x, j | x != KERNEL && 0 <= j < KTABLE_START ensures UserEntryOk(m', x, j) {
      assert UserEntryOk(m, x, j);
    }
    forall j | 0 <= j < NTABLES ensures KernelEntryOk(m', j) { assert KernelEntryOk(m, j); }
    forall p, j | p in m'.procs && KTABLE_START <= j < NTABLES
      ensures Get(m', Dir(m', p), j) == Get(m', Dir(m', KERNEL), j)
    {
      if p in m.procs { assert Get(m, Dir(m, p), j) == Get(m, Dir(m, KERNEL), j); }
    }
  }

  lemma ShareFields(m: Machine, id: PmapId)
    ensures var m' := ShareEntries(m, id);
            && m'.role == m.role && m'.pdbr == m.pdbr && m'.procs == m.procs && m'.free == m.free
            && m'.mem.Keys == m.mem.Keys
  {
  }

  /** Filling in the kernel's half touches no user translation. */
  lemma ShareLookups(m: Machine, id: PmapId)
    requires Good(m) && id != KERNEL && id !in m.procs && Dir(m, id) != 0
    requires forall i :: KTABLE_START <= i < NTABLES ==> Get(m, Dir(m, id), i) == ZERO
    ensures SameLookups(m, ShareEntries(m, id).(procs := m.procs + [id]))
  {
    ShareKeeps(m, id);
    hide Get, WellFormed, Synced, ShareEntries;
    var m' := ShareEntries(m, id).(procs := m.procs + [id]);
    forall x, v | UserPage(x, v) ensures Lookup(m', x, v) == Lookup(m, x, v) {
      HighPde(v);
      if Get(m, Dir(m, x), Pde(v)) != ZERO {
        UserWalk(m, x, Pde(v));
        DirectoryIsNoTable(m, id, Get(m, Dir(m, x), Pde(v)).frame, UserTable(x, Pde(v)));
      }
    }
  }

  // ---------- pmap_copy and pmap_share_kernel ----------

  lemma CopiedLookup(m: Machine, src: PmapId, dst: PmapId, v: nat)
    requires CopiedTo(m, src, dst, KTABLE_START) && v < KERNEL_PAGE
    ensures Lookup(m, dst, v) == Lookup(m, src, v)
    ensures Get(m, Dir(m, dst), Pde(v)).bits == Get(m, Dir(m, src), Pde(v)).bits
  {
    hide WellFormed, Synced, Get;
    HighPde(v);
    assert Copied(m, src, dst, Pde(v));
  }

  /**
   pmap_copy: the copy translates every user page exactly as the source does, with the same bits in
   its directory; no translation of any other map changes; the copy is listed with the kernel's
   half in place.
   */
  lemma CopyTranslatesAlike(m: Machine, src: PmapId, dst: PmapId)
    requires Good(m) && src != KERNEL && dst != KERNEL && src != dst && Dir(m, src) != 0 && Dir(m, dst) == 0
    ensures var r := Copy(m, src, dst);
            r.Some? ==>
              var m' := r.value;
              && Good(m') && m'.procs == m.procs + [dst] && Dir(m', dst) != 0
              && (forall v :: UserPage(dst, v) ==>
                    && Lookup(m', dst, v) == Lookup(m, src, v)
                    && Get(m', Dir(m', dst), Pde(v)).bits == Get(m', Dir(m', src), Pde(v)).bits)
              && (forall id, v :: UserPage(id, v) && id != dst ==> Lookup(m', id, v) == Lookup(m, id, v))
  {
    hide WellFormed, Synced, Get, Lookup, NewDirectory, CopyTables, ShareEntries;
    NewDirectoryIsBlank(m, dst);
    var r1 := NewDirectory(m, dst);
    if r1.Some? {
      var m1 := r1.value;
      CopyTablesCopy(m1, src, dst, KTABLE_START);
      var r2 := CopyTables(m1, src, dst, KTABLE_START);
      if r2.Some? {
        var m2 := r2.value;
        ShareKeeps(m2, dst);
        ShareLookups(m2, dst);
        ShareFields(m2, dst);
        var m' := ShareEntries(m2, dst).(procs := m2.procs + [dst]);
        DistinctDirectories(m2, dst, src);
        forall v | UserPage(dst, v)
          ensures Lookup(m', dst, v) == Lookup(m, src, v)
          ensures Get(m', Dir(m', dst), Pde(v)).bits == Get(m', Dir(m', src), Pde(v)).bits
        {
          CopiedLookup(m2, src, dst, v);
          HighPde(v);
          assert UserPage(src, v);
        }
      }
    }
  }

  /** pmap_share_kernel: the new map is listed with the kernel's half in place and maps no user page. */
  lemma ShareKernelMapsNothing(m: Machine, dst: PmapId)
    requires Good(m) && dst != KERNEL && Dir(m, dst) == 0
    ensures var r := ShareKernel(m, dst);
            r.Some? ==>
              && Good(r.value) && r.value.procs == m.procs + [dst]
              && (forall v :: UserPage(dst, v) ==> Lookup(r.value, dst, v) == ZERO)
              && (forall id, v :: UserPage(id, v) && id != dst ==> Lookup(r.value, id, v) == Lookup(m, id, v))
  {
    hide WellFormed, Synced, NewDirectory, ShareEntries, Get;
    NewDirectoryIsBlank(m, dst);
    var r := NewDirectory(m, dst);
    if r.Some? {
      ShareKeeps(r.value, dst);
      ShareLookups(r.value, dst);
    }
  }

  /**
   pmap_copy: the copy has a user table exactly where the source has one, entered with the same bits, and
   every other map has those it had.
   */
  lemma CopyHasTables(m: Machine, src: PmapId, dst: PmapId)
    requires Good(m) && src != KERNEL && dst != KERNEL && src != dst && Dir(m, src) != 0 && Dir(m, dst) == 0
    ensures var r := Copy(m, src, dst);
            r.Some? ==>
              && (forall i :: 0 <= i < KTABLE_START ==>
                    && (Get(r.value, Dir(r.value, dst), i) == ZERO <==> Get(m, Dir(m, src), i) == ZERO)
                    && Get(r.value, Dir(r.value, dst), i).bits == Get(m, Dir(m, src), i).bits)
              && (forall x :: x != dst && x != KERNEL ==> SameDirectory(m, r.value, x))
  {
    hide WellFormed, Synced, Get, Lookup, NewDirectory, CopyTables, ShareEntries;
    NewDirectoryIsBlank(m, dst);
    var r1 := NewDirectory(m, dst);
    if r1.Some? {
      var m1 := r1.value;
      CopyTablesCopy(m1, src, dst, KTABLE_START);
      var r2 := CopyTables(m1, src, dst, KTABLE_START);
      if r2.Some? {
        var m2 := r2.value;
        ShareKeeps(m2, dst);
        var m' := ShareEntries(m2, dst).(procs := m2.procs + [dst]);
        forall x | x != dst && x != KERNEL ensures SameDirectory(m, m', x) {
          NewDirectoryKeepsOthers(m, dst, x);
          forall i | 0 <= i < KTABLE_START ensures Get(m', Dir(m', x), i) == Get(m, Dir(m, x), i) {
            assert Get(m2, Dir(m1, x), i) == Get(m1, Dir(m1, x), i);
          }
        }
        forall i | 0 <= i < KTABLE_START
          ensures Get(m', Dir(m', dst), i) == ZERO <==> Get(m, Dir(m, src), i) == ZERO
          ensures Get(m', Dir(m', dst), i).bits == Get(m, Dir(m, src), i).bits
        {
          assert SameDirectory(m, m', src);
          DistinctDirectories(m2, dst, src);
          assert Copied(m2, src, dst, i) && Get(m', Dir(m', src), i) == Get(m2, Dir(m2, src), i);
        }
      }
    }
  }

  /** pmap_share_kernel: the new map has no user table, and every other map those it had. */
  lemma ShareHasNoTables(m: Machine, dst: PmapId)
    requires Good(m) && dst != KERNEL && Dir(m, dst) == 0
    ensures var r := ShareKernel(m, dst);
            r.Some? ==>
              && (forall i :: 0 <= i < KTABLE_START ==> Get(r.value, Dir(r.value, dst), i) == ZERO)
              && (forall x :: x != dst && x != KERNEL ==> SameDirectory(m, r.value, x))
  {
    hide WellFormed, Synced, NewDirectory, ShareEntries, Get;
    NewDirectoryIsBlank(m, dst);
    var r := NewDirectory(m, dst);
    if r.Some? {
      ShareKeeps(r.value, dst);
      var m' := ShareEntries(r.value, dst).(procs := r.value.procs + [dst]);
      forall x | x != dst && x != KERNEL ensures SameDirectory(m, m', x) {
        NewDirectoryKeepsOthers(m, dst, x);
        forall i | 0 <= i < KTABLE_START ensures Get(m', Dir(m', x), i) == Get(m, Dir(m, x), i) {
          assert Get(r.value, Dir(r.value, x), i) == Get(m, Dir(m, x), i);
        }
      }
    }
  }

  /** Two maps share no user table. */
  lemma NoSharedTables(m: Machine, a: PmapId, b: PmapId, i: nat, j: nat)
    requires Good(m) && a != KERNEL && b != KERNEL && a != b && i < KTABLE_START && j < KTABLE_START
    requires Get(m, Dir(m, a), i) != ZERO && Get(m, Dir(m, b), j) != ZERO
    ensures Get(m, Dir(m, a), i).frame != Get(m, Dir(m, b), j).frame
  {
    UserWalk(m, a, i);
    UserWalk(m, b, j);
  }
}
