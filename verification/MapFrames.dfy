/**
 How many pages the page-table operations take.  What an allocation takes depends on nothing but the
 free list and the regions for which the kernel has tables; `Supply` is that account.  Each operation
 on a user map succeeds if and only if the supply lasts for the pages it needs, and leaves exactly the
 free list and the kernel tables that the account says.
 */
module MapFrames {
  import opened Types
  import opened PageTables
  import opened PageTableProofs
  import opened UserMaps
  import opened MapCopies
  import opened MapRuns
  import opened KernelTables

  /** The regions of the first `n` free frames. */
  ghost function Regions(free: seq<Frame>, n: nat): set<nat>
    requires n <= |free|
  {
    set i | 0 <= i < n :: Region(free[i])
  }

  /** Kernel tables and free list after `k` allocations; none when no free frame with a kernel table is left. */
  ghost function Supply(tables: set<nat>, free: seq<Frame>, k: nat): Option<(set<nat>, seq<Frame>)>
    decreases k
  {
    if k == 0 then Some((tables, free))
    else
      var n := First(tables, free);
      if n == |free| then None
      else Supply(tables + Regions(free, n), free[n + 1..], k - 1)
  }

  ghost function Further(s: Option<(set<nat>, seq<Frame>)>, b: nat): Option<(set<nat>, seq<Frame>)> {
    if s == None then None else Supply(s.value.0, s.value.1, b)
  }

  lemma SupplyZero(tables: set<nat>, free: seq<Frame>, b: nat)
    ensures Further(None, b) == None && Further(Supply(tables, free, 0), b) == Supply(tables, free, b)
  {
  }

  lemma SupplyStep(tables: set<nat>, free: seq<Frame>, k: nat)
    requires k > 0
    ensures var n := First(tables, free);
            Supply(tables, free, k)
            == if n == |free| then None else Supply(tables + Regions(free, n), free[n + 1..], k - 1)
  {
  }

  lemma {:induction false} SupplyAdds(tables: set<nat>, free: seq<Frame>, a: nat, b: nat)
    ensures Supply(tables, free, a + b) == Further(Supply(tables, free, a), b)
    decreases a
  {
    hide Supply, First, Regions, Further;
    SupplyZero(tables, free, b);
    if a > 0 {
      var n := First(tables, free);
      SupplyStep(tables, free, a);
      SupplyStep(tables, free, a + b);
      if n < |free| {
        SupplyAdds(tables + Regions(free, n), free[n + 1..], a - 1, b);
        assert a - 1 + b == a + b - 1;
      }
    }
  }

  /** While every free frame has a kernel table, each allocation takes one page and no table is added. */
  lemma {:induction false} SupplyReady(tables: set<nat>, free: seq<Frame>, k: nat)
    requires forall i :: 0 <= i < |free| ==> Region(free[i]) in tables
    ensures Supply(tables, free, k) == if |free| < k then None else Some((tables, free[k..]))
    decreases k
  {
    if k > 0 && free != [] {
      var rest := tables + Regions(free, 0);
      assert rest == tables && free[0 + 1..] == free[1..];
      forall i | 0 <= i < |free[1..]| ensures Region(free[1..][i]) in tables { assert free[1..][i] == free[i + 1]; }
      SupplyReady(tables, free[1..], k - 1);
      assert |free| >= k ==> free[1..][k - 1..] == free[k..];
    }
  }

  /** `r` is what `k` allocations lead to: a success with that free list and those kernel tables, or none. */
  ghost predicate Takes(m: Machine, k: nat, r: Option<Machine>) {
    match Supply(Tables(m), m.free, k)
    case None => r == None
    case Some((t, f)) => r.Some? && r.value.free == f && Tables(r.value) == t
  }

  lemma TakesThen(m: Machine, a: nat, m1: Machine, b: nat, r: Option<Machine>)
    requires Takes(m, a, Some(m1)) && Takes(m1, b, r)
    ensures Takes(m, a + b, r)
  {
    SupplyAdds(Tables(m), m.free, a, b);
  }

  lemma TakesFails(m: Machine, a: nat, b: nat)
    requires Takes(m, a, None)
    ensures Takes(m, a + b, None)
  {
    SupplyAdds(Tables(m), m.free, a, b);
  }

  lemma TakesNone(m: Machine)
    ensures Takes(m, 0, Some(m))
  {
  }

  /** A change that leaves the free list and the kernel's directory alone takes nothing. */
  lemma SameSupply(m: Machine, n: nat, m1: Machine, m2: Machine)
    requires Takes(m, n, Some(m1)) && m2.free == m1.free && Dir(m2, KERNEL) == Dir(m1, KERNEL)
    requires forall j :: Get(m2, Dir(m1, KERNEL), j) == Get(m1, Dir(m1, KERNEL), j)
    ensures Takes(m, n, Some(m2))
  {
    hide Get;
    assert Tables(m2) == Tables(m1);
  }

  /** Writing anywhere but into the kernel's directory takes nothing. */
  lemma PutTakes(m: Machine, n: nat, m1: Machine, f: Frame, i: nat, e: Pte)
    requires Takes(m, n, Some(m1)) && f != Dir(m1, KERNEL)
    ensures Takes(m, n, Some(Put(m1, f, i, e)))
  {
    var m' := Put(m1, f, i, e);
    forall j ensures Get(m', Dir(m1, KERNEL), j) == Get(m1, Dir(m1, KERNEL), j) {
      GetPut(m1, f, i, e, Dir(m1, KERNEL), j);
    }
    PutFields(m1, f, i, e);
    hide Get, Put;
    SameSupply(m, n, m1, m');
  }

  lemma AllocTakes(m: Machine, role: Role)
    requires Good(m)
    ensures var r := Alloc(m, role); Takes(m, 1, if r.Some? then Some(r.value.0) else None)
  {
    hide WellFormed, Synced, Get, EnterMapped, Tables, NestEntry, NestLookup, Lookup;
    AllocNests(m, role);
    var r, n := Alloc(m, role), First(Tables(m), m.free);
    if r.Some? {
      AllocTaken(m, role);
      NestTables(m, r.value.0, n);
    }
  }

  /** The nest adds a table for the region of each of its pages but the last. */
  lemma NestTables(m: Machine, m': Machine, n: nat)
    requires Good(m) && n < |m.free| && Nested(m, m', n) && m'.pdbr == m.pdbr
    ensures Tables(m') == Tables(m) + Regions(m.free, n)
  {
    hide WellFormed, Synced, Get, Lookup, NestEntry, NestLookup;
    FreeIsLow(m);
    var s := Regions(m.free, n);
    forall i: nat | KTABLE_START <= i < NTABLES ensures i in Tables(m') <==> i in Tables(m) || i in s {
      assert Dir(m', KERNEL) == Dir(m, KERNEL);
      NestEntryIs(m.free, n, i, Get(m, Dir(m, KERNEL), i));
    }
    forall i | 0 <= i < n ensures KTABLE_START <= Region(m.free[i]) < NTABLES { TablesAt(m, m.free[i]); }
  }

  lemma {:induction false} NestEntryIs(free: seq<Frame>, n: nat, i: nat, before: Pte)
    requires n < |free| && LowFrames(free)
    ensures NestEntry(free, n, i, before) != ZERO <==> before != ZERO || i in Regions(free, n)
  {
    if n > 0 {
      NestEntryIs(free[1..], n - 1, i, before);
      var s, s1 := Regions(free, n), Regions(free[1..], n - 1);
      assert Region(free[0]) in s;
      forall x | x in s1 ensures x in s {
        var j :| 0 <= j < n - 1 && x == Region(free[1..][j]);
        assert Region(free[j + 1]) == x;
      }
      forall x | x in s && x != Region(free[0]) ensures x in s1 {
        var j :| 0 <= j < n && x == Region(free[j]);
        assert Region(free[1..][j - 1]) == x;
      }
    }
  }

  // ---------- pmap_enter ----------

  /** A directory if the map has none, and a table if the page has none. */
  ghost function PagesToEnter(m: Machine, id: PmapId, v: nat): nat {
    if Dir(m, id) == 0 then 2 else if Get(m, Dir(m, id), Pde(v)) == ZERO then 1 else 0
  }

  lemma EnterMappedTakes(m: Machine, id: PmapId, frame: Frame, v: nat, prot: bv12)
    requires Good(m) && UserPage(id, v) && Dir(m, id) != 0
    ensures Takes(m, PagesToEnter(m, id, v), EnterMapped(m, id, frame, v, prot))
  {
    hide WellFormed, Synced, Kept, Get, Put, Alloc, Takes;
    HighPde(v);
    var d, i, e := Dir(m, id), Pde(v), Pte(frame, PAGE_PRESENT | prot);
    if Get(m, d, i) == ZERO {
      AllocTaken(m, UserTable(id, i));
      AllocTakes(m, UserTable(id, i));
      var a := Alloc(m, UserTable(id, i));
      if a.Some? {
        var (m1, t) := a.value;
        var e0 := Pte(t, PAGE_PRESENT | prot);
        KeptEntry(m, m1, id, i);
        KernelDirectory(m1);
        DistinctDirectories(m1, KERNEL, id);
        DirectoryIsNoTable(m1, KERNEL, t, UserTable(id, i));
        PutTakes(m, 1, m1, d, i, e0);
        PutFields(m1, d, i, e0);
        PutTakes(m, 1, Put(m1, d, i, e0), t, Index(v), e);
      }
    } else {
      var t := Get(m, d, i).frame;
      TakesNone(m);
      UserWalk(m, id, i);
      DirectoryIsNoTable(m, KERNEL, t, UserTable(id, i));
      PutTakes(m, 0, m, t, Index(v), e);
    }
  }

  lemma DirectoryTakes(m: Machine, id: PmapId)
    requires Good(m) && id != KERNEL
    ensures Takes(m, 1, NewDirectory(m, id))
  {
    AllocTakes(m, Directory(id));
    hide WellFormed, Synced, Get, Alloc;
    var a := Alloc(m, Directory(id));
    if a.Some? {
      var (m1, d) := a.value;
      var m2 := m1.(pdbr := m1.pdbr[id := d]);
      forall j ensures Get(m2, Dir(m1, KERNEL), j) == Get(m1, Dir(m1, KERNEL), j) {
        SameEntries(m1, m2, Dir(m1, KERNEL), j);
      }
      SameSupply(m, 1, m1, m2);
    }
  }

  /** pmap_enter takes a page for the directory and one for the table that are missing, and no other. */
  lemma EnterTakesExactly(m: Machine, id: PmapId, frame: Frame, v: nat, prot: bv12)
    requires Good(m) && UserPage(id, v)
    ensures Takes(m, PagesToEnter(m, id, v), Enter(m, id, frame, v, prot))
  {
    if Dir(m, id) == 0 {
      DirectoryTakes(m, id);
      NewDirectoryIsBlank(m, id);
      hide WellFormed, Synced, Get, Alloc, EnterMapped, Takes;
      var r := NewDirectory(m, id);
      if r.Some? {
        EnterMappedTakes(r.value, id, frame, v, prot);
        TakesThen(m, 1, r.value, 1, EnterMapped(r.value, id, frame, v, prot));
      } else {
        TakesFails(m, 1, 1);
      }
    } else {
      EnterMappedTakes(m, id, frame, v, prot);
    }
  }

  // ---------- pmap_copy and pmap_share_kernel ----------

  /** The user tables among the first `n` directory entries of a map. */
  ghost function TablesOf(m: Machine, id: PmapId, n: nat): nat {
    if n == 0 then 0
    else TablesOf(m, id, n - 1) + if Get(m, Dir(m, id), n - 1) == ZERO then 0 else 1
  }

  lemma CopyOneTakes(m: Machine, src: PmapId, dst: PmapId, i: nat)
    requires CopiedTo(m, src, dst, i) && i < KTABLE_START
    ensures var r := CopyOne(m, src, dst, i);
            && Takes(m, if Get(m, Dir(m, src), i) == ZERO then 0 else 1, r)
            && (r.Some? ==> SameDirectory(m, r.value, src))
  {
    hide WellFormed, Synced, Kept, Get, Put, Alloc, Takes, Copied;
    var e := Get(m, Dir(m, src), i);
    if e == ZERO {
      TakesNone(m);
    } else {
      AllocTaken(m, UserTable(dst, i));
      AllocTakes(m, UserTable(dst, i));
      var a := Alloc(m, UserTable(dst, i));
      if a.Some? {
        var (m1, t) := a.value;
        forall j | 0 <= j < KTABLE_START ensures Get(m1, Dir(m1, src), j) == Get(m, Dir(m, src), j) {
          KeptEntry(m, m1, src, j);
        }
        KeptDir(m, m1);
        UserWalk(m1, src, i);
        FillAndLink(m, m1, src, dst, i, t, e);
      }
    }
  }

  lemma FillAndLink(m: Machine, m1: Machine, src: PmapId, dst: PmapId, i: nat, t: Frame, e: Pte)
    requires Good(m1) && Takes(m, 1, Some(m1)) && src != KERNEL && dst != KERNEL && src != dst
    requires Dir(m1, src) != 0 && Dir(m1, dst) != 0 && i < KTABLE_START
    requires Holds(m1, t, UserTable(dst, i)) && Holds(m1, e.frame, UserTable(src, i))
    ensures var m' := Put(Fill(m1, t, e.frame), Dir(m1, dst), i, Pte(t, e.bits));
            Takes(m, 1, Some(m')) && SameDirectory(m1, m', src)
  {
    hide WellFormed, Synced, Get, Put, Takes;
    var m2, d := Fill(m1, t, e.frame), Dir(m1, dst);
    FillKeeps(m1, t, e.frame, dst, i, src);
    KernelDirectory(m1);
    DistinctDirectories(m1, KERNEL, dst);
    DistinctDirectories(m1, dst, src);
    DirectoryIsNoTable(m1, KERNEL, t, UserTable(dst, i));
    DirectoryIsNoTable(m1, src, t, UserTable(dst, i));
    SameSupply(m, 1, m1, m2);
    PutTakes(m, 1, m2, d, i, Pte(t, e.bits));
    PutFields(m2, d, i, Pte(t, e.bits));
    forall j | 0 <= j < KTABLE_START
      ensures Get(Put(m2, d, i, Pte(t, e.bits)), Dir(m1, src), j) == Get(m1, Dir(m1, src), j)
    {
      GetPut(m2, d, i, Pte(t, e.bits), Dir(m1, src), j);
    }
  }

  lemma {:induction false} CopyTablesTake(m: Machine, src: PmapId, dst: PmapId, n: nat)
    requires CopiedTo(m, src, dst, 0) && n <= KTABLE_START
    ensures var r := CopyTables(m, src, dst, n);
            && Takes(m, TablesOf(m, src, n), r)
            && (r.Some? ==> SameDirectory(m, r.value, src))
  {
    hide CopiedTo, CopyOne, Get, Takes;
    if n == 0 {
      TakesNone(m);
    } else {
      CopyTablesTake(m, src, dst, n - 1);
      CopyTablesCopy(m, src, dst, n - 1);
      var r := CopyTables(m, src, dst, n - 1);
      if r.Some? {
        CopyOneTakes(r.value, src, dst, n - 1);
        TakesThen(m, TablesOf(m, src, n - 1), r.value, TablesOf(m, src, n) - TablesOf(m, src, n - 1),
                  CopyOne(r.value, src, dst, n - 1));
      } else {
        TakesFails(m, TablesOf(m, src, n - 1), TablesOf(m, src, n) - TablesOf(m, src, n - 1));
      }
    }
  }

  lemma {:induction false} TablesSame(m: Machine, m': Machine, id: PmapId, n: nat)
    requires SameDirectory(m, m', id) && n <= KTABLE_START
    ensures TablesOf(m', id, n) == TablesOf(m, id, n)
  {
    hide Get;
    if n > 0 { TablesSame(m, m', id, n - 1); }
  }

  /** Filling in the kernel's half and listing the process takes no page. */
  lemma ShareTakes(m: Machine, n: nat, m1: Machine, id: PmapId)
    requires Good(m1) && Takes(m, n, Some(m1)) && id != KERNEL && Dir(m1, id) != 0
    ensures Takes(m, n, Some(ShareEntries(m1, id).(procs := m1.procs + [id])))
  {
    var m2 := ShareEntries(m1, id).(procs := m1.procs + [id]);
    KernelDirectory(m1);
    DistinctDirectories(m1, KERNEL, id);
    ShareFields(m1, id);
    forall j ensures Get(m2, Dir(m1, KERNEL), j) == Get(m1, Dir(m1, KERNEL), j) {
    }
    hide Get, ShareEntries, WellFormed, Synced;
    SameSupply(m, n, m1, m2);
  }

  /** pmap_copy after the directory: one page for each user table of the source. */
  lemma CopyRestTakes(m1: Machine, src: PmapId, dst: PmapId)
    requires Good(m1) && Blank(m1, dst) && src != KERNEL && src != dst && Dir(m1, src) != 0
    ensures var r := CopyTables(m1, src, dst, KTABLE_START);
            var share := if r.Some? then Some(ShareEntries(r.value, dst).(procs := r.value.procs + [dst])) else None;
            Takes(m1, TablesOf(m1, src, KTABLE_START), share)
  {
    hide WellFormed, Synced, Get, CopyTables, ShareEntries, Takes, TablesOf;
    BlankIsCopied(m1, src, dst);
    CopyTablesTake(m1, src, dst, KTABLE_START);
    CopyTablesCopy(m1, src, dst, KTABLE_START);
    var r := CopyTables(m1, src, dst, KTABLE_START);
    if r.Some? { ShareTakes(m1, TablesOf(m1, src, KTABLE_START), r.value, dst); }
  }

  /**
   pmap_copy succeeds if and only if there is a page for the directory and one for each user table of
   the source, and takes exactly those and what their kernel tables take.
   */
  lemma CopyTakesExactly(m: Machine, src: PmapId, dst: PmapId)
    requires Good(m) && Enabled(m, CopyMap(src, dst))
    ensures Takes(m, 1 + TablesOf(m, src, KTABLE_START), Copy(m, src, dst))
  {
    DirectoryTakes(m, dst);
    NewDirectoryIsBlank(m, dst);
    NewDirectoryKeepsOthers(m, dst, src);
    hide WellFormed, Synced, Get, NewDirectory, CopyTables, ShareEntries, Takes, TablesOf, SameDirectory, Blank;
    hide SameLookups;
    var r := NewDirectory(m, dst);
    if r.Some? {
      CopyRestTakes(r.value, src, dst);
      TablesSame(m, r.value, src, KTABLE_START);
      TakesThen(m, 1, r.value, TablesOf(m, src, KTABLE_START), Copy(m, src, dst));
    } else {
      TakesFails(m, 1, TablesOf(m, src, KTABLE_START));
    }
  }

  lemma BlankIsCopied(m: Machine, src: PmapId, dst: PmapId)
    requires Good(m) && Blank(m, dst) && src != KERNEL && src != dst && Dir(m, src) != 0
    ensures CopiedTo(m, src, dst, 0)
  {
    hide WellFormed, Synced;
  }

  /** pmap_share_kernel takes the page of the directory and no other. */
  lemma ShareTakesExactly(m: Machine, dst: PmapId)
    requires Good(m) && Enabled(m, ShareMap(dst))
    ensures Takes(m, 1, ShareKernel(m, dst))
  {
    DirectoryTakes(m, dst);
    NewDirectoryIsBlank(m, dst);
    hide WellFormed, Synced, Get, NewDirectory, ShareEntries, Takes;
    var r := NewDirectory(m, dst);
    if r.Some? { ShareTakes(m, 1, r.value, dst); }
  }
}
