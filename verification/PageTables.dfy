/**
 The two-level page tables of microkernel/arch/i386/pmap.c (section 5.2, Page Translation, of the
 Intel 80386 Programmer's Reference Manual).  Physical memory is a map from the frames used as
 directories and tables to their 1024 entries.  An entry is its frame number and its low twelve
 bits; addresses are given as page numbers (address / 4096), so that addr_to_pdenum is a division by
 1024 and addr_to_ptenum the remainder.  A null result means the kernel ran out of pages and went
 through the null pointer that get_page returned.
 */
module PageTables {
  import opened Types

  const NTABLES := 1024
  const KTABLE_START := 896
  const KERNEL_PAGE := 0xE0000         // KERNEL_BASE / 4096
  const NPAGES := 0x100000             // pages of a 32-bit address space

  const PAGE_PRESENT: bv12 := 0x001
  const PAGE_RW: bv12 := 0x002

  type Frame = nat
  type PmapId = nat

  const KERNEL: PmapId := 0

  datatype Pte = Pte(frame: Frame, bits: bv12)

  const ZERO := Pte(0, 0)

  type Table = t: seq<Pte> | |t| == 1024 witness seq(1024, _ => Pte(0, 0))

  /** What a frame taken for paging is used as: a finer account of the page lists (`plist`) of the pmaps. */
  datatype Role = Directory(id: PmapId) | UserTable(id: PmapId, index: nat) | KernelTable(index: nat)

  datatype Machine = Machine(
    mem: map<Frame, Table>,
    free: seq<Frame>,               // the free page list, oldest first
    pdbr: map<PmapId, Frame>,       // each pmap's directory, 0 for none
    procs: seq<PmapId>,             // the pmaps of the listed processes
    low: Table,                     // the words of frame 0, which a zero directory entry leads to
    role: map<Frame, Role>)         // written by the operations, never read by them

  function Pde(vpage: nat): nat { vpage / NTABLES % NTABLES }

  function Index(vpage: nat): nat { vpage % NTABLES }

  /** Reading and writing an entry of a frame; frames that are not paging frames are not modelled. */
  function Get(m: Machine, f: Frame, i: nat): Pte {
    if f in m.mem && i < NTABLES then m.mem[f][i] else ZERO
  }

  function Put(m: Machine, f: Frame, i: nat, e: Pte): Machine {
    if f in m.mem && i < NTABLES then m.(mem := m.mem[f := m.mem[f][i := e]]) else m
  }

  function Dir(m: Machine, id: PmapId): Frame {
    if id in m.pdbr then m.pdbr[id] else 0
  }

  /** The entry that maps a page, or zero. */
  function Lookup(m: Machine, id: PmapId, vpage: nat): Pte {
    var pde := Get(m, Dir(m, id), Pde(vpage));
    if pde == ZERO then ZERO else Get(m, pde.frame, Index(vpage))
  }

  function KernelPage(f: Frame): nat { (f + KERNEL_PAGE) % NPAGES }

  function NewTable(): Table { seq(1024, _ => Pte(0, 0)) }

  /** kernel_map_update: store `e` at `idx` in the directory of every listed process. */
  function UpdateListed(m: Machine, idx: nat, e: Pte): Machine
    requires idx < NTABLES
  {
    var dirs := set p | p in m.procs :: Dir(m, p);
    m.(mem := map f | f in m.mem :: if f in dirs then m.mem[f][idx := e] else m.mem[f])
  }

  /** page_table_allocate: take a page, map it in the kernel, clear it. */
  function Alloc(m: Machine, role: Role): (r: Option<(Machine, Frame)>)
    ensures r.Some? ==> |r.value.0.free| < |m.free|
    decreases |m.free|, 0
  {
    if m.free == [] then None
    else
      var f := m.free[0];
      match EnterMapped(m.(free := m.free[1..]), KERNEL, f, KernelPage(f), PAGE_RW)
      case None => None
      case Some(m1) => Some((m1.(mem := m1.mem[f := NewTable()], role := m1.role[f := role]), f))
  }

  /** The role of a table that map `id` gets at `idx`. */
  function TableRole(id: PmapId, idx: nat): Role {
    if id == KERNEL then KernelTable(idx) else UserTable(id, idx)
  }

  /** pmap_enter from line 239 on, for a map that has a directory. */
  function EnterMapped(m: Machine, id: PmapId, frame: Frame, vpage: nat, prot: bv12): (r: Option<Machine>)
    ensures r.Some? ==> |r.value.free| <= |m.free|
    decreases |m.free|, 1
  {
    var d, idx := Dir(m, id), Pde(vpage);
    if Get(m, d, idx) == ZERO then
      match Alloc(m, TableRole(id, idx))
      case None => None
      case Some((m1, t)) =>
        var e := Pte(t, PAGE_PRESENT | prot);
        var m2 := if id == KERNEL then UpdateListed(m1, idx, e) else m1;
        var m3 := Put(m2, d, idx, e);
        Some(Put(m3, t, Index(vpage), Pte(frame, PAGE_PRESENT | prot)))
    else
      Some(Put(m, Get(m, d, idx).frame, Index(vpage), Pte(frame, PAGE_PRESENT | prot)))
  }

  /** pmap_enter: a map without a directory gets one first. */
  function Enter(m: Machine, id: PmapId, frame: Frame, vpage: nat, prot: bv12): Option<Machine> {
    if Dir(m, id) == 0 then
      match Alloc(m, Directory(id))
      case None => None
      case Some((m1, d)) => EnterMapped(m1.(pdbr := m1.pdbr[id := d]), id, frame, vpage, prot)
    else EnterMapped(m, id, frame, vpage, prot)
  }

  /** pmap_enter_range on `n` consecutive pages; the virtual address wraps around after the last page. */
  function EnterRange(m: Machine, id: PmapId, frame: Frame, vpage: nat, n: nat, prot: bv12): Option<Machine>
    decreases n
  {
    if n == 0 then Some(m)
    else match Enter(m, id, frame, vpage, prot)
      case None => None
      case Some(m1) => EnterRange(m1, id, frame + 1, (vpage + 1) % NPAGES, n - 1, prot)
  }

  /** Lines 325-337 for one directory entry: give `dst` its own copy of the table of `src`. */
  function CopyOne(m: Machine, src: PmapId, dst: PmapId, i: nat): Option<Machine> {
    var e := Get(m, Dir(m, src), i);
    if e == ZERO then Some(m)
    else match Alloc(m, UserTable(dst, i))
      case None => None
      case Some((m1, t)) =>
        var m2 := if e.frame in m1.mem then m1.(mem := m1.mem[t := m1.mem[e.frame]]) else m1;
        Some(Put(m2, Dir(m2, dst), i, Pte(t, e.bits)))
  }

  /** The first `n` directory entries. */
  function CopyTables(m: Machine, src: PmapId, dst: PmapId, n: nat): Option<Machine> {
    if n == 0 then Some(m)
    else match CopyTables(m, src, dst, n - 1)
      case None => None
      case Some(m1) => CopyOne(m1, src, dst, n - 1)
  }

  /** Lines 344-349 and 368-373: the kernel's entries that are not zero, copied into a directory. */
  function ShareEntries(m: Machine, id: PmapId): Machine {
    var d, k := Dir(m, id), Dir(m, KERNEL);
    if d in m.mem && k in m.mem then
      m.(mem := m.mem[d := seq(1024, i requires 0 <= i < 1024 =>
           if i >= KTABLE_START && m.mem[k][i] != ZERO then m.mem[k][i] else m.mem[d][i])])
    else m
  }

  /** A new directory for a pmap fresh from its cache. */
  function NewDirectory(m: Machine, id: PmapId): Option<Machine> {
    match Alloc(m, Directory(id))
    case None => None
    case Some((m1, d)) => Some(m1.(pdbr := m1.pdbr[id := d]))
  }

  /** pmap_copy, and the switch of the already listed child process to the new map. */
  function Copy(m: Machine, src: PmapId, dst: PmapId): Option<Machine> {
    match NewDirectory(m, dst)
    case None => None
    case Some(m1) =>
      match CopyTables(m1, src, dst, KTABLE_START)
      case None => None
      case Some(m2) => Some(ShareEntries(m2, dst).(procs := m2.procs + [dst]))
  }

  /** pmap_share_kernel, and the listing of the new process with its map. */
  function ShareKernel(m: Machine, dst: PmapId): Option<Machine> {
    match NewDirectory(m, dst)
    case None => None
    case Some(m1) => Some(ShareEntries(m1, dst).(procs := m1.procs + [dst]))
  }

  const VM_PAGE_READ: bv8 := 1
  const VM_PAGE_WRITE: bv8 := 2
  const VM_PAGE_EXEC: bv8 := 4

  /** What is done to the bits of a page: line 448 of pmap_cow, lines 422-425 of pmap_protect. */
  datatype BitChange = MakeReadOnly | Protect(prot: bv8)

  function Changed(c: BitChange, bits: bv12): bv12 {
    match c
    case MakeReadOnly => bits & !PAGE_RW
    case Protect(prot) =>
      var b := if prot & VM_PAGE_READ != 0 || prot & VM_PAGE_EXEC != 0 then bits & !PAGE_RW else bits;
      if prot & VM_PAGE_WRITE != 0 then b | PAGE_RW else b
  }

  function ChangedEntry(c: BitChange, e: Pte): Pte { Pte(e.frame, Changed(c, e.bits)) }

  /**
   One round of the loops of pmap_cow and pmap_protect.  Neither looks whether the page has a table:
   without one the entry is taken, and written, in frame 0.
   */
  function RewriteOne(m: Machine, id: PmapId, vpage: nat, c: BitChange): Machine {
    var pde, i := Get(m, Dir(m, id), Pde(vpage)), Index(vpage);
    if pde == ZERO then m.(low := m.low[i := ChangedEntry(c, m.low[i])])
    else Put(m, pde.frame, i, ChangedEntry(c, Get(m, pde.frame, i)))
  }

  /** Change the bits of the entries of `n` pages, one by one. */
  function Rewrite(m: Machine, id: PmapId, vpage: nat, n: nat, c: BitChange): Machine
    decreases n
  {
    if n == 0 then m else Rewrite(RewriteOne(m, id, vpage, c), id, vpage + 1, n - 1, c)
  }
}
