/**
 One slab of microkernel/mm/vm_slab.c: a page holding a header, an array `bufctl` that chains the
 free objects by index, and the objects themselves.  Allocation is modelled while the chain is not
 empty, and freeing for live objects of this slab.
 */
module SlabChain {
  import opened Arithmetic

  const PAGE_SIZE := 0x1000
  const HEADER := 16               // sizeof(struct kmem_slab)
  const CTL := 2                   // sizeof(bufctl_t)
  const BUFCTL_END := 0xFFFF

  datatype Slab = Slab(bufctl: seq<nat>, free: nat, nentries: int)

  // ---------- layout ----------

  function NObjects(size: nat): nat { (PAGE_SIZE - HEADER) / (size + CTL) }

  function Waste(size: nat): nat { (PAGE_SIZE - HEADER) % (size + CTL) }

  /** cache_calculate accounts for every byte after the header, and one more object would not fit. */
  lemma CacheCalculateExact(size: nat)
    ensures 16 + NObjects(size) * (2 + size) + Waste(size) == 4096
    ensures 16 + (NObjects(size) + 1) * (2 + size) > 4096
    ensures NObjects(size) < 0xFFFF
    ensures NObjects(size) == 0 <==> size > 4078
  {
    var d := size + CTL;
    var q, r := NObjects(size), Waste(size);
    assert PAGE_SIZE - HEADER == q * d + r;
    assert (q + 1) * d == q * d + d;
    assert q <= q * d by { if q > 0 { MulAtLeast(q, d); } }
    if q == 0 { assert q * d == 0; } else { MulAtLeast(d, q); }
  }

  lemma CacheFits(size: nat)
    ensures HEADER + NObjects(size) * (CTL + size) <= PAGE_SIZE
  {
    CacheCalculateExact(size);
  }

  lemma MulAtLeast(a: nat, b: nat)
    requires b > 0
    ensures a <= a * b
  {
    assert a * (b - 1) >= 0;
    assert a * b == a * (b - 1) + a;
  }

  function ObjAddr(base: nat, size: nat): nat { base + HEADER + NObjects(size) * CTL }

  function AddrOf(base: nat, size: nat, i: nat): nat { ObjAddr(base, size) + i * size }

  /** Objects lie inside the page, past the header and the whole bufctl array, and do not overlap. */
  lemma ObjectsApart(base: nat, size: nat, i: nat, j: nat)
    requires i < j < NObjects(size)
    ensures AddrOf(base, size, i) == base + 16 + NObjects(size) * 2 + i * size
    ensures AddrOf(base, size, i) + size <= AddrOf(base, size, j)
    ensures AddrOf(base, size, j) + size <= base + 4096
  {
    hide NObjects;
    var n := NObjects(size);
    CacheFits(size);
    Apart(n, size, i, j);
    assert AddrOf(base, size, i) == base + HEADER + n * CTL + i * size;
    assert AddrOf(base, size, j) == base + HEADER + n * CTL + j * size;
  }

  lemma Apart(n: nat, size: nat, i: nat, j: nat)
    requires HEADER + n * (CTL + size) <= PAGE_SIZE && i < j < n
    ensures i * size + size <= j * size
    ensures HEADER + n * CTL + j * size + size <= PAGE_SIZE
  {
    Distribute(n, CTL, size);
    MulMonotone(i + 1, j, size);
    MulMonotone(j + 1, n, size);
    Distribute(size, i, 1);
    Distribute(size, j, 1);
  }

  lemma Distribute(a: nat, b: nat, c: nat)
    ensures a * (b + c) == a * b + a * c
  {
  }

  /** Line 241 finds the index of an object from its address. */
  lemma IndexOfAddr(base: nat, size: nat, i: nat)
    requires size > 0
    ensures (AddrOf(base, size, i) - ObjAddr(base, size)) / size == i
  {
    DivExact(i, size);
  }

  lemma {:induction false} DivExact(i: nat, d: nat)
    requires d > 0
    ensures i * d / d == i
  {
    if i > 0 {
      DivExact(i - 1, d);
      assert i * d == (i - 1) * d + d;
      DivPlusOne((i - 1) * d, d);
    }
  }

  lemma DivPlusOne(x: nat, d: nat)
    requires d > 0
    ensures (x + d) / d == x / d + 1
  {
    var q, r := x / d, x % d;
    assert x + d == (q + 1) * d + r;
    DivUnique(x + d, d, q + 1, r);
  }

  // ---------- the chain of free objects ----------

  /** `c` lists the indices met by following `bufctl` from `start` to the end mark. */
  ghost predicate IsChain(bufctl: seq<nat>, start: nat, c: seq<nat>)
    decreases |c|
  {
    if c == [] then start == BUFCTL_END
    else c[0] == start && start < |bufctl| && start != BUFCTL_END && IsChain(bufctl, bufctl[start], c[1..])
  }

  lemma {:induction false} ChainUnique(bufctl: seq<nat>, start: nat, c: seq<nat>, d: seq<nat>)
    requires IsChain(bufctl, start, c) && IsChain(bufctl, start, d)
    ensures c == d
    decreases |c|
  {
    if c != [] && d != [] {
      ChainUnique(bufctl, bufctl[start], c[1..], d[1..]);
      assert c == [c[0]] + c[1..] && d == [d[0]] + d[1..];
    }
  }

  lemma {:induction false} ChainSuffix(bufctl: seq<nat>, start: nat, c: seq<nat>, i: nat)
    requires IsChain(bufctl, start, c) && i < |c|
    ensures IsChain(bufctl, c[i], c[i..])
    decreases i
  {
    if i > 0 {
      ChainSuffix(bufctl, bufctl[start], c[1..], i - 1);
      assert c[1..][i - 1..] == c[i..];
    }
  }

  /** A chain that ends cannot come back to an index it has passed: it is acyclic. */
  lemma ChainAcyclic(bufctl: seq<nat>, start: nat, c: seq<nat>, i: nat, j: nat)
    requires IsChain(bufctl, start, c) && i < j < |c|
    ensures c[i] != c[j]
  {
    if c[i] == c[j] {
      ChainSuffix(bufctl, start, c, i);
      ChainSuffix(bufctl, start, c, j);
      ChainUnique(bufctl, c[i], c[i..], c[j..]);
      assert false;
    }
  }

  /** Writing an entry off the chain leaves the chain alone. */
  lemma {:induction false} ChainFrame(bufctl: seq<nat>, start: nat, c: seq<nat>, i: nat, v: nat)
    requires IsChain(bufctl, start, c) && i < |bufctl| && i !in c
    ensures IsChain(bufctl[i := v], start, c)
    decreases |c|
  {
    if c != [] { ChainFrame(bufctl, bufctl[start], c[1..], i, v); }
  }

  // ---------- the invariant and the operations ----------

  /** The chain from `free` lists exactly the objects that are not live, and `nentries` counts the live ones. */
  ghost predicate Holds(s: Slab, live: set<nat>, chain: seq<nat>) {
    && 0 < |s.bufctl| < BUFCTL_END
    && IsChain(s.bufctl, s.free, chain)
    && (forall i :: 0 <= i < |s.bufctl| ==> (i in chain <==> i !in live))
    && (forall i :: i in chain ==> i < |s.bufctl|)
    && (forall i :: i in live ==> i < |s.bufctl|)
    && s.nentries == |live| && s.nentries + |chain| == |s.bufctl|
  }

  /** The in-slab part of kmem_cache_alloc: lines 217-219. */
  function AllocObject(s: Slab): (r: (Slab, nat))
    requires s.free < |s.bufctl|
  {
    (s.(free := s.bufctl[s.free], nentries := s.nentries + 1), s.free)
  }

  /** The in-slab part of kmem_cache_free: lines 242-245. */
  function FreeObject(s: Slab, i: nat): Slab
    requires i < |s.bufctl|
  {
    s.(bufctl := s.bufctl[i := s.free], free := i, nentries := s.nentries - 1)
  }

  /** The slab is exhausted exactly when every object is live. */
  lemma ExhaustedIff(s: Slab, live: set<nat>, chain: seq<nat>)
    requires Holds(s, live, chain)
    ensures s.free == 0xFFFF <==> chain == []
    ensures s.free == 0xFFFF <==> s.nentries == |s.bufctl|
    ensures s.free == 0xFFFF <==> forall i :: 0 <= i < |s.bufctl| ==> i in live
  {
    if chain != [] { assert chain[0] in chain; }
  }

  lemma AllocKeeps(s: Slab, live: set<nat>, chain: seq<nat>)
    requires Holds(s, live, chain) && s.free != BUFCTL_END
    ensures s.free < |s.bufctl|
    ensures var (s', i) := AllocObject(s);
            i !in live && i == chain[0] && Holds(s', live + {i}, chain[1..])
  {
    var (s', i) := AllocObject(s);
    assert chain == [i] + chain[1..];
    assert i in chain && forall k :: k in chain[1..] ==> k in chain;
    forall k | k in chain[1..] ensures k != i {
      var j :| 1 <= j < |chain| && chain[j] == k;
      ChainAcyclic(s.bufctl, s.free, chain, 0, j);
    }
  }

  lemma FreeKeeps(s: Slab, live: set<nat>, chain: seq<nat>, i: nat)
    requires Holds(s, live, chain) && i in live
    ensures i < |s.bufctl|
    ensures Holds(FreeObject(s, i), live - {i}, [i] + chain)
  {
    ChainFrame(s.bufctl, s.free, chain, i, s.free);
    assert ([i] + chain)[1..] == chain;
  }

  /** Freeing what was just allocated restores the slab exactly. */
  lemma FreeUndoesAlloc(s: Slab, live: set<nat>, chain: seq<nat>)
    requires Holds(s, live, chain) && s.free != BUFCTL_END
    ensures s.free < |s.bufctl|
    ensures var (s', i) := AllocObject(s); i < |s'.bufctl| && FreeObject(s', i) == s
  {
    AllocKeeps(s, live, chain);
  }

  // ---------- runs ----------

  datatype Op = Alloc | Free(i: nat)

  datatype Tracked = Tracked(s: Slab, live: set<nat>, chain: seq<nat>)

  ghost predicate Ok(t: Tracked) { Holds(t.s, t.live, t.chain) }

  ghost predicate Enabled(t: Tracked, op: Op) {
    match op
    case Alloc => t.s.free != BUFCTL_END
    case Free(i) => i in t.live
  }

  ghost function Apply(t: Tracked, op: Op): Tracked
    requires Ok(t) && Enabled(t, op)
  {
    match op
    case Alloc =>
      AllocKeeps(t.s, t.live, t.chain);
      var (s, i) := AllocObject(t.s);
      Tracked(s, t.live + {i}, t.chain[1..])
    case Free(i) => Tracked(FreeObject(t.s, i), t.live - {i}, [i] + t.chain)
  }

  ghost predicate Next(t: Tracked, op: Op, t': Tracked)
    requires Ok(t)
  {
    Enabled(t, op) && t' == Apply(t, op)
  }

  ghost predicate IsRun(ts: seq<Tracked>, ops: seq<Op>) {
    && |ts| == |ops| + 1 && Ok(ts[0])
    && forall k :: 0 <= k < |ops| && Ok(ts[k]) ==> Next(ts[k], ops[k], ts[k + 1])
  }

  /** In every state of every run the chain is acyclic and complementary to the live objects. */
  lemma {:induction false} RunHolds(ts: seq<Tracked>, ops: seq<Op>, n: nat)
    requires IsRun(ts, ops) && n < |ts|
    ensures Ok(ts[n])
  {
    if n > 0 {
      RunHolds(ts, ops, n - 1);
      assert Next(ts[n - 1], ops[n - 1], ts[n - 1 + 1]);
      var t := ts[n - 1];
      match ops[n - 1]
      case Alloc => AllocKeeps(t.s, t.live, t.chain);
      case Free(i) => FreeKeeps(t.s, t.live, t.chain, i);
    }
  }

  // ---------- in place ----------

  class Page {
    const base: nat
    const size: nat
    const bufctl: array<nat>
    var free: nat
    var nentries: int
    ghost var live: set<nat>
    ghost var chain: seq<nat>

    ghost function State(): Slab
      reads this, bufctl
    {
      Slab(bufctl[..], free, nentries)
    }

    ghost predicate Valid()
      reads this, bufctl
    {
      && size > 0 && bufctl.Length == NObjects(size)
      && Holds(State(), live, chain)
    }

    /** slab_fill; a cache whose objects do not fit is never created. */
    constructor (base: nat, size: nat)
      requires 0 < size <= PAGE_SIZE - HEADER - CTL
      ensures Valid() && live == {} && fresh(bufctl)
      ensures this.base == base && this.size == size
    {
      CacheCalculateExact(size);
      this.base, this.size, free, nentries := base, size, 0, 0;
      var n := NObjects(size);
      bufctl := new nat[n];
      live, chain := {}, Upto(0, n);
      new;
      hide NObjects, IsChain;
      for i := 0 to n
        invariant forall k :: 0 <= k < i ==> bufctl[k] == k + 1
        invariant free == 0 && nentries == 0 && live == {} && chain == Upto(0, n)
      {
        bufctl[i] := i + 1;
      }
      bufctl[n - 1] := BUFCTL_END;
      FilledChain(bufctl[..], 0);
      UptoMembers(n);
    }

    method Alloc() returns (objp: nat)
      requires Valid() && free != BUFCTL_END
      modifies this
      ensures Valid()
      ensures (State(), old(free)) == AllocObject(old(State()))
      ensures objp == AddrOf(base, size, old(free)) && old(free) !in old(live) && live == old(live) + {old(free)}
    {
      AllocKeeps(State(), live, chain);
      objp := ObjAddr(base, size) + free * size;
      live, chain := live + {free}, chain[1..];
      free := bufctl[free];
      nentries := nentries + 1;
    }

    method Free(obj: nat, ghost i: nat)
      requires Valid() && i in live && obj == AddrOf(base, size, i)
      modifies this, bufctl
      ensures Valid()
      ensures State() == FreeObject(old(State()), i)
      ensures live == old(live) - {i}
    {
      IndexOfAddr(base, size, i);
      FreeKeeps(State(), live, chain, i);
      var nobj := (obj - ObjAddr(base, size)) / size;
      bufctl[nobj] := free;
      free := nobj;
      nentries := nentries - 1;
      live, chain := live - {i}, [i] + chain;
    }
  }

  /** After slab_fill the chain runs through every index in order. */
  lemma {:induction false} FilledChain(bufctl: seq<nat>, i: nat)
    requires i < |bufctl| < BUFCTL_END
    requires forall k :: 0 <= k < |bufctl| - 1 ==> bufctl[k] == k + 1
    requires bufctl[|bufctl| - 1] == BUFCTL_END
    ensures IsChain(bufctl, i, Upto(i, |bufctl|))
    decreases |bufctl| - i
  {
    var c := Upto(i, |bufctl|);
    assert c[1..] == Upto(i + 1, |bufctl|);
    if i + 1 < |bufctl| { FilledChain(bufctl, i + 1); }
  }

  /** The indices from `i` up to but not including `n`. */
  ghost function Upto(i: nat, n: nat): (c: seq<nat>)
    requires i <= n
    ensures |c| == n - i && forall k :: 0 <= k < |c| ==> c[k] == i + k
    decreases n - i
  {
    if i == n then [] else [i] + Upto(i + 1, n)
  }

  lemma UptoMembers(n: nat)
    ensures forall i :: 0 <= i < n ==> i in Upto(0, n)
    ensures forall i :: i in Upto(0, n) ==> i < n
  {
    forall i | 0 <= i < n ensures i in Upto(0, n) { assert Upto(0, n)[i] == i; }
  }
}
