/**
 The boot-time frame allocator of microkernel/arch/i386/memory.c.  Addresses are 32-bit: the macros
 `align_page` and `nextend` wrap around.  A C string at address a of length n is the interval [a, a + n).
 */
module BootFrames {
  import opened Types

  const PAGE_SIZE := 0x1000
  const WORD := 0x1_0000_0000
  const LAST_PAGE := 0xFFFF_F000

  /** get_aligned: round up to a page boundary, modulo 2^32. */
  function Align(a: nat): nat {
    (a + (PAGE_SIZE - 1)) % WORD / PAGE_SIZE * PAGE_SIZE
  }

  /** Rounding up does round up if and only if the address is not inside the last page of the address space. */
  lemma AlignIff(a: nat)
    requires a < WORD
    ensures Align(a) >= a <==> a <= LAST_PAGE
    ensures a <= LAST_PAGE ==> Align(a) % PAGE_SIZE == 0 && a <= Align(a) < a + PAGE_SIZE
    ensures a > LAST_PAGE ==> Align(a) == 0
  {
  }

  datatype Interval = Interval(start: nat, end: nat)

  /**
   Stepping over an interval goes forward if and only if the interval does not end inside the last page;
   otherwise the search starts again at address 0.
   */
  lemma SkipForwardIff(frame: nat, iv: Interval)
    requires Meets(frame, iv) && iv.end < WORD
    ensures Align(iv.end) > frame <==> iv.end <= LAST_PAGE
    ensures iv.end > LAST_PAGE ==> Align(iv.end) == 0
  {
    AlignIff(iv.end);
  }

  datatype Module = Module(name: Interval, image: Interval)

  /** The overlap test of the code; it also holds of an empty interval strictly inside the frame. */
  predicate Meets(frame: nat, iv: Interval) {
    frame + PAGE_SIZE > iv.start && frame < iv.end
  }

  predicate Within(a: nat, low: nat, high: nat) { low <= a < high }

  /** For an interval that is not empty, the test says that some byte of it lies in the frame. */
  lemma MeetsIff(frame: nat, iv: Interval)
    requires iv.start < iv.end
    ensures Meets(frame, iv) <==> exists a :: Within(a, frame, frame + 0x1000) && Within(a, iv.start, iv.end)
  {
    if Meets(frame, iv) {
      var a := if frame > iv.start then frame else iv.start;
      assert Within(a, frame, frame + 0x1000) && Within(a, iv.start, iv.end);
    }
  }

  function ModuleIntervals(modules: seq<Module>): seq<Interval> {
    if modules == [] then [] else [modules[0].name, modules[0].image] + ModuleIntervals(modules[1..])
  }

  predicate MeetsAny(frame: nat, reserved: seq<Interval>) {
    exists i :: 0 <= i < |reserved| && Meets(frame, reserved[i])
  }

  /** The page-aligned frames from `frame` on, below `ending`, that meet nothing reserved. */
  ghost function Frames(reserved: seq<Interval>, frame: nat, ending: nat): seq<nat>
    decreases ending - frame
  {
    if frame >= ending then []
    else (if MeetsAny(frame, reserved) then [] else [frame]) + Frames(reserved, frame + PAGE_SIZE, ending)
  }

  // ---------- what the list of frames is ----------

  /** It holds exactly the aligned frames in range that meet nothing reserved. */
  lemma {:induction false} FramesExact(reserved: seq<Interval>, frame: nat, ending: nat, f: nat)
    requires frame % PAGE_SIZE == 0
    ensures f in Frames(reserved, frame, ending)
        <==> frame <= f < ending && f % PAGE_SIZE == 0 && !MeetsAny(f, reserved)
    decreases ending - frame
  {
    if frame < ending {
      FramesExact(reserved, frame + PAGE_SIZE, ending, f);
      var head := if MeetsAny(frame, reserved) then [] else [frame];
      assert f in Frames(reserved, frame, ending)
        <==> f in head || f in Frames(reserved, frame + PAGE_SIZE, ending);
      assert frame <= f < frame + PAGE_SIZE && f % PAGE_SIZE == 0 ==> f == frame;
    }
  }

  /** It is in increasing order, so that no two frames overlap. */
  lemma {:induction false} FramesIncrease(reserved: seq<Interval>, frame: nat, ending: nat, i: nat, j: nat)
    requires frame % PAGE_SIZE == 0
    requires i < j < |Frames(reserved, frame, ending)|
    ensures Frames(reserved, frame, ending)[i] + PAGE_SIZE <= Frames(reserved, frame, ending)[j]
    decreases ending - frame
  {
    hide MeetsAny;
    var rest := Frames(reserved, frame + PAGE_SIZE, ending);
    if MeetsAny(frame, reserved) {
      FramesIncrease(reserved, frame + PAGE_SIZE, ending, i, j);
    } else if i > 0 {
      FramesIncrease(reserved, frame + PAGE_SIZE, ending, i - 1, j - 1);
    } else {
      FramesExact(reserved, frame + PAGE_SIZE, ending, rest[j - 1]);
    }
  }

  /** Its first element is the least such frame; with no element there is no such frame. */
  lemma FirstIsLeast(reserved: seq<Interval>, frame: nat, ending: nat, f: nat)
    requires frame % PAGE_SIZE == 0
    requires frame <= f < ending && f % PAGE_SIZE == 0 && !MeetsAny(f, reserved)
    ensures Frames(reserved, frame, ending) != [] && Frames(reserved, frame, ending)[0] <= f
  {
    FramesExact(reserved, frame, ending, f);
    var s := Frames(reserved, frame, ending);
    var j :| 0 <= j < |s| && s[j] == f;
    if j > 0 { FramesIncrease(reserved, frame, ending, 0, j); }
  }

  /** Stepping to the end of an interval that the frame meets skips no free frame. */
  lemma {:induction false} SkipReserved(reserved: seq<Interval>, k: nat, frame: nat, ending: nat, target: nat)
    requires k < |reserved| && frame % PAGE_SIZE == 0 && target % PAGE_SIZE == 0
    requires frame <= target < reserved[k].end + PAGE_SIZE
    requires frame + PAGE_SIZE > reserved[k].start
    ensures Frames(reserved, frame, ending) == Frames(reserved, target, ending)
    decreases target - frame
  {
    if frame < target {
      assert frame + PAGE_SIZE <= target;
      assert Meets(frame, reserved[k]);
      SkipReserved(reserved, k, frame + PAGE_SIZE, ending, target);
    }
  }

  lemma PastTheEnd(reserved: seq<Interval>, frame: nat, ending: nat)
    requires frame >= ending && frame % PAGE_SIZE == 0 && frame <= LAST_PAGE
    ensures Frames(reserved, frame, ending) == [] && Align(frame) == frame
  {
  }

  lemma TakeFrame(reserved: seq<Interval>, frame: nat, ending: nat)
    requires frame < ending && frame < LAST_PAGE && frame % PAGE_SIZE == 0 && !MeetsAny(frame, reserved)
    ensures Frames(reserved, frame, ending) == [frame] + Frames(reserved, Align(frame + PAGE_SIZE), ending)
    ensures frame + PAGE_SIZE <= LAST_PAGE
  {
    assert Align(frame + PAGE_SIZE) == frame + PAGE_SIZE;
  }

  lemma {:induction false} ModuleIntervalAt(modules: seq<Module>, i: nat)
    requires i < |modules|
    ensures |ModuleIntervals(modules)| == 2 * |modules|
    ensures ModuleIntervals(modules)[2 * i] == modules[i].name
    ensures ModuleIntervals(modules)[2 * i + 1] == modules[i].image
  {
    if i > 0 {
      ModuleIntervalAt(modules[1..], i - 1);
    } else if |modules| > 1 {
      ModuleIntervalAt(modules[1..], 0);
    }
  }

  // ---------- the search ----------

  /** The overlap test in 32-bit arithmetic: in the last page `nextend` is 0 and nothing is ever met. */
  predicate Test(frame: nat, iv: Interval) {
    (frame + PAGE_SIZE) % WORD > iv.start && frame < iv.end
  }

  lemma TestIsMeets(frame: nat, iv: Interval)
    ensures frame < LAST_PAGE ==> (Test(frame, iv) <==> Meets(frame, iv))
    ensures frame == LAST_PAGE ==> !Test(frame, iv)
  {
  }

  /** The first interval that passes the test, or the number of intervals. */
  function FirstMet(frame: nat, reserved: seq<Interval>): (i: nat)
    ensures i <= |reserved|
    ensures i < |reserved| ==> Test(frame, reserved[i])
    ensures forall j :: 0 <= j < i ==> !Test(frame, reserved[j])
  {
    if reserved == [] || Test(frame, reserved[0]) then 0 else 1 + FirstMet(frame, reserved[1..])
  }

  /** The frame that round `k` of the search from cursor `c` looks at; none when the search has stopped before. */
  ghost function Visit(reserved: seq<Interval>, ending: nat, c: nat, k: nat): Option<nat> {
    if k == 0 then Some(Align(c))
    else match Visit(reserved, ending, c, k - 1)
      case None => None
      case Some(a) =>
        var i := FirstMet(a, reserved);
        if a >= ending || i == |reserved| then None else Some(Align(reserved[i].end))
  }

  ghost predicate NeverBack(reserved: seq<Interval>, ending: nat, c: nat) {
    forall k: nat :: Visit(reserved, ending, c, k).Some? ==> Visit(reserved, ending, c, k).value >= c
  }

  /** No interval that the search from frame `a` meets ends inside the last page. */
  ghost predicate Forward(reserved: seq<Interval>, a: nat, ending: nat)
    requires a <= LAST_PAGE
    decreases WORD - a
  {
    var i := FirstMet(a, reserved);
    a >= ending || i == |reserved| ||
    (reserved[i].end <= LAST_PAGE && (AlignIff(reserved[i].end); Forward(reserved, Align(reserved[i].end), ending)))
  }

  ghost predicate Words(reserved: seq<Interval>) {
    forall i :: 0 <= i < |reserved| ==> reserved[i].end < WORD
  }

  lemma {:induction false} VisitShift(reserved: seq<Interval>, ending: nat, c: nat, c': nat, k: nat)
    requires Visit(reserved, ending, c, 1) == Some(Align(c'))
    ensures Visit(reserved, ending, c, k + 1) == Visit(reserved, ending, c', k)
  {
    if k > 0 { VisitShift(reserved, ending, c, c', k - 1); }
  }

  lemma {:induction false} ForwardVisits(reserved: seq<Interval>, ending: nat, c: nat, k: nat)
    requires c <= LAST_PAGE && Forward(reserved, Align(c), ending)
    ensures Visit(reserved, ending, c, k).Some? ==> Visit(reserved, ending, c, k).value >= Align(c) >= c
    decreases k
  {
    AlignIff(c);
    var a := Align(c);
    var i := FirstMet(a, reserved);
    if k > 0 {
      assert Visit(reserved, ending, c, 0) == Some(a);
      if a >= ending || i == |reserved| {
        StoppedStays(reserved, ending, c, 1, k);
      } else {
        var e := reserved[i].end;
        AlignIff(e);
        assert Visit(reserved, ending, c, 1) == Some(Align(e));
        VisitShift(reserved, ending, c, e, k - 1);
        ForwardVisits(reserved, ending, e, k - 1);
      }
    }
  }

  lemma {:induction false} StoppedStays(reserved: seq<Interval>, ending: nat, c: nat, j: nat, k: nat)
    requires j <= k && Visit(reserved, ending, c, j) == None
    ensures Visit(reserved, ending, c, k) == None
    decreases k
  {
    if j < k { StoppedStays(reserved, ending, c, j, k - 1); }
  }

  /** When it meets one, some later round looks at address 0. */
  lemma {:induction false} BackToZero(reserved: seq<Interval>, ending: nat, c: nat) returns (k: nat)
    requires c <= LAST_PAGE && Words(reserved) && !Forward(reserved, Align(c), ending)
    ensures Visit(reserved, ending, c, k) == Some(0)
    decreases WORD - Align(c)
  {
    AlignIff(c);
    var a := Align(c);
    var i := FirstMet(a, reserved);
    var e := reserved[i].end;
    AlignIff(e);
    assert Visit(reserved, ending, c, 0) == Some(a) && Visit(reserved, ending, c, 1) == Some(Align(e));
    if e > LAST_PAGE {
      k := 1;
    } else {
      var k' := BackToZero(reserved, ending, e);
      VisitShift(reserved, ending, c, e, k');
      k := k' + 1;
    }
  }

  /**
   The search never goes below its cursor if and only if the cursor is not inside the last page of the
   address space and no interval that it meets on its way ends there.
   */
  lemma NeverBackIff(reserved: seq<Interval>, ending: nat, c: nat)
    requires 0 < c < WORD && Words(reserved)
    ensures NeverBack(reserved, ending, c) <==> c <= LAST_PAGE && Forward(reserved, Align(c), ending)
  {
    AlignIff(c);
    if c > LAST_PAGE {
      assert Visit(reserved, ending, c, 0) == Some(0);
    } else if Forward(reserved, Align(c), ending) {
      forall k: nat | Visit(reserved, ending, c, k).Some? ensures Visit(reserved, ending, c, k).value >= c {
        ForwardVisits(reserved, ending, c, k);
      }
    } else {
      var k := BackToZero(reserved, ending, c);
    }
  }

  /** A module image that reaches into the last page: the search from it looks at frame 0, which nothing meets. */
  lemma BootGoesBack()
    ensures var reserved := [Interval(0x9000, 0x9010), Interval(0x8000, 0x8010),
                             Interval(0x7000, 0x7010), Interval(0x300000, 0xFFFF_F800)];
            && Visit(reserved, 0x400_0000, 0x300000, 0) == Some(0x300000)
            && Visit(reserved, 0x400_0000, 0x300000, 1) == Some(0)
            && Visit(reserved, 0x400_0000, 0x300000, 2) == None && FirstMet(0, reserved) == |reserved|
            && !NeverBack(reserved, 0x400_0000, 0x300000)
  {
    var reserved := [Interval(0x9000, 0x9010), Interval(0x8000, 0x8010),
                     Interval(0x7000, 0x7010), Interval(0x300000, 0xFFFF_F800)];
    var i := FirstMet(0x300000, reserved);
    assert Test(0x300000, reserved[3]) && !Test(0x300000, reserved[0]);
    assert !Test(0x300000, reserved[1]) && !Test(0x300000, reserved[2]);
    assert i == 3;
    AlignIff(0x300000);
    AlignIff(0xFFFF_F800);
    assert Visit(reserved, 0x400_0000, 0x300000, 0) == Some(0x300000);
    assert Visit(reserved, 0x400_0000, 0x300000, 1) == Some(0);
    var j := FirstMet(0, reserved);
    assert forall k :: 0 <= k < 4 ==> !Test(0, reserved[k]);
    assert j == 4;
  }

  /**
   What a call needs: the search goes forward and looks at no frame in the last page.  With `whole`, the
   same of all further calls.
   */
  ghost predicate Clean(reserved: seq<Interval>, a: nat, ending: nat, whole: bool)
    requires a <= LAST_PAGE
    decreases WORD - a
  {
    a >= ending ||
    (a < LAST_PAGE &&
     var i := FirstMet(a, reserved);
     if i == |reserved| then whole && a % PAGE_SIZE == 0 ==> Clean(reserved, a + PAGE_SIZE, ending, whole)
     else reserved[i].end <= LAST_PAGE
          && (AlignIff(reserved[i].end); Clean(reserved, Align(reserved[i].end), ending, whole)))
  }

  lemma {:induction false} CleanIsForward(reserved: seq<Interval>, a: nat, ending: nat, whole: bool)
    requires a <= LAST_PAGE && Clean(reserved, a, ending, whole)
    ensures Forward(reserved, a, ending)
    decreases WORD - a
  {
    var i := FirstMet(a, reserved);
    if a < ending && i < |reserved| {
      AlignIff(reserved[i].end);
      CleanIsForward(reserved, Align(reserved[i].end), ending, whole);
    }
  }

  /** Boot information is clean when memory ends before the last page, and no interval that reaches into it is met. */
  lemma {:induction false} HarmlessIsClean(reserved: seq<Interval>, a: nat, ending: nat, whole: bool)
    requires a <= LAST_PAGE && a % PAGE_SIZE == 0 && ending <= LAST_PAGE
    requires forall i :: 0 <= i < |reserved| ==>
               reserved[i].end <= LAST_PAGE || forall f :: a <= f < ending ==> !Meets(f, reserved[i])
    ensures Clean(reserved, a, ending, whole)
    decreases WORD - a
  {
    if a < ending {
      var i := FirstMet(a, reserved);
      if i == |reserved| {
        HarmlessIsClean(reserved, a + PAGE_SIZE, ending, whole);
      } else {
        TestIsMeets(a, reserved[i]);
        AlignIff(reserved[i].end);
        HarmlessIsClean(reserved, Align(reserved[i].end), ending, whole);
      }
    }
  }

  class Memory {
    var nextFrame: nat
    var availableMem: nat
    const endingMem: nat
    const table: Interval
    const cmdline: Interval
    const modules: seq<Module>

    /** Everything the allocator must keep clear of, in the order the code looks at it. */
    ghost function Reserved(): seq<Interval> {
      [table, cmdline] + ModuleIntervals(modules)
    }

    ghost predicate Valid()
      reads this
    {
      0 < nextFrame <= LAST_PAGE && availableMem < WORD
    }

    /** The next call is clean, or all further calls are. */
    ghost predicate Clear(whole: bool)
      reads this
    {
      Align(nextFrame) <= LAST_PAGE && Clean(Reserved(), Align(nextFrame), endingMem, whole)
    }

    /** The frames still to be handed out, in order. */
    ghost function Remaining(): seq<nat>
      reads this
    {
      Frames(Reserved(), Align(nextFrame), endingMem)
    }

    /** init_memory, from the fields of the multiboot information; `end` is the end of the kernel image. */
    constructor (end: nat, memLower: nat, memUpper: nat, modsAddr: nat, cmdline: Interval, modules: seq<Module>)
      ensures nextFrame == end && endingMem == (0x100000 + memUpper * 1024) % WORD
      ensures availableMem == (memUpper * 1024 + memLower * 1024) % WORD
      ensures Reserved() == [Interval(modsAddr, (modsAddr + |modules| * 16) % WORD), cmdline] + ModuleIntervals(modules)
      ensures 0 < end <= LAST_PAGE && endingMem <= LAST_PAGE
              && (forall i :: 0 <= i < |Reserved()| ==>
                    Reserved()[i].end <= LAST_PAGE || forall f :: end <= f < endingMem ==> !Meets(f, Reserved()[i]))
              ==> Valid() && Clear(true)
    {
      nextFrame := end;
      endingMem := (0x100000 + memUpper * 1024) % WORD;
      availableMem := (memUpper * 1024 + memLower * 1024) % WORD;
      table := Interval(modsAddr, (modsAddr + |modules| * 16) % WORD);
      this.cmdline := cmdline;
      this.modules := modules;
      new;
      if 0 < end <= LAST_PAGE && endingMem <= LAST_PAGE
         && (forall i :: 0 <= i < |Reserved()| ==>
               Reserved()[i].end <= LAST_PAGE || forall f :: end <= f < endingMem ==> !Meets(f, Reserved()[i]))
      {
        AlignIff(end);
        HarmlessIsClean(Reserved(), Align(end), endingMem, true);
      }
    }

    /**
     get_next_frame: give the first of the remaining frames, or 0 when there is none.  The `goto
     retry` is the outer loop; it makes progress because a met interval always ends further on.
     */
    method GetNextFrame() returns (addr: nat)
      requires Valid() && Clear(false)
      modifies this
      ensures Valid() && (old(Clear(true)) ==> Clear(true))
      ensures addr == 0 <==> old(Remaining()) == []
      ensures addr == 0 ==> Remaining() == [] && availableMem == old(availableMem)
      ensures addr != 0 ==> [addr] + Remaining() == old(Remaining())
      ensures addr != 0 ==> availableMem == (old(availableMem) - PAGE_SIZE) % WORD
    {
      hide Align, Frames, ModuleIntervals, MeetsAny, Clean;
      ghost var reserved, goal := Reserved(), Remaining();
      while true
        invariant Valid() && availableMem == old(availableMem) && Remaining() == goal
        invariant Clear(false) && (old(Clear(true)) ==> Clear(true))
        decreases WORD - nextFrame
      {
        AlignIff(nextFrame);
        ghost var a := Align(nextFrame);
        AlignTwice(nextFrame);
        nextFrame := Align(nextFrame);
        if nextFrame >= endingMem {
          PastTheEnd(reserved, nextFrame, endingMem);
          return 0;
        }
        CleanStep(reserved, a, endingMem, false);
        if old(Clear(true)) { CleanStep(reserved, a, endingMem, true); }
        var k, target := FirstReservedMet(nextFrame);
        if k < 2 + 2 * |modules| {
          SkipReservedMet(reserved, k, a, endingMem);
          nextFrame := target;
        } else {
          addr := nextFrame;
          TakeFrame(reserved, nextFrame, endingMem);
          nextFrame := nextFrame + PAGE_SIZE;
          availableMem := (availableMem - PAGE_SIZE) % WORD;
          return;
        }
      }
    }

    /** Lines 118-157: which interval the frame meets first, and where that ends. */
    method FirstReservedMet(frame: nat) returns (k: nat, target: nat)
      requires frame < LAST_PAGE
      ensures |Reserved()| == 2 + 2 * |modules| && k == FirstMet(frame, Reserved())
      ensures k < |Reserved()| ==> target == Reserved()[k].end
    {
      hide ModuleIntervals, Meets;
      ghost var reserved := Reserved();
      ModuleCount(modules);
      target := 0;
      var nextend := frame + PAGE_SIZE;
      assert reserved[0] == table && reserved[1] == cmdline;
      if nextend > table.start && frame < table.end {
        FirstMetIs(frame, reserved, 0);
        return 0, table.end;
      }
      if nextend > cmdline.start && frame < cmdline.end {
        FirstMetIs(frame, reserved, 1);
        return 1, cmdline.end;
      }
      for i := 0 to |modules|
        invariant forall j :: 0 <= j < 2 + 2 * i ==> !Test(frame, reserved[j])
      {
        ModuleIntervalAt(modules, i);
        var m := modules[i];
        assert reserved[2 + 2 * i] == m.name && reserved[3 + 2 * i] == m.image;
        if nextend > m.name.start && frame < m.name.end {
          FirstMetIs(frame, reserved, 2 + 2 * i);
          return 2 + 2 * i, m.name.end;
        }
        if nextend > m.image.start && frame < m.image.end {
          FirstMetIs(frame, reserved, 3 + 2 * i);
          return 3 + 2 * i, m.image.end;
        }
      }
      k := 2 + 2 * |modules|;
      FirstMetIs(frame, reserved, k);
    }

    /** Take frames until `count` of them or a 0, as vm_page_init fills its free list. */
    method TakeFrames(count: nat) returns (frames: seq<nat>)
      requires Valid() && Clear(true)
      modifies this
      ensures Valid() && Clear(true)
      ensures frames + Remaining() == old(Remaining())
      ensures |frames| == count || (|frames| < count && Remaining() == [])
    {
      frames := [];
      while |frames| < count
        invariant Valid() && Clear(true) && |frames| <= count
        invariant frames + Remaining() == old(Remaining())
      {
        ghost var before := Remaining();
        AlignIff(nextFrame);
        CleanOnce(Reserved(), Align(nextFrame), endingMem);
        var base := GetNextFrame();
        if base == 0 { break; }
        assert frames + before == (frames + [base]) + Remaining();
        frames := frames + [base];
      }
    }
  }

  // ---------- one round ----------

  lemma AlignTwice(c: nat)
    requires c <= LAST_PAGE
    ensures Align(Align(c)) == Align(c) <= LAST_PAGE
  {
  }

  lemma FirstMetIs(frame: nat, reserved: seq<Interval>, k: nat)
    requires k <= |reserved| && (k < |reserved| ==> Test(frame, reserved[k]))
    requires forall j :: 0 <= j < k ==> !Test(frame, reserved[j])
    ensures FirstMet(frame, reserved) == k
  {
    var i := FirstMet(frame, reserved);
  }

  lemma CleanStep(reserved: seq<Interval>, a: nat, ending: nat, whole: bool)
    requires a < ending && a <= LAST_PAGE && a % PAGE_SIZE == 0 && Clean(reserved, a, ending, whole)
    ensures a < LAST_PAGE && a + PAGE_SIZE <= LAST_PAGE && Align(a + PAGE_SIZE) == a + PAGE_SIZE
    ensures var i := FirstMet(a, reserved);
            if i == |reserved| then
              && !MeetsAny(a, reserved)
              && (whole ==> Clean(reserved, Align(a + PAGE_SIZE), ending, whole))
            else
              && Meets(a, reserved[i]) && a < reserved[i].end <= LAST_PAGE
              && Align(reserved[i].end) <= LAST_PAGE && Clean(reserved, Align(reserved[i].end), ending, whole)
  {
    var i := FirstMet(a, reserved);
    if i == |reserved| {
      forall j | 0 <= j < |reserved| ensures !Meets(a, reserved[j]) { TestIsMeets(a, reserved[j]); }
    } else {
      TestIsMeets(a, reserved[i]);
      AlignIff(reserved[i].end);
    }
  }

  lemma {:induction false} CleanOnce(reserved: seq<Interval>, a: nat, ending: nat)
    requires a <= LAST_PAGE && Clean(reserved, a, ending, true)
    ensures Clean(reserved, a, ending, false)
    decreases WORD - a
  {
    var i := FirstMet(a, reserved);
    if a < ending && i < |reserved| {
      AlignIff(reserved[i].end);
      CleanOnce(reserved, Align(reserved[i].end), ending);
    }
  }

  lemma SkipReservedMet(reserved: seq<Interval>, k: nat, frame: nat, ending: nat)
    requires k < |reserved| && frame % PAGE_SIZE == 0 && Meets(frame, reserved[k]) && reserved[k].end <= LAST_PAGE
    ensures Frames(reserved, frame, ending) == Frames(reserved, Align(reserved[k].end), ending)
  {
    AlignIff(reserved[k].end);
    SkipReserved(reserved, k, frame, ending, Align(reserved[k].end));
  }

  lemma {:induction false} ModuleCount(modules: seq<Module>)
    ensures |ModuleIntervals(modules)| == 2 * |modules|
  {
    if modules != [] { ModuleCount(modules[1..]); }
  }
}
