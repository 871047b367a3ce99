/**
 Time slices over any number of timer ticks.  A timed thread that keeps running is requeued at the end of
 its slice and then every 40 ticks, each time one priority lower until it has sunk to its static priority
 plus 4.
 */
module TimeSlices {
  import opened Scheduler
  import opened SchedulerProofs

  /** The running thread is queued, of the policy and priority that sched_timer counts. */
  ghost predicate Counted(k: Kernel) {
    && RunQueueOk(k) && k.current in k.threads && InQueue(k, k.current)
    && k.threads[k.current].policy == 4 && k.threads[k.current].prioStat < 46
  }

  /** `t` left its place for the end of queue `level`; nothing else moved. */
  ghost predicate Moved(a: seq<seq<Tid>>, b: seq<seq<Tid>>, t: Tid, level: int) {
    && |a| == |b| == 32 && 0 <= level < 32
    && exists l, i :: 0 <= l < 32 && 0 <= i < |a[l]| && a[l][i] == t && b == Shifted(a, t, l, i, level)
  }

  ghost function Shifted(a: seq<seq<Tid>>, t: Tid, l: nat, i: nat, level: nat): seq<seq<Tid>>
    requires l < |a| && level < |a| && i < |a[l]|
  {
    var c := a[l := a[l][..i] + a[l][i + 1..]];
    c[level := c[level] + [t]]
  }

  /** What is left of `b` after `j` expired slices. */
  function BoundAfter(b: int, j: nat): int { if j == 0 then b else if b - j < 4 then 4 else b - j }

  /** The slices that have expired after `n` ticks, and what is left of the present one, from slice `s` on. */
  function Expiries(s: int, n: nat): nat { if n < s || s <= 0 then 0 else (n - s) / 40 + 1 }

  function SliceAfter(s: int, n: nat): int { if n < s || s <= 0 then s - n else 40 - (n - s) % 40 }

  ghost predicate ExpiresAt(s: int, n: nat) { 0 < s <= n && (n - s) % 40 == 0 }

  // ---------- one tick ----------

  lemma Tick(k: Kernel)
    requires Counted(k)
    ensures TimerReady(k)
    ensures var k', t, thr := SchedTimer(k), k.current, k.threads[k.current];
            && Counted(k') && k'.current == t
            && (if thr.slice == 1 then
                  var b := BoundAfter(thr.bound, 1);
                  && k'.threads == k.threads[t := thr.(slice := 40, bound := b, prioDyn := thr.prioStat + b)]
                  && Moved(k.run, k'.run, t, (thr.prioStat + b) / 4)
                else
                  k' == k.(threads := k.threads[t := thr.(slice := thr.slice - 1)]))
  {
    var t, thr := k.current, k.threads[k.current];
    TimerKeeps(k);
    InQueueMeansQueued(k, t);
    hide RunQueueOk, InQueue;
    if thr.slice == 1 {
      var b := BoundAfter(thr.bound, 1);
      StaticInRange(k, t);
      var l := QueueOf(k, t);
      var i := DropAt(k.run[l], t);
      assert SchedTimer(k).run == Shifted(k.run, t, l, i, (thr.prioStat + b) / 4);
    }
  }

  /** Threads of another policy, and those of priority 46 and above, are not counted at all. */
  lemma NotCounted(k: Kernel)
    requires TimerReady(k) && (k.threads[k.current].policy != 4 || k.threads[k.current].prioStat >= 46)
    ensures SchedTimer(k) == k
  {
  }

  lemma StaticInRange(k: Kernel, t: Tid)
    requires RunQueueOk(k) && t in k.threads
    ensures Bounded(k.threads[t])
  {
  }

  // ---------- any number of ticks ----------

  ghost function Ticks(k: Kernel, n: nat): (k': Kernel)
    requires Counted(k)
    ensures Counted(k') && k'.current == k.current
    decreases n
  {
    if n == 0 then k
    else
      var k1 := Ticks(k, n - 1);
      Tick(k1);
      SchedTimer(k1)
  }

  lemma NextExpiry(s: int, n: nat)
    ensures ExpiresAt(s, n + 1) <==> SliceAfter(s, n) == 1
    ensures ExpiresAt(s, n + 1) ==> Expiries(s, n + 1) == Expiries(s, n) + 1 && SliceAfter(s, n + 1) == 40
    ensures !ExpiresAt(s, n + 1) ==>
              Expiries(s, n + 1) == Expiries(s, n) && SliceAfter(s, n + 1) == SliceAfter(s, n) - 1
  {
  }

  lemma SliceInRange(s: int, n: nat)
    ensures 1 <= s <= 40 ==> 1 <= SliceAfter(s, n) <= 40
  {
  }

  lemma BoundNext(b: int, j: nat)
    ensures BoundAfter(BoundAfter(b, j), 1) == BoundAfter(b, j + 1)
  {
  }

  /**
   After any number of ticks: how much is left of the slice, how often one has expired, and what priority
   the thread then has.  No other thread is touched.
   */
  lemma {:induction false} SliceLaw(k: Kernel, n: nat)
    requires Counted(k)
    ensures var t, thr := k.current, k.threads[k.current];
            var j := Expiries(thr.slice, n);
            Ticks(k, n).threads
            == k.threads[t := thr.(slice := SliceAfter(thr.slice, n),
                                   bound := BoundAfter(thr.bound, j),
                                   prioDyn := if j == 0 then thr.prioDyn else thr.prioStat + BoundAfter(thr.bound, j))]
    decreases n
  {
    hide RunQueueOk, InQueue, Moved, SchedTimer, TimerReady;
    var t, thr := k.current, k.threads[k.current];
    if n == 0 {
      assert k.threads == k.threads[t := thr];
    } else {
      hide SliceAfter, Expiries, BoundAfter;
      var k1 := Ticks(k, n - 1);
      SliceLaw(k, n - 1);
      Tick(k1);
      NextExpiry(thr.slice, n - 1);
      BoundNext(thr.bound, Expiries(thr.slice, n - 1));
    }
  }

  /**
   From slice s > 0 the thread is requeued at ticks s, s + 40, s + 80, ... and at no other; from a slice that
   is not positive it never is.  The j-th time it goes to the end of the queue of its static priority plus
   its bound less j, or plus 4 if that is more.
   */
  lemma RequeuedExactly(k: Kernel, n: nat)
    requires Counted(k)
    ensures var a, b, t, thr := Ticks(k, n), Ticks(k, n + 1), k.current, k.threads[k.current];
            && (1 <= thr.slice <= 40 ==> 1 <= a.threads[t].slice <= 40)
            && (if 0 < thr.slice <= n + 1 && (n + 1 - thr.slice) % 40 == 0 then
                  var j := (n + 1 - thr.slice) / 40 + 1;
                  Moved(a.run, b.run, t, (thr.prioStat + if thr.bound - j < 4 then 4 else thr.bound - j) / 4)
                else
                  b.run == a.run && b.bitmap == a.bitmap && b.nthreads == a.nthreads)
  {
    hide RunQueueOk, InQueue, Moved, SchedTimer, TimerReady;
    var thr := k.threads[k.current];
    SliceLaw(k, n);
    SliceInRange(thr.slice, n);
    Tick(Ticks(k, n));
    NextExpiry(thr.slice, n);
    BoundNext(thr.bound, Expiries(thr.slice, n));
  }
}
