/** What every run of scheduler steps keeps, what `schedule` picks, and how fairly yields rotate. */
module SchedulerProofs {
  import opened Words
  import opened Scheduler

  // ---------- sequences of queues ----------

  ghost predicate Distinct(q: seq<Tid>) {
    forall i, j :: 0 <= i < j < |q| ==> q[i] != q[j]
  }

  ghost function Total(run: seq<seq<Tid>>): nat {
    if run == [] then 0 else |run[0]| + Total(run[1..])
  }

  lemma {:induction false} TotalUpdate(run: seq<seq<Tid>>, i: nat, q: seq<Tid>)
    requires i < |run|
    ensures Total(run[i := q]) == Total(run) - |run[i]| + |q|
  {
    if i > 0 {
      assert run[i := q][1..] == run[1..][i - 1 := q];
      TotalUpdate(run[1..], i - 1, q);
    } else {
      assert run[i := q][1..] == run[1..];
    }
  }

  lemma {:induction false} DropAt(q: seq<Tid>, t: Tid) returns (i: nat)
    requires t in q
    ensures i < |q| && q[i] == t && Drop(q, t) == q[..i] + q[i + 1..]
  {
    if q[0] == t {
      i := 0;
    } else {
      var j := DropAt(q[1..], t);
      i := j + 1;
      assert q[..i] == [q[0]] + q[1..][..j];
      assert q[i + 1..] == q[1..][j + 1..];
    }
  }

  /** Dropping a member takes out that member and nothing else. */
  lemma DropMember(q: seq<Tid>, t: Tid)
    requires t in q && Distinct(q)
    ensures |Drop(q, t)| == |q| - 1 && Distinct(Drop(q, t))
    ensures forall x :: x in Drop(q, t) <==> x in q && x != t
  {
    hide Drop;
    var i := DropAt(q, t);
    var d := Drop(q, t);
    forall x ensures x in d <==> x in q && x != t {
      if x in q && x != t {
        var j :| 0 <= j < |q| && q[j] == x;
        assert d[if j < i then j else j - 1] == x;
      }
    }
  }

  // ---------- the invariant ----------

  /** Static priorities are in range, and a timed thread can never be boosted off the end of the queues. */
  ghost predicate Bounded(thr: Thread) {
    && 0 <= thr.prioStat < 128
    && (Timed(thr) ==> thr.prioStat + thr.bound <= 128)
  }

  ghost predicate QueueOk(k: Kernel, i: nat)
    requires |k.run| == MAXQ && i < MAXQ
  {
    && (k.bitmap[i] <==> k.run[i] != [])
    && Distinct(k.run[i])
    && (forall t :: t in k.run[i] ==> t in k.threads && QueueOf(k, t) == i)
  }

  /**
   The queues are those the bitmap says, every queued thread stands once, in the queue of its
   dynamic priority, and `nthreads` counts them.
   */
  ghost predicate RunQueueOk(k: Kernel) {
    && |k.run| == MAXQ
    && (forall i :: 0 <= i < MAXQ ==> QueueOk(k, i))
    && k.nthreads == Total(k.run)
    && (forall t :: t in k.threads ==> Bounded(k.threads[t]))
    && k.idle in k.threads && !Timed(k.threads[k.idle]) && !InQueue(k, k.idle)
  }

  /** In some queue, whichever. */
  ghost predicate InQueue(k: Kernel, t: Tid) {
    exists i :: 0 <= i < |k.run| && t in k.run[i]
  }

  lemma InQueueMeansQueued(k: Kernel, t: Tid)
    requires RunQueueOk(k)
    ensures InQueue(k, t) <==> Queued(k, t)
  {
    if InQueue(k, t) {
      var i :| 0 <= i < |k.run| && t in k.run[i];
      assert QueueOk(k, i);
    }
  }

  lemma EnqueueKeeps(k: Kernel, t: Tid)
    requires RunQueueOk(k) && Indexable(k, t) && !InQueue(k, t) && t != k.idle
    ensures RunQueueOk(EnqueueThread(k, t))
    ensures forall x :: InQueue(EnqueueThread(k, t), x) <==> x == t || InQueue(k, x)
  {
    var i, k' := QueueOf(k, t), EnqueueThread(k, t);
    TotalUpdate(k.run, i, k.run[i] + [t]);
    forall j | 0 <= j < MAXQ ensures QueueOk(k', j) {
      assert QueueOk(k, j);
      if j == i { assert forall x :: x in k'.run[i] <==> x in k.run[i] || x == t; }
    }
    forall x ensures InQueue(k', x) <==> x == t || InQueue(k, x) {
      if InQueue(k', x) {
        var j :| 0 <= j < MAXQ && x in k'.run[j];
        assert x == t || x in k.run[j];
      }
      if x == t { assert x in k'.run[i]; }
      if InQueue(k, x) {
        var j :| 0 <= j < MAXQ && x in k.run[j];
        assert x in k'.run[j];
      }
    }
  }

  lemma RemoveKeeps(k: Kernel, t: Tid)
    requires RunQueueOk(k) && Queued(k, t)
    ensures RunQueueOk(RemoveThread(k, t))
    ensures forall x :: InQueue(RemoveThread(k, t), x) <==> x != t && InQueue(k, x)
  {
    var i, k' := QueueOf(k, t), RemoveThread(k, t);
    assert QueueOk(k, i);
    DropMember(k.run[i], t);
    TotalUpdate(k.run, i, Drop(k.run[i], t));
    forall j | 0 <= j < MAXQ ensures QueueOk(k', j) {
      assert QueueOk(k, j);
    }
    forall x ensures InQueue(k', x) <==> x != t && InQueue(k, x) {
      if InQueue(k', x) {
        var j :| 0 <= j < MAXQ && x in k'.run[j];
        assert QueueOk(k, j);
        assert x in k.run[j];
      }
      if x != t && InQueue(k, x) {
        var j :| 0 <= j < MAXQ && x in k.run[j];
        assert x in k'.run[j];
      }
    }
    assert InQueue(k, t);
  }

  /** A thread that is not queued may change freely, within bounds. */
  lemma SetThreadKeeps(k: Kernel, t: Tid, thr: Thread)
    requires RunQueueOk(k) && t in k.threads && Bounded(thr)
    requires t == k.idle ==> !Timed(thr)
    requires InQueue(k, t) ==> thr.prioDyn == k.threads[t].prioDyn
    ensures RunQueueOk(SetThread(k, t, thr))
    ensures forall x :: InQueue(SetThread(k, t, thr), x) <==> InQueue(k, x)
  {
    var k' := SetThread(k, t, thr);
    forall j | 0 <= j < MAXQ ensures QueueOk(k', j) {
      assert QueueOk(k, j);
    }
    assert forall x :: InQueue(k', x) <==> InQueue(k, x);
  }

  lemma WakeupKeeps(k: Kernel, t: Tid)
    requires RunQueueOk(k) && t in k.threads && !InQueue(k, t) && t != k.idle
    ensures Wakeable(k, t)
    ensures RunQueueOk(Wakeup(k, t))
    ensures forall x :: InQueue(Wakeup(k, t), x) <==> x == t || InQueue(k, x)
    ensures var i := k.threads[t].prioStat / 4;
            0 <= i < |k.run| && Wakeup(k, t).run == k.run[i := k.run[i] + [t]]
    ensures Wakeup(k, t).threads == k.threads[t := k.threads[t].(states := 0x02, prioDyn := k.threads[t].prioStat)]
  {
    var thr := k.threads[t].(states := THREAD_READY, prioDyn := k.threads[t].prioStat);
    SetThreadKeeps(k, t, thr);
    EnqueueKeeps(SetThread(k, t, thr), t);
  }

  // ---------- what schedule picks ----------

  /** `t` is the longest-queued thread of the highest non-empty level, or idle when nothing is queued. */
  ghost predicate Highest(k: Kernel, t: Tid)
    requires |k.run| == MAXQ
  {
    if exists i :: 0 <= i < MAXQ && k.run[i] != []
    then exists i :: 0 <= i < MAXQ && k.run[i] != [] && t == k.run[i][0]
                     && forall j :: i < j < MAXQ ==> k.run[j] == []
    else t == k.idle
  }

  /** `schedule` picks it, and its fallback for an empty list under a set bit is never taken. */
  lemma PickIsHighest(k: Kernel)
    requires RunQueueOk(k)
    ensures Highest(k, Pick(k))
    ensures Frs(k.bitmap) >= 0 ==> k.run[Frs(k.bitmap)] != []
    ensures Pick(k) == k.idle <==> k.nthreads == 0
  {
    var q := Frs(k.bitmap);
    if q >= 0 {
      assert QueueOk(k, q);
      forall j | q < j < MAXQ ensures k.run[j] == [] { assert QueueOk(k, j); }
      assert k.run[q][0] in k.run[q];
      assert InQueue(k, Pick(k));
      TotalAtLeast(k.run, q);
    } else {
      forall j | 0 <= j < MAXQ ensures k.run[j] == [] { assert QueueOk(k, j); }
      TotalZero(k.run);
    }
  }

  lemma {:induction false} TotalAtLeast(run: seq<seq<Tid>>, i: nat)
    requires i < |run|
    ensures Total(run) >= |run[i]|
  {
    if i > 0 { TotalAtLeast(run[1..], i - 1); }
  }

  lemma {:induction false} TotalZero(run: seq<seq<Tid>>)
    requires forall i :: 0 <= i < |run| ==> run[i] == []
    ensures Total(run) == 0
  {
    if run != [] { TotalZero(run[1..]); }
  }

  lemma SameQueues(k: Kernel, k': Kernel)
    requires RunQueueOk(k) && k' == k.(current := k'.current)
    ensures RunQueueOk(k')
    ensures forall x :: InQueue(k', x) <==> InQueue(k, x)
  {
    forall j | 0 <= j < MAXQ ensures QueueOk(k', j) { assert QueueOk(k, j); }
  }

  /** After `schedule` the current thread is queued, or is idle. */
  lemma ScheduleKeeps(k: Kernel)
    requires RunQueueOk(k)
    ensures RunQueueOk(Schedule(k))
    ensures forall x :: InQueue(Schedule(k), x) <==> InQueue(k, x)
    ensures Schedule(k).current == k.idle || InQueue(k, Schedule(k).current)
  {
    PickIsHighest(k);
    SameQueues(k, Schedule(k));
    if Pick(k) != k.idle { assert k.run[Frs(k.bitmap)][0] in k.run[Frs(k.bitmap)]; }
  }

  // ---------- the timer ----------

  lemma TimerKeeps(k: Kernel)
    requires RunQueueOk(k) && k.current in k.threads && (InQueue(k, k.current) || k.current == k.idle)
    ensures TimerReady(k)
    ensures RunQueueOk(SchedTimer(k))
    ensures forall x :: InQueue(SchedTimer(k), x) <==> InQueue(k, x)
  {
    InQueueMeansQueued(k, k.current);
    var t := k.current;
    var thr := k.threads[t];
    if Timed(thr) {
      if thr.slice != 1 {
        SetThreadKeeps(k, t, thr.(slice := thr.slice - 1));
      } else {
        var b := NextBound(thr.bound);
        RemoveKeeps(k, t);
        var thr' := thr.(slice := SLICE, bound := b, prioDyn := thr.prioStat + b);
        SetThreadKeeps(RemoveThread(k, t), t, thr');
        EnqueueKeeps(SetThread(RemoveThread(k, t), t, thr'), t);
      }
    }
  }

  /**
   The bound on `bound` is exact: a timed thread whose slice runs out is given an index inside the
   32 queues if and only if its static priority and `bound` add up to at most 128.  `bound` is not
   initialised by create_thread, so nothing in the code secures this.
   */
  lemma TimerIndexIff(thr: Thread)
    requires 0 <= thr.prioStat && Timed(thr)
    ensures 0 <= Prioq(thr.prioStat + NextBound(thr.bound)) < MAXQ <==> thr.prioStat + thr.bound <= 128
    ensures thr.bound <= PRIO_OTHER_MIN ==> NextBound(thr.bound) == PRIO_OTHER_MIN
  {
  }

  /** At the highest timed priority, 45, a bound of 84 sends the thread past the last queue. */
  lemma TimerPastLastQueue(thr: Thread)
    requires Timed(thr) && thr.prioStat == 45 && thr.bound == 84
    ensures Prioq(thr.prioStat + NextBound(thr.bound)) == MAXQ
  {
  }

  // ---------- runs ----------

  datatype Step = StepEnqueue(t: Tid) | StepRemove(t: Tid) | StepWakeup(t: Tid) | StepYield | StepTimer | StepSchedule

  /** What the code needs before each step: never queue a queued thread, never remove one that is not. */
  ghost predicate Enabled(k: Kernel, s: Step) {
    match s
    case StepEnqueue(t) => Indexable(k, t) && !InQueue(k, t) && t != k.idle
    case StepRemove(t) => Queued(k, t)
    case StepWakeup(t) => t in k.threads && !InQueue(k, t) && t != k.idle
    case StepYield => Queued(k, k.current)
    case StepTimer => k.current in k.threads && (InQueue(k, k.current) || k.current == k.idle)
    case StepSchedule => true
  }

  ghost function Apply(k: Kernel, s: Step): Kernel
    requires RunQueueOk(k) && Enabled(k, s)
  {
    match s
    case StepEnqueue(t) => EnqueueThread(k, t)
    case StepRemove(t) => RemoveThread(k, t)
    case StepWakeup(t) => WakeupKeeps(k, t); Wakeup(k, t)
    case StepYield => Yield(k)
    case StepTimer => TimerKeeps(k); SchedTimer(k)
    case StepSchedule => Schedule(k)
  }

  lemma YieldKeeps(k: Kernel)
    requires RunQueueOk(k) && Queued(k, k.current)
    ensures RunQueueOk(Yield(k))
    ensures forall x :: InQueue(Yield(k), x) <==> InQueue(k, x)
  {
    var t := k.current;
    InQueueMeansQueued(k, t);
    RemoveKeeps(k, t);
    EnqueueKeeps(RemoveThread(k, t), t);
    ScheduleKeeps(EnqueueThread(RemoveThread(k, t), t));
  }

  lemma StepKeeps(k: Kernel, s: Step)
    requires RunQueueOk(k) && Enabled(k, s)
    ensures RunQueueOk(Apply(k, s))
  {
    match s
    case StepEnqueue(t) => EnqueueKeeps(k, t);
    case StepRemove(t) => RemoveKeeps(k, t);
    case StepWakeup(t) => WakeupKeeps(k, t);
    case StepYield => YieldKeeps(k);
    case StepTimer => TimerKeeps(k);
    case StepSchedule => ScheduleKeeps(k);
  }

  ghost predicate Next(k: Kernel, s: Step, k': Kernel)
    requires RunQueueOk(k)
  {
    Enabled(k, s) && k' == Apply(k, s)
  }

  /** A run: a state for each moment, each reached from the one before by an enabled step. */
  ghost predicate IsRun(ks: seq<Kernel>, steps: seq<Step>) {
    && |ks| == |steps| + 1
    && RunQueueOk(ks[0])
    && forall i :: 0 <= i < |steps| && RunQueueOk(ks[i]) ==> Next(ks[i], steps[i], ks[i + 1])
  }

  /** Every state of every run keeps the invariant, so at every moment `schedule` would pick rightly. */
  lemma {:induction false} RunKeeps(ks: seq<Kernel>, steps: seq<Step>, n: nat)
    requires IsRun(ks, steps) && n < |ks|
    ensures RunQueueOk(ks[n]) && Highest(ks[n], Pick(ks[n]))
  {
    hide RunQueueOk, Enabled, Apply, Highest;
    if n > 0 {
      RunKeeps(ks, steps, n - 1);
      assert Next(ks[n - 1], steps[n - 1], ks[n - 1 + 1]);
      StepKeeps(ks[n - 1], steps[n - 1]);
    }
    PickIsHighest(ks[n]);
  }

  // ---------- fairness of yields ----------

  /** The highest non-empty level. */
  ghost function Top(k: Kernel): (i: nat)
    requires RunQueueOk(k) && k.nthreads > 0
    ensures i < MAXQ == |k.run| && i == Frs(k.bitmap) && k.run[i] != [] && Pick(k) == k.run[i][0]
  {
    PickIsHighest(k);
    Frs(k.bitmap)
  }

  /** The thread `schedule` would pick is running. */
  ghost predicate FrontRuns(k: Kernel) {
    RunQueueOk(k) && k.current == Pick(k) && k.nthreads > 0
  }

  ghost function YieldN(k: Kernel, n: nat): (k': Kernel)
    requires FrontRuns(k)
    ensures FrontRuns(k')
    decreases n
  {
    if n == 0 then k
    else
      var p := YieldN(k, n - 1);
      YieldRotates(p);
      Yield(p)
  }

  ghost function Rotate(q: seq<Tid>, n: nat): seq<Tid>
    requires n <= |q|
  {
    q[n..] + q[..n]
  }

  /** One yield of the thread in front sends it to the back of its level and runs the next. */
  lemma YieldRotates(k: Kernel)
    requires FrontRuns(k)
    ensures Queued(k, k.current)
    ensures var i, k' := Top(k), Yield(k);
            FrontRuns(k') && Top(k') == i && k'.run == k.run[i := Rotate(k.run[i], 1)]
  {
    var i := Top(k);
    var q, t := k.run[i], k.current;
    assert QueueOk(k, i);
    assert t == q[0] && q[0] in q;
    YieldKeeps(k);
    var k1 := RemoveThread(k, t);
    var k2 := EnqueueThread(k1, t);
    assert q[1..] + [t] == Rotate(q, 1);
    assert k2.run == k.run[i := Rotate(q, 1)];
    FrsUnchanged(k.bitmap, k2.bitmap, i);
  }

  lemma FrsUnchanged(w: Word, w': Word, i: nat)
    requires i < 32 && Frs(w) == i && w'[i] && forall j :: i < j < 32 ==> w'[j] == w[j]
    ensures Frs(w') == i
  {
  }

  lemma {:induction false} YieldsRotate(k: Kernel, n: nat)
    requires FrontRuns(k) && n <= |k.run[Top(k)]|
    ensures var i, k' := Top(k), YieldN(k, n);
            Top(k') == i && k'.run == k.run[i := Rotate(k.run[i], n)]
  {
    hide RunQueueOk, Yield, Pick;
    var i := Top(k);
    var q := k.run[i];
    if n == 0 {
      assert Rotate(q, 0) == q;
    } else {
      YieldsRotate(k, n - 1);
      YieldRotates(YieldN(k, n - 1));
      assert Rotate(Rotate(q, n - 1), 1) == Rotate(q, n);
    }
  }

  /**
   With k threads on the top level, the one in position n is running after n yields: each of them
   is picked within k yields, and after k yields the level is as it was.
   */
  lemma YieldIsFair(k: Kernel, n: nat)
    requires FrontRuns(k) && n <= |k.run[Top(k)]|
    ensures var q := k.run[Top(k)];
            && (n < |q| ==> YieldN(k, n).current == q[n])
            && (n == |q| ==> YieldN(k, n).run == k.run && YieldN(k, n).current == k.current)
  {
    hide RunQueueOk, Yield, Pick;
    YieldsRotate(k, n);
    var i := Top(k);
    assert n == |k.run[i]| ==> Rotate(k.run[i], n) == k.run[i];
  }
}
