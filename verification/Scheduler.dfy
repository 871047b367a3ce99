/**
 The run queue of microkernel/include/kernel/scheduling.h and the scheduler of
 microkernel/kernel/scheduling.c, on one processor (MAX_CPU is 1, so `hint.cpu_hint` is always 0).
 A queue is the sequence of its thread ids, longest queued first: by module ThreadLists that is what
 the linked list denotes, `list_enqueue` appends to it, `last_entry` is its first element and
 `list_del` takes one element out.
 */
module Scheduler {
  import opened Words

  type Tid = int

  const MAXQ := 32
  const SLICE := 40
  const SCHED_RR := 2
  const SCHED_OTHER := 4
  const PRIO_SYS_MIN := 46
  const PRIO_OTHER_MIN := 4

  const THREAD_RUNNING: bv16 := 0x01
  const THREAD_READY: bv16 := 0x02
  const THREAD_BLOCKED: bv16 := 0x10
  const THREAD_UNINT: bv16 := 0x14
  const THREAD_INT: bv16 := 0x18
  const SEND_BLOCKED: bv16 := 0x34
  const RECEIVE_BLOCKED: bv16 := 0x54
  const REPLY_BLOCKED: bv16 := 0x94
  const IRQ_WAIT: bv16 := 0x114
  const SYNC_BLOCKED: bv16 := 0x214
  const THREAD_EXITING: bv16 := 0x400
  const PROCESS_EXITING: bv16 := 0xC00

  /** struct message; w2..w5 share storage with the buffer pointers and sizes. */
  datatype Message = Message(w1: bv32, w2: bv32, w3: bv32, w4: bv32, w5: bv32, tid: Tid, flags: bv16)

  /** Where a thread's control stands: in user code, or inside a message system call. */
  datatype Place = User | Sending | Receiving

  datatype Thread = Thread(
    states: bv16,
    prioStat: int,
    prioDyn: int,
    bound: int,
    slice: int,
    policy: int,
    msg: Message,
    rcvq: seq<Tid>,
    place: Place)

  datatype Kernel = Kernel(
    threads: map<Tid, Thread>,
    bitmap: Word,
    run: seq<seq<Tid>>,
    nthreads: int,
    current: Tid,
    idle: Tid)

  /** PRIOQ with the truncating division of C. */
  function Prioq(prio: int): int {
    if prio >= 0 then prio / 4 else -((-prio) / 4)
  }

  function QueueOf(k: Kernel, t: Tid): int
    requires t in k.threads
  {
    Prioq(k.threads[t].prioDyn)
  }

  predicate Indexable(k: Kernel, t: Tid) {
    && |k.run| == MAXQ && t in k.threads && 0 <= QueueOf(k, t) < MAXQ
  }

  predicate Queued(k: Kernel, t: Tid) {
    Indexable(k, t) && t in k.run[QueueOf(k, t)]
  }

  /** `q` without its first occurrence of `t`. */
  function Drop(q: seq<Tid>, t: Tid): seq<Tid> {
    if q == [] then []
    else if q[0] == t then q[1..]
    else [q[0]] + Drop(q[1..], t)
  }

  function EnqueueThread(k: Kernel, t: Tid): Kernel
    requires Indexable(k, t)
  {
    var i := QueueOf(k, t);
    k.(nthreads := k.nthreads + 1, run := k.run[i := k.run[i] + [t]], bitmap := SetBit(k.bitmap, i))
  }

  function RemoveThread(k: Kernel, t: Tid): Kernel
    requires Queued(k, t)
  {
    var i := QueueOf(k, t);
    var q := Drop(k.run[i], t);
    k.(run := k.run[i := q],
       bitmap := if q == [] then ClearBit(k.bitmap, i) else k.bitmap,
       nthreads := k.nthreads - 1)
  }

  function SetThread(k: Kernel, t: Tid, thr: Thread): Kernel {
    k.(threads := k.threads[t := thr])
  }

  predicate Wakeable(k: Kernel, t: Tid) {
    |k.run| == MAXQ && t in k.threads && 0 <= Prioq(k.threads[t].prioStat) < MAXQ
  }

  function Wakeup(k: Kernel, t: Tid): Kernel
    requires Wakeable(k, t)
  {
    var thr := k.threads[t];
    EnqueueThread(SetThread(k, t, thr.(states := THREAD_READY, prioDyn := thr.prioStat)), t)
  }

  /** The thread `schedule` switches to. */
  function Pick(k: Kernel): Tid
    requires |k.run| == MAXQ
  {
    var quenum := Frs(k.bitmap);
    if quenum < 0 then k.idle
    else if k.run[quenum] == [] then k.idle
    else k.run[quenum][0]
  }

  function Schedule(k: Kernel): Kernel
    requires |k.run| == MAXQ
  {
    k.(current := Pick(k))
  }

  /** Threads whose time slice `sched_timer` counts. */
  predicate Timed(thr: Thread) {
    thr.policy == SCHED_OTHER && thr.prioStat < PRIO_SYS_MIN
  }

  function NextBound(bound: int): int {
    if bound - 1 < PRIO_OTHER_MIN then PRIO_OTHER_MIN else bound - 1
  }

  predicate TimerReady(k: Kernel) {
    && |k.run| == MAXQ && k.current in k.threads
    && (Timed(k.threads[k.current]) && k.threads[k.current].slice == 1 ==>
          && Queued(k, k.current)
          && 0 <= Prioq(k.threads[k.current].prioStat + NextBound(k.threads[k.current].bound)) < MAXQ)
  }

  function SchedTimer(k: Kernel): Kernel
    requires TimerReady(k)
  {
    var t := k.current;
    var thr := k.threads[t];
    if !Timed(thr) then k
    else if thr.slice != 1 then SetThread(k, t, thr.(slice := thr.slice - 1))
    else
      var b := NextBound(thr.bound);
      var k1 := RemoveThread(k, t);
      EnqueueThread(SetThread(k1, t, thr.(slice := SLICE, bound := b, prioDyn := thr.prioStat + b)), t)
  }

  /** syscall_sched_yield, and the `schedule` that its pending flag causes on the way out of the kernel. */
  function Yield(k: Kernel): Kernel
    requires Queued(k, k.current)
  {
    Schedule(EnqueueThread(RemoveThread(k, k.current), k.current))
  }
}
