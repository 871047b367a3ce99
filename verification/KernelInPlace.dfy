/**
 scheduling.h, scheduling.c and message.c in their own form: thread records updated field by field, run
 queues and receive queues that are linked lists, a bitmap and counters.  Each routine is proved
 against the value function of module Scheduler or Ipc; the calling thread is `current`.
 */
module KernelInPlace {
  import opened Types
  import opened Words
  import opened Scheduler
  import opened SchedulerProofs
  import opened Ipc
  import IpcProofs
  import IpcTheorems
  import opened ThreadLists

  /** The fields of a thread other than its links and its receive queue. */
  datatype Record = Record(
    states: bv16,
    prioStat: int,
    prioDyn: int,
    bound: int,
    slice: int,
    policy: int,
    msg: Message,
    place: Place)

  function Full(r: Record, rcvq: seq<Tid>): Thread {
    Thread(r.states, r.prioStat, r.prioDyn, r.bound, r.slice, r.policy, r.msg, rcvq, r.place)
  }

  // ---------- what records and lists denote ----------

  ghost function RunOf(q: map<int, seq<Tid>>): seq<seq<Tid>> {
    seq(MAXQ, i requires 0 <= i < MAXQ => if i in q then q[i] else [])
  }

  ghost function ThreadsOf(records: map<Tid, Record>, q: map<Tid, seq<Tid>>): map<Tid, Thread> {
    map t | t in records :: Full(records[t], if t in q then q[t] else [])
  }

  lemma RunUpdate(q: map<int, seq<Tid>>, i: int, s: seq<Tid>)
    requires 0 <= i < MAXQ
    ensures |RunOf(q)| == MAXQ && RunOf(q[i := s]) == RunOf(q)[i := s]
  {
  }

  lemma RecordUpdate(records: map<Tid, Record>, q: map<Tid, seq<Tid>>, t: Tid, r: Record)
    requires t in records && t in q
    ensures ThreadsOf(records[t := r], q) == ThreadsOf(records, q)[t := Full(r, q[t])]
  {
  }

  lemma MailUpdate(records: map<Tid, Record>, q: map<Tid, seq<Tid>>, v: Tid, s: seq<Tid>)
    requires v in records && v in q
    ensures ThreadsOf(records, q[v := s]) == ThreadsOf(records, q)[v := Full(records[v], s)]
  {
  }

  lemma SetTwice(k: Kernel, t: Tid, a: Thread, b: Thread)
    ensures SetThread(SetThread(k, t, a), t, b) == SetThread(k, t, b)
  {
    assert k.threads[t := a][t := b] == k.threads[t := b];
  }

  /** The kernel of lines 132-134 of scheduling.c: off the queue, the record rewritten, and on a queue again. */
  ghost function Requeued(k: Kernel, t: Tid, thr: Thread): Kernel
    requires Queued(k, t) && 0 <= Prioq(thr.prioDyn) < MAXQ
  {
    Scheduler.EnqueueThread(SetThread(Scheduler.RemoveThread(k, t), t, thr), t)
  }

  /** The record of a thread whose time slice has run out. */
  ghost function Expired(thr: Thread): Thread {
    var b := NextBound(thr.bound);
    thr.(slice := SLICE, bound := b, prioDyn := thr.prioStat + b)
  }

  lemma TimerCases(k: Kernel)
    requires TimerReady(k)
    ensures k.current in k.threads
    ensures var t, thr := k.current, k.threads[k.current];
            if !Timed(thr) then SchedTimer(k) == k
            else if thr.slice != 1 then SchedTimer(k) == SetThread(k, t, thr.(slice := thr.slice - 1))
            else && Queued(k, t) && 0 <= Prioq(Expired(thr).prioDyn) < MAXQ
                 && SchedTimer(k) == Requeued(k, t, Expired(thr))
  {
  }

  /** What else the record held when the thread was taken off makes no difference. */
  lemma RequeuedSame(k: Kernel, t: Tid, thr: Thread, last: Thread)
    requires Queued(k, t) && 0 <= Prioq(last.prioDyn) < MAXQ && thr.prioDyn == k.threads[t].prioDyn
    ensures Queued(SetThread(k, t, thr), t)
    ensures Requeued(SetThread(k, t, thr), t, last) == Requeued(k, t, last)
  {
    hide Drop;
    SetTwice(Scheduler.RemoveThread(k, t), t, thr, last);
  }

  lemma Removal(k: Kernel, t: Tid)
    requires Queued(k, t)
    ensures t in k.threads && |k.run| == MAXQ
    ensures var i := Prioq(k.threads[t].prioDyn);
            && 0 <= i < MAXQ && t in k.run[i]
            && Scheduler.RemoveThread(k, t)
               == k.(run := k.run[i := Drop(k.run[i], t)],
                     bitmap := if Drop(k.run[i], t) == [] then ClearBit(k.bitmap, i) else k.bitmap,
                     nthreads := k.nthreads - 1)
  {
  }

  lemma AllEmpty(records: map<Tid, Record>, run: map<int, seq<Tid>>, rcv: map<Tid, seq<Tid>>)
    requires (forall i :: i in run ==> run[i] == []) && (forall t :: t in rcv ==> rcv[t] == [])
    ensures RunOf(run) == seq(MAXQ, _ => [])
    ensures ThreadsOf(records, rcv).Keys == records.Keys
    ensures forall t :: t in records ==> ThreadsOf(records, rcv)[t] == Full(records[t], [])
  {
  }

  lemma EmptyIsOk(k: Kernel)
    requires k.run == seq(MAXQ, _ => []) && k.bitmap == ZERO && k.nthreads == 0
    requires k.idle in k.threads && !Timed(k.threads[k.idle]) && forall t :: t in k.threads ==> Bounded(k.threads[t])
    ensures RunQueueOk(k)
  {
    TotalZero(k.run);
    assert forall i :: 0 <= i < MAXQ ==> QueueOk(k, i);
  }

  /** What sched_init sets up. */
  ghost function Initial(threads: map<Tid, Thread>, idle: Tid): Kernel {
    Kernel(threads, ZERO, seq(MAXQ, _ => []), 0, idle, idle)
  }

  lemma InitialIsOk(records: map<Tid, Record>, run: map<int, seq<Tid>>, rcv: map<Tid, seq<Tid>>, idle: Tid)
    requires (forall i :: i in run ==> run[i] == []) && (forall t :: t in rcv ==> rcv[t] == [])
    requires idle in records && !Timed(Full(records[idle], []))
    requires forall t :: t in records ==> Bounded(Full(records[t], []))
    ensures RunOf(run) == seq(MAXQ, _ => []) && RunQueueOk(Initial(ThreadsOf(records, rcv), idle))
  {
    hide RunQueueOk, RunOf, ThreadsOf;
    AllEmpty(records, run, rcv);
    EmptyIsOk(Initial(ThreadsOf(records, rcv), idle));
  }

  lemma SameRun(k: Kernel, k': Kernel, t: Tid)
    requires k'.run == k.run
    ensures InQueue(k', t) <==> InQueue(k, t)
  {
  }

  // ---------- what the lists need ----------

  /** A thread that is not ready is in no run queue. */
  ghost predicate Parked(k: Kernel) {
    forall t :: t in k.threads && k.threads[t].states != THREAD_READY ==> !InQueue(k, t)
  }

  /** `t` is in no receive queue. */
  ghost predicate NotWaiting(k: Kernel, t: Tid) {
    forall v :: v in k.threads ==> t !in k.threads[v].rcvq
  }

  /** The senders in the receive queue of `v` are not ready. */
  ghost predicate SendersParked(k: Kernel, v: Tid) {
    v in k.threads && forall t :: t in k.threads[v].rcvq && t in k.threads ==> k.threads[t].states != THREAD_READY
  }

  class Machine {
    var records: map<Tid, Record>
    var bitmap: Word
    var nthreads: int
    var current: Tid
    const idle: Tid
    const runq: Family
    const mail: Family

    ghost predicate Valid()
      reads this, runq, mail, runq.all, mail.all
    {
      && runq != mail && runq.all !! mail.all && runq.Valid() && mail.Valid()
      && (forall i :: i in runq.heads <==> 0 <= i < MAXQ)
      && records.Keys == mail.heads.Keys && records.Keys == runq.link.Keys && records.Keys == mail.link.Keys
    }

    ghost function State(): Kernel
      reads this, runq, mail
    {
      Kernel(ThreadsOf(records, mail.q), bitmap, RunOf(runq.q), nthreads, current, idle)
    }

    /** sched_init, with the threads and their lists that exist at that time. */
    constructor (records: map<Tid, Record>, runq: Family, mail: Family, idle: Tid)
      requires runq != mail && runq.all !! mail.all && runq.Valid() && mail.Valid()
      requires forall i :: i in runq.heads <==> 0 <= i < MAXQ
      requires records.Keys == mail.heads.Keys && records.Keys == runq.link.Keys && records.Keys == mail.link.Keys
      requires (forall i :: i in runq.q ==> runq.q[i] == []) && (forall t :: t in mail.q ==> mail.q[t] == [])
      requires idle in records && !Timed(Full(records[idle], []))
      requires forall t :: t in records ==> Bounded(Full(records[t], []))
      ensures Valid() && RunQueueOk(State())
      ensures State() == Initial(ThreadsOf(records, mail.q), idle)
    {
      hide Family.Valid, RunOf, ThreadsOf, RunQueueOk;
      this.records, this.runq, this.mail, this.idle, this.current := records, runq, mail, idle, idle;
      bitmap, nthreads := ZERO, 0;
      InitialIsOk(records, runq.q, mail.q, idle);
    }

    lemma Keys()
      requires Valid()
      ensures State().threads.Keys == records.Keys && |State().run| == MAXQ
    {
    }

    lemma At(t: Tid)
      requires Valid() && t in records
      ensures t in mail.q && t in mail.heads && t in mail.link && t in runq.link
      ensures t in State().threads && State().threads[t] == Full(records[t], mail.q[t])
    {
    }

    lemma Level(i: int)
      requires Valid() && 0 <= i < MAXQ
      ensures i in runq.q && i in runq.heads && |State().run| == MAXQ && State().run[i] == runq.q[i]
    {
    }

    lemma NoRun(t: Tid)
      requires Valid() && !InQueue(State(), t)
      ensures runq.InNone(t)
    {
      forall h | h in runq.q ensures t !in runq.q[h] {
        Level(h);
        assert !(t in State().run[h]);
      }
    }

    lemma NoMail(t: Tid)
      requires Valid() && NotWaiting(State(), t)
      ensures mail.InNone(t)
    {
      forall v | v in mail.q ensures t !in mail.q[v] { At(v); }
    }

    /** One field of a thread is assigned. */
    method SetRecord(t: Tid, r: Record)
      requires Valid() && t in records
      modifies this`records
      ensures Valid() && records == old(records)[t := r]
      ensures old(t in State().threads)
      ensures State() == SetThread(old(State()), t, Full(r, old(State().threads[t].rcvq)))
    {
      hide ThreadsOf, RunOf, Family.Valid;
      At(t);
      RecordUpdate(records, mail.q, t, r);
      records := records[t := r];
    }

    // ---------- the run queue ----------

    method EnqueueThread(t: Tid)
      requires Valid() && Indexable(State(), t) && !InQueue(State(), t)
      modifies this`nthreads, this`bitmap, runq`q, runq.all
      ensures Valid() && State() == Scheduler.EnqueueThread(old(State()), t)
    {
      hide ThreadsOf, RunOf, Prioq, Family.Valid, InQueue;
      Keys();
      At(t);
      var index := Prioq(records[t].prioDyn);
      Level(index);
      NoRun(t);
      RunUpdate(runq.q, index, runq.q[index] + [t]);
      nthreads := nthreads + 1;
      runq.Append(index, t);
      bitmap := SetBit(bitmap, index);
    }

    method RemoveThread(t: Tid)
      requires Valid() && Queued(State(), t)
      modifies this`nthreads, this`bitmap, runq`q, runq.all
      ensures Valid() && State() == Scheduler.RemoveThread(old(State()), t)
      ensures !InQueue(State(), t)
    {
      hide ThreadsOf, RunOf, Prioq, Family.Valid, InQueue, Drop, Queued, Scheduler.RemoveThread;
      Removal(State(), t);
      Keys();
      At(t);
      var index := Prioq(records[t].prioDyn);
      Level(index);
      DeleteRun(index, t);
      ghost var k1 := State();
      CountDown(index);
      SameRun(k1, State(), t);
    }

    /** Lines 171-174 of scheduling.h. */
    method CountDown(index: int)
      requires Valid() && 0 <= index < MAXQ
      modifies this`nthreads, this`bitmap
      ensures Valid()
      ensures var k := old(State());
              && |k.run| == MAXQ
              && State() == k.(bitmap := if k.run[index] == [] then ClearBit(k.bitmap, index) else k.bitmap,
                               nthreads := k.nthreads - 1)
    {
      hide ThreadsOf, RunOf, Family.Valid;
      Level(index);
      var empty := runq.IsEmpty(index);
      if empty {
        bitmap := ClearBit(bitmap, index);
      }
      nthreads := nthreads - 1;
    }

    /** list_del on a run queue. */
    method DeleteRun(index: int, t: Tid)
      requires Valid() && t in records && 0 <= index < MAXQ && index in runq.q && t in runq.q[index]
      modifies runq`q, runq.all
      ensures Valid() && !InQueue(State(), t)
      ensures var k := old(State()); |k.run| == MAXQ && State() == k.(run := k.run[index := Drop(k.run[index], t)])
    {
      hide ThreadsOf, RunOf, Family.Valid, InQueue, Drop;
      Level(index);
      RunUpdate(runq.q, index, Drop(runq.q[index], t));
      At(t);
      runq.Delete(index, t);
      Gone(t);
    }

    lemma Gone(t: Tid)
      requires Valid() && runq.InNone(t)
      ensures !InQueue(State(), t)
    {
    }

    method Wakeup(t: Tid)
      requires Valid() && Wakeable(State(), t) && !InQueue(State(), t)
      modifies this`records, this`nthreads, this`bitmap, runq`q, runq.all
      ensures Valid() && State() == Scheduler.Wakeup(old(State()), t)
    {
      hide ThreadsOf, RunOf, Prioq, Family.Valid, Scheduler.EnqueueThread;
      ghost var k := State();
      Keys();
      At(t);
      SetRecord(t, records[t].(states := THREAD_READY));
      ghost var k1 := State();
      At(t);
      SetRecord(t, records[t].(prioDyn := records[t].prioStat));
      SetTwice(k, t, k1.threads[t], State().threads[t]);
      EnqueueThread(t);
    }

    method Schedule()
      requires Valid()
      modifies this`current
      ensures Valid() && State() == Scheduler.Schedule(old(State()))
      ensures RunQueueOk(old(State())) ==> Highest(old(State()), current)
    {
      hide ThreadsOf, RunOf, Family.Valid, RunQueueOk, Highest;
      Keys();
      if RunQueueOk(State()) { PickIsHighest(State()); }
      var quenum := Frs(bitmap);
      if quenum >= 0 {
        Level(quenum);
        var empty := runq.IsEmpty(quenum);
        if empty { quenum := -1; }
      }
      if quenum < 0 {
        current := idle;
      } else {
        current := runq.Oldest(quenum);
      }
    }

    method SchedTimer()
      requires Valid() && TimerReady(State())
      modifies this`records, this`nthreads, this`bitmap, runq`q, runq.all
      ensures Valid() && State() == Scheduler.SchedTimer(old(State()))
    {
      hide ThreadsOf, RunOf, Prioq, Family.Valid, Requeued, Queued, NextBound, TimerReady, Scheduler.SchedTimer;
      ghost var k, t := State(), current;
      TimerCases(k);
      Keys();
      At(t);
      if records[current].policy != SCHED_OTHER || records[current].prioStat >= PRIO_SYS_MIN {
        return;
      }
      SetRecord(current, records[current].(slice := records[current].slice - 1));
      if records[current].slice == 0 {
        ghost var thr := State().threads[t];
        RequeuedSame(k, t, thr, Expired(thr));
        EndSlice(current);
      }
    }

    /** Lines 127-134 of scheduling.c. */
    method EndSlice(t: Tid)
      requires Valid() && t in records && Queued(State(), t)
      requires 0 <= Prioq(Expired(State().threads[t]).prioDyn) < MAXQ
      modifies this`records, this`nthreads, this`bitmap, runq`q, runq.all
      ensures Valid() && State() == Requeued(old(State()), t, Expired(old(State().threads[t])))
    {
      hide ThreadsOf, RunOf, Prioq, Family.Valid, Requeued, Queued, NextBound;
      ghost var k := State();
      At(t);
      SetRecord(t, records[t].(slice := SLICE));
      ghost var thr1 := State().threads[t];
      At(t);
      DecayBound(t);
      SetTwice(k, t, thr1, State().threads[t]);
      RequeuedSame(k, t, State().threads[t], Expired(k.threads[t]));
      At(t);
      Requeue(t);
    }

    /** Lines 129-130 of scheduling.c. */
    method DecayBound(t: Tid)
      requires Valid() && t in records
      modifies this`records
      ensures Valid() && records == old(records)[t := old(records)[t].(bound := NextBound(old(records)[t].bound))]
      ensures old(t in State().threads)
      ensures State() == SetThread(old(State()), t, old(State().threads[t]).(bound := NextBound(old(records)[t].bound)))
    {
      hide ThreadsOf, RunOf, Family.Valid;
      ghost var k := State();
      At(t);
      SetRecord(t, records[t].(bound := records[t].bound - 1));
      if records[t].bound < PRIO_OTHER_MIN {
        ghost var thr := State().threads[t];
        At(t);
        SetRecord(t, records[t].(bound := PRIO_OTHER_MIN));
        SetTwice(k, t, thr, State().threads[t]);
      }
    }

    /** Lines 132-134 of scheduling.c. */
    method Requeue(t: Tid)
      requires Valid() && t in records && Queued(State(), t)
      requires 0 <= Prioq(records[t].prioStat + records[t].bound) < MAXQ
      modifies this`records, this`nthreads, this`bitmap, runq`q, runq.all
      ensures Valid()
      ensures var thr := old(State().threads[t]);
              State() == Requeued(old(State()), t, thr.(prioDyn := thr.prioStat + thr.bound))
    {
      hide ThreadsOf, RunOf, Prioq, Family.Valid, InQueue;
      At(t);
      RemoveThread(t);
      ghost var k1 := State();
      At(t);
      SetRecord(t, records[t].(prioDyn := records[t].prioStat + records[t].bound));
      SameRun(k1, State(), t);
      EnqueueThread(t);
    }

    /** syscall_sched_yield and the rescheduling it leaves pending. */
    method SchedYield()
      requires Valid() && Queued(State(), current)
      modifies this`current, this`nthreads, this`bitmap, runq`q, runq.all
      ensures Valid() && State() == Yield(old(State()))
    {
      hide ThreadsOf, RunOf, Prioq, Family.Valid, InQueue;
      RemoveThread(current);
      EnqueueThread(current);
      Schedule();
    }

    // ---------- messages ----------

    /** make_send_blocked and its like. */
    method MakeBlocked(states: bv16, place: Place)
      requires Valid() && Queued(State(), current)
      modifies this`records, this`current, this`nthreads, this`bitmap, runq`q, runq.all
      ensures Valid() && State() == BlockCurrent(old(State()), states, place)
    {
      hide ThreadsOf, RunOf, Prioq, Family.Valid, InQueue;
      Keys();
      At(current);
      SetRecord(current, records[current].(states := states, place := place));
      RemoveThread(current);
      Schedule();
    }

    /** Lines 135-143 of message.c: copy the message in, join the receiver's queue, map the buffer. */
    method DepositMessage(to: Tid, mesg: Message, mapped: bv32)
      requires Valid() && to in records && current in records && NotWaiting(State(), current)
      modifies this`records, mail`q, mail.all
      ensures Valid() && old(to in State().threads && current in State().threads)
      ensures State() == Deposit(old(State()), to, Stamped(mesg, current, mapped))
    {
      hide ThreadsOf, RunOf, Family.Valid, Transferred, NotWaiting;
      var sender := current;
      At(to);
      At(sender);
      NoMail(sender);
      DepositSteps(State().threads, sender, to, mesg.(tid := sender), Stamped(mesg, sender, mapped));
      SetRecord(sender, records[sender].(msg := mesg.(tid := sender)));
      EnqueueMail(to, sender);
      At(sender);
      SetRecord(sender, records[sender].(msg := Transferred(records[sender].msg, mapped)));
    }

    /** list_enqueue on a receive queue. */
    method EnqueueMail(to: Tid, t: Tid)
      requires Valid() && to in records && t in records && mail.InNone(t)
      modifies mail`q, mail.all
      ensures Valid() && old(to in State().threads)
      ensures var thr := old(State().threads[to]);
              State() == SetThread(old(State()), to, thr.(rcvq := thr.rcvq + [t]))
    {
      hide ThreadsOf, RunOf, Family.Valid;
      At(to);
      At(t);
      MailUpdate(records, mail.q, to, mail.q[to] + [t]);
      mail.Append(to, t);
    }

    method SendMessage(to: Tid, mesg: Message, mapped: bv32, shared: bool) returns (out: Outcome)
      requires Valid() && CallerReady(State()) && Parked(State()) && NotWaiting(State(), current)
      modifies this`records, this`current, this`nthreads, this`bitmap, runq`q, runq.all, mail`q, mail.all
      ensures Valid() && Result(State(), out) == Ipc.SendMessage(old(State()), to, mesg, mapped, shared)
    {
      hide ThreadsOf, RunOf, Family.Valid, Transferred, MapsBuffer, InQueue, Scheduler.Wakeup, BlockCurrent, NotWaiting;
      Keys();
      if to !in records { return Returned(-ESRCH, None); }
      ghost var k := State();
      DepositMessage(to, mesg, mapped);
      if MapsBuffer(mesg) && !shared { return Returned(-ENOMEM, None); }
      ghost var k1 := State();
      DepositKeeps(k, k1, to, Stamped(mesg, current, mapped));
      WakeReceiverLeavesCaller(k1, to);
      At(to);
      if records[to].states & RECEIVE_BLOCKED != 0 {
        Wakeup(to);
      }
      MakeBlocked(SEND_BLOCKED, Sending);
      out := SwitchedAway;
    }

    method FinishSend() returns (out: Outcome)
      requires Valid() && current in records
      modifies this`records
      ensures Valid() && old(current in State().threads) && Result(State(), out) == Ipc.FinishSend(old(State()))
    {
      hide ThreadsOf, RunOf, Family.Valid;
      At(current);
      out := Returned(Signed(records[current].msg.w1), Some(records[current].msg));
      SetRecord(current, records[current].(place := User));
    }

    method ReceiveMessage() returns (out: Outcome)
      requires Valid() && CallerReady(State()) && SendersExist(State())
      requires Parked(State()) && SendersParked(State(), current)
      modifies this`records, this`current, this`nthreads, this`bitmap, runq`q, runq.all, mail`q, mail.all
      ensures Valid() && Result(State(), out) == Ipc.ReceiveMessage(old(State()))
    {
      hide ThreadsOf, RunOf, Family.Valid, InQueue, BlockCurrent, TakeSender, Parked, CallerReady;
      ghost var k := State();
      Keys();
      Running(k);
      At(current);
      var empty := mail.IsEmpty(current);
      if empty {
        MakeBlocked(RECEIVE_BLOCKED, Receiving);
        return SwitchedAway;
      }
      out := TakeOldestSender();
    }

    /** Lines 173-203 of message.c. */
    method TakeOldestSender() returns (out: Outcome)
      requires Valid() && CallerReady(State()) && SendersExist(State()) && State().threads[current].rcvq != []
      requires Parked(State()) && SendersParked(State(), current)
      modifies this`records, this`nthreads, this`bitmap, runq`q, runq.all, mail`q, mail.all
      ensures Valid() && Result(State(), out) == TakeSender(old(State()))
    {
      hide ThreadsOf, RunOf, Family.Valid, InQueue, Scheduler.Wakeup;
      ghost var k := State();
      Keys();
      At(current);
      var snd := TakeMail();
      ghost var k1 := State();
      Keys();
      assert snd == k.threads[current].rcvq[0] && snd in k.threads;
      At(snd);
      var msg := records[snd].msg;
      if msg.flags & MSG_NOREPLY != 0 {
        SameRun(k, k1, snd);
        Wakeup(snd);
        return Returned(0, Some(msg));
      }
      SetRecord(snd, records[snd].(states := REPLY_BLOCKED));
      out := Returned(snd, Some(msg));
    }

    /** list_dequeue on the caller's receive queue; the caller is back in its system call. */
    method TakeMail() returns (snd: Tid)
      requires Valid() && current in records && current in mail.q && mail.q[current] != []
      modifies this`records, mail`q, mail.all
      ensures Valid() && snd == old(mail.q[current][0]) && old(current in State().threads)
      ensures var thr := old(State().threads[current]);
              && thr.rcvq == old(mail.q[current])
              && State() == SetThread(old(State()), current, thr.(rcvq := thr.rcvq[1..], place := User))
    {
      hide ThreadsOf, RunOf, Family.Valid;
      ghost var k := State();
      At(current);
      MailUpdate(records, mail.q, current, mail.q[current][1..]);
      snd := mail.TakeOldest(current);
      ghost var thr := State().threads[current];
      At(current);
      SetRecord(current, records[current].(place := User));
      SetTwice(k, current, thr, State().threads[current]);
    }

    method ReplyMessage(to: Tid, msg: Message) returns (out: Outcome)
      requires Valid() && CallerReady(State()) && Parked(State())
      modifies this`records, this`nthreads, this`bitmap, runq`q, runq.all
      ensures Valid() && Result(State(), out) == Ipc.ReplyMessage(old(State()), to, msg)
    {
      hide ThreadsOf, RunOf, Family.Valid, InQueue, Scheduler.Wakeup, Parked, CallerReady, Wakeable;
      ghost var k := State();
      Keys();
      if to in records { At(to); }
      if to !in records || records[to].states & REPLY_BLOCKED == 0 {
        return Returned(-ESRCH, None);
      }
      WaiterCanWake(k, to, k.threads[to].(msg := msg));
      SetRecord(to, records[to].(msg := msg));
      SameRun(k, State(), to);
      Wakeup(to);
      out := Returned(0, None);
    }
  }

  lemma Running(k: Kernel)
    requires CallerReady(k)
    ensures k.current in k.threads && Queued(k, k.current)
  {
  }

  lemma WaiterCanWake(k: Kernel, t: Tid, thr: Thread)
    requires CallerReady(k) && Parked(k) && t in k.threads && k.threads[t].states & REPLY_BLOCKED != 0
    requires thr.prioStat == k.threads[t].prioStat
    ensures !InQueue(k, t) && Wakeable(SetThread(k, t, thr), t)
  {
  }

  /** A deposit changes messages and one receive queue, and nothing that decides who runs. */
  lemma DepositKeeps(k: Kernel, k1: Kernel, to: Tid, msg: Message)
    requires CallerReady(k) && Parked(k) && to in k.threads && k1 == Deposit(k, to, msg)
    ensures CallerReady(k1) && k1.current == k.current
    ensures k1.threads[to].states & RECEIVE_BLOCKED != 0 ==> !InQueue(k1, to)
  {
    SameRun(k, k1, to);
  }

  /** The three writes of a deposit, in their order, leave the final message and the longer queue. */
  lemma DepositSteps(ts: map<Tid, Thread>, s: Tid, to: Tid, first: Message, last: Message)
    requires s in ts && to in ts
    ensures var a := ts[s := ts[s].(msg := first)];
            var b := a[to := a[to].(rcvq := a[to].rcvq + [s])];
            var c := ts[s := ts[s].(msg := last)];
            && b[s].msg == first
            && b[s := b[s].(msg := last)] == c[to := c[to].(rcvq := c[to].rcvq + [s])]
  {
    if s == to {
      var x := ts[s].(msg := first, rcvq := ts[s].rcvq + [s]);
      assert x.(msg := last) == ts[s].(msg := last).(rcvq := ts[s].rcvq + [s]);
    }
  }

  /**
   Under the client/server discipline the routines are only ever called in states their lists can take:
   who is not ready is in no run queue, the caller is in no receive queue, and who stands in a receive
   queue is not ready.
   */
  lemma ProtocolFits(s: IpcProofs.System)
    requires IpcProofs.Inv(s) && s.k.current != s.k.idle
    ensures Parked(s.k) && SendersParked(s.k, s.k.current)
    ensures CallerReady(s.k) && SendersExist(s.k) && NotWaiting(s.k, s.k.current)
  {
    hide RunQueueOk, InQueue;
    var k := s.k;
    IpcProofs.CurrentIsPlaced(s);
    IpcProofs.CurrentIsReady(s);
    forall t | t in k.threads && k.threads[t].states != THREAD_READY ensures !InQueue(k, t) {
      assert IpcProofs.ThreadOk(s, t);
      if t == k.idle { IdleNotQueued(k); }
    }
    forall t | t in k.threads[k.current].rcvq && t in k.threads ensures k.threads[t].states != THREAD_READY {
      IpcTheorems.QueuedSenderIsBlocked(s, t, k.current);
    }
    forall v | v in k.threads ensures k.current !in k.threads[v].rcvq {
      if k.current in k.threads[v].rcvq {
        IpcTheorems.QueuedSenderIsBlocked(s, k.current, v);
        assert false;
      }
    }
  }

  lemma IdleNotQueued(k: Kernel)
    requires RunQueueOk(k)
    ensures !InQueue(k, k.idle)
  {
  }
}
