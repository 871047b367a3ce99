/** What the rendezvous protocol guarantees in every state of every run, and where the discipline is needed. */
module IpcTheorems {
  import opened Types
  import opened Words
  import opened Scheduler
  import opened SchedulerProofs
  import opened Ipc
  import opened IpcProofs

  lemma StepKeeps(s: System, step: IpcStep)
    requires Inv(s) && Allowed(s, step)
    ensures Inv(Perform(s, step))
  {
    hide RunQueueOk, InQueue, ThreadOk, ApplySend, ApplyReceive, ApplyReply, ApplyFinish;
    match step
    case Send(to, mesg, mapped) => SendKeeps(s, to, mesg, mapped);
    case Finish => FinishKeeps(s);
    case Receive =>
      if s.k.threads[s.k.current].rcvq == [] { WaitKeeps(s); } else { TakeKeeps(s); }
    case Reply(to, msg) => ReplyKeeps(s, to, msg);
    case Yielding =>
      InQueueMeansQueued(s.k, s.k.current);
      YieldKeeps(s.k);
      YieldLeavesThreads(s.k);
      SchedulerStepKeeps(s, Yield(s.k));
    case Tick =>
      InQueueMeansQueued(s.k, s.k.current);
      TimerKeeps(s.k);
      TimerLeavesProtocol(s.k);
      SchedulerStepKeeps(s, SchedTimer(s.k));
    case Switch =>
      ScheduleKeeps(s.k);
      SchedulerStepKeeps(s, Schedule(s.k));
  }

  lemma YieldLeavesThreads(k: Kernel)
    requires RunQueueOk(k) && Queued(k, k.current)
    ensures Yield(k).threads == k.threads && Yield(k).idle == k.idle
    ensures Yield(k).current == k.idle || InQueue(Yield(k), Yield(k).current)
  {
    var t := k.current;
    InQueueMeansQueued(k, t);
    RemoveKeeps(k, t);
    EnqueueKeeps(RemoveThread(k, t), t);
    ScheduleKeeps(EnqueueThread(RemoveThread(k, t), t));
  }

  lemma TimerLeavesProtocol(k: Kernel)
    requires TimerReady(k)
    ensures SchedTimer(k).threads.Keys == k.threads.Keys && SchedTimer(k).idle == k.idle
    ensures SchedTimer(k).current == k.current
    ensures forall t :: t in k.threads ==> SameProtocol(k.threads[t], SchedTimer(k).threads[t])
  {
  }

  // ---------- runs ----------

  ghost predicate Next(s: System, step: IpcStep, s': System)
    requires Inv(s)
  {
    Allowed(s, step) && s' == Perform(s, step)
  }

  ghost predicate IsRun(ss: seq<System>, steps: seq<IpcStep>) {
    && |ss| == |steps| + 1
    && Inv(ss[0])
    && forall i :: 0 <= i < |steps| && Inv(ss[i]) ==> Next(ss[i], steps[i], ss[i + 1])
  }

  lemma {:induction false} RunKeeps(ss: seq<System>, steps: seq<IpcStep>, n: nat)
    requires IsRun(ss, steps) && n < |ss|
    ensures Inv(ss[n])
  {
    hide Inv, Allowed, Perform;
    if n > 0 {
      RunKeeps(ss, steps, n - 1);
      assert Next(ss[n - 1], steps[n - 1], ss[n - 1 + 1]);
      StepKeeps(ss[n - 1], steps[n - 1]);
    }
  }

  /** A system at rest: every thread ready and queued, nothing sent, nothing recorded. */
  ghost predicate Initial(s: System) {
    && Shape(s) && s.dest == map[] && s.owed == map[]
    && forall t :: t in s.k.threads ==>
         && s.k.threads[t].rcvq == [] && s.log[t] == Log([], [], [], 0, [], [], [])
         && s.k.threads[t].place == User
         && (t != s.k.idle ==> s.k.threads[t].states == THREAD_READY && InQueue(s.k, t))
  }

  lemma InitialIsGood(s: System)
    requires Initial(s)
    ensures Inv(s)
  {
    hide RunQueueOk, InQueue;
    forall t | t in s.k.threads ensures ThreadOk(s, t) {
      assert s.k.threads[t].rcvq == [];
    }
  }

  // ---------- where a thread can be ----------

  ghost predicate Runnable(s: System, t: Tid)
    requires t in s.k.threads
  {
    s.k.threads[t].states == 0x02 && Queued(s.k, t)
  }

  ghost predicate WaitsAt(s: System, t: Tid, v: Tid)
    requires t in s.k.threads
  {
    && s.k.threads[t].states == 0x34 && v in s.k.threads && t in s.k.threads[v].rcvq
  }

  ghost predicate AwaitsReply(s: System, t: Tid)
    requires t in s.k.threads
  {
    s.k.threads[t].states == 0x94 && t in s.owed
  }

  ghost predicate AwaitsMail(s: System, t: Tid)
    requires t in s.k.threads
  {
    s.k.threads[t].states == 0x54 && s.k.threads[t].rcvq == []
  }

  /** In a receive queue at all. */
  ghost predicate InMail(s: System, t: Tid) {
    exists v :: v in s.k.threads && t in s.k.threads[v].rcvq
  }

  /**
   Every thread but idle is runnable and in the one run queue of its priority, or in exactly one
   receive queue, or awaiting a reply, or awaiting mail; and being in a queue of either kind
   happens in no other situation.
   */
  lemma EachThreadInOnePlace(s: System, t: Tid)
    requires Inv(s) && t in s.k.threads && t != s.k.idle
    ensures Runnable(s, t) || (exists v :: WaitsAt(s, t, v)) || AwaitsReply(s, t) || AwaitsMail(s, t)
    ensures InQueue(s.k, t) <==> Runnable(s, t)
    ensures InMail(s, t) <==> exists v :: WaitsAt(s, t, v)
    ensures forall i, j :: 0 <= i < MAXQ && 0 <= j < MAXQ && t in s.k.run[i] && t in s.k.run[j] ==> i == j
    ensures forall v, w :: WaitsAt(s, t, v) && WaitsAt(s, t, w) ==> v == w
  {
    assert ThreadOk(s, t);
    InQueueMeansQueued(s.k, t);
    forall i | 0 <= i < MAXQ && t in s.k.run[i] ensures i == QueueOf(s.k, t) {
      assert QueueOk(s.k, i);
    }
    hide RunQueueOk, InQueue;
    if t in s.dest {
      DestIsServer(s, t);
      assert ThreadOk(s, s.dest[t]);
      assert WaitsAt(s, t, s.dest[t]);
    }
    forall v | v in s.k.threads && t in s.k.threads[v].rcvq
      ensures t in s.dest && s.dest[t] == v && WaitsAt(s, t, v)
    {
      assert ThreadOk(s, v);
    }
  }

  /** The two mask tests say exactly what they are meant to say, wherever the discipline makes them. */
  lemma MaskTestsExact(s: System)
    requires Inv(s)
    ensures forall v :: v in s.servers ==>
              ((s.k.threads[v].states & RECEIVE_BLOCKED != 0) <==> s.k.threads[v].states == RECEIVE_BLOCKED)
    ensures forall c :: c in s.owed ==> s.k.threads[c].states == REPLY_BLOCKED
    ensures forall c :: c in s.k.threads && c != s.k.idle && c !in s.dest && c !in s.servers ==>
              ((s.k.threads[c].states & REPLY_BLOCKED != 0) <==> c in s.owed)
  {
    hide RunQueueOk, InQueue;
    forall v | v in s.servers
      ensures (s.k.threads[v].states & RECEIVE_BLOCKED != 0) <==> s.k.threads[v].states == RECEIVE_BLOCKED
    {
      ServerSituation(s, v);
    }
    forall c | c in s.owed ensures s.k.threads[c].states == REPLY_BLOCKED { OwedClient(s, c); }
    forall c | c in s.k.threads && c != s.k.idle && c !in s.dest && c !in s.servers
      ensures (s.k.threads[c].states & REPLY_BLOCKED != 0) <==> c in s.owed
    {
      assert ThreadOk(s, c);
    }
  }

  // ---------- what the record of a run says ----------

  /** The record is only ever appended to. */
  ghost predicate Grows(a: Log, b: Log) {
    && a.inbox <= b.inbox && a.taken <= b.taken && a.receipts <= b.receipts && a.begun <= b.begun
    && a.answers <= b.answers && a.returned <= b.returned && a.codes <= b.codes
  }

  lemma StepGrows(s: System, step: IpcStep)
    requires Inv(s) && Allowed(s, step)
    ensures Perform(s, step).servers == s.servers
    ensures s.log.Keys <= Perform(s, step).log.Keys
    ensures forall t :: t in s.log ==> Grows(s.log[t], Perform(s, step).log[t])
  {
    hide ThreadOk, RunQueueOk, SendMessage, ReplyMessage, ApplyReceive, Yield, SchedTimer;
    if step == Receive { ReceiveGrows(s); }
  }

  lemma ReceiveGrows(s: System)
    requires Inv(s) && Allowed(s, Receive)
    ensures ApplyReceive(s).servers == s.servers && s.log.Keys <= ApplyReceive(s).log.Keys
    ensures forall t :: t in s.log ==> Grows(s.log[t], ApplyReceive(s).log[t])
  {
    hide RunQueueOk, InQueue, Wakeup, BlockCurrent, CallerReady, ThreadOk;
    CurrentIsReady(s);
    if s.k.threads[s.k.current].rcvq != [] { var snd := OldestSender(s, s.k.current); }
  }

  lemma {:induction false} RunGrows(ss: seq<System>, steps: seq<IpcStep>, i: nat, j: nat)
    requires IsRun(ss, steps) && i <= j < |ss|
    ensures ss[j].servers == ss[i].servers && ss[i].log.Keys <= ss[j].log.Keys
    ensures forall t :: t in ss[i].log ==> Grows(ss[i].log[t], ss[j].log[t])
    decreases j - i
  {
    hide Inv, Allowed, Perform;
    if i < j {
      RunGrows(ss, steps, i, j - 1);
      RunKeeps(ss, steps, j - 1);
      assert Next(ss[j - 1], steps[j - 1], ss[j - 1 + 1]);
      StepGrows(ss[j - 1], steps[j - 1]);
    }
  }

  /**
   At every moment of every run, what a server has received so far is what was sent to it first, in send
   order, each message word for word as its sender gave it, with the true sender's tid and at most one word
   changed to the address of its mapped buffer; the rest is what stands in its queue.  Each receive
   returned the sender, or 0 for a message that wants no reply.
   */
  lemma ReceivedInSendOrder(ss: seq<System>, steps: seq<IpcStep>, n: nat, v: Tid)
    requires IsRun(ss, steps) && n < |ss| && v in ss[n].servers
    ensures v in ss[n].log && v in ss[n].k.threads
    ensures |ss[n].log[v].taken| <= |ss[n].log[v].inbox|
    ensures forall i :: 0 <= i < |ss[n].log[v].taken| ==> Carries(ss[n].log[v].inbox[i], ss[n].log[v].taken[i])
    ensures Receipts(ss[n].log[v])
    ensures forall i :: 0 <= i < |ss[n].k.threads[v].rcvq| ==> ss[n].k.threads[v].rcvq[i] in ss[n].k.threads
    ensures CarriesAll(ss[n].log[v].inbox, ss[n].log[v].taken + Mails(ss[n].k.threads, ss[n].k.threads[v].rcvq))
  {
    RunKeeps(ss, steps, n);
    hide IsRun, RunQueueOk, InQueue, Carries;
    assert ThreadOk(ss[n], v);
    var log := ss[n].log[v];
    var got := log.taken + Mails(ss[n].k.threads, ss[n].k.threads[v].rcvq);
    assert forall i :: 0 <= i < |log.taken| ==> got[i] == log.taken[i];
  }

  /**
   At every moment of every run, the n-th finished send of a client came back with the n-th answer
   given to it and returned its first word; at most one send is unanswered, and then the client is blocked.
   */
  lemma SendsReturnTheirAnswers(ss: seq<System>, steps: seq<IpcStep>, n: nat, c: Tid)
    requires IsRun(ss, steps) && n < |ss| && c in ss[n].k.threads
    ensures c in ss[n].log
    ensures ss[n].log[c].returned <= ss[n].log[c].answers && Codes(ss[n].log[c])
    ensures |ss[n].log[c].answers| <= ss[n].log[c].begun <= |ss[n].log[c].answers| + 1
    ensures |ss[n].log[c].answers| <= |ss[n].log[c].returned| + 1
    ensures c != ss[n].k.idle && Runnable(ss[n], c) ==> ss[n].log[c].begun == |ss[n].log[c].answers|
  {
    RunKeeps(ss, steps, n);
    hide IsRun, RunQueueOk, InQueue;
    assert ThreadOk(ss[n], c);
  }

  /**
   What a call that cannot be served returns, and does.  Nothing happens when there is no such thread or, for a
   reply, when it is not blocked; a send whose buffer could not be shared comes back with its caller still
   running.
   */
  lemma FailedCalls(k: Kernel, to: Tid, msg: Message, mapped: bv32, shared: bool)
    requires CallerReady(k)
    ensures to !in k.threads ==> SendMessage(k, to, msg, mapped, shared) == Result(k, Returned(-0x49, None))
    ensures to !in k.threads || (ThreadState(k.threads[to].states) && k.threads[to].states & THREAD_BLOCKED == 0) ==>
              ReplyMessage(k, to, msg) == Result(k, Returned(-0x49, None))
    ensures to in k.threads && !shared && msg.flags & 0x01 == 0 && msg.flags & 0x0C != 0 ==>
              var r := SendMessage(k, to, msg, mapped, shared);
              r.out == Returned(-0x31, None) && r.k.run == k.run && r.k.current == k.current
  {
    if to in k.threads && ThreadState(k.threads[to].states) { MaskTestsIff(k.threads[to].states); }
  }

  // ---------- outside the discipline ----------

  /**
   Sending to a thread that is itself blocked in send wakes it although it still stands in another
   thread's receive queue: line 150 takes SEND_BLOCKED for RECEIVE_BLOCKED.
   */
  lemma SendWakesBlockedSender(k: Kernel, to: Tid, mesg: Message, mapped: bv32, v: Tid)
    requires CallerReady(k) && to in k.threads && to != k.current && k.threads[to].states == SEND_BLOCKED
    requires v in k.threads && to in k.threads[v].rcvq
    ensures var k' := SendMessage(k, to, mesg, mapped, true).k;
            && k'.threads[to].states == THREAD_READY
            && v in k'.threads && to in k'.threads[v].rcvq
  {
  }

  /** Sending to a thread that waits for anything at all, and not for a message, makes it run. */
  lemma SendWakesAnyWaiter(k: Kernel, to: Tid, mesg: Message, mapped: bv32)
    requires CallerReady(k) && to in k.threads && to != k.current && ThreadState(k.threads[to].states)
    requires k.threads[to].states & THREAD_BLOCKED != 0
    ensures var k' := SendMessage(k, to, mesg, mapped, true).k;
            k'.threads[to].states == THREAD_READY && Queued(k', to)
  {
    MaskTestsIff(k.threads[to].states);
    var k1 := Deposit(k, to, Stamped(mesg, k.current, mapped));
    var k2 := WakeReceiver(k1, to);
    WakeReceiverLeavesCaller(k1, to);
    BlockLeavesQueued(k2, to);
  }

  lemma BlockLeavesQueued(k: Kernel, t: Tid)
    requires Queued(k, k.current) && Queued(k, t) && t != k.current
    ensures Queued(BlockCurrent(k, SEND_BLOCKED, Sending), t)
    ensures BlockCurrent(k, SEND_BLOCKED, Sending).threads[t] == k.threads[t]
  {
    var q := k.run[QueueOf(k, k.current)];
    var i := DropAt(q, k.current);
    if QueueOf(k, t) == QueueOf(k, k.current) {
      var j :| 0 <= j < |q| && q[j] == t;
      assert Drop(q, k.current)[if j < i then j else j - 1] == t;
    }
  }

  /** A driver waiting for its interrupt, numbered 2, while 1 runs. */
  function Driver(msg: Message): Kernel {
    var thr := Thread(THREAD_READY, 24, 24, 4, SLICE, SCHED_OTHER, msg, [], User);
    Kernel(map[0 := thr.(policy := 0), 1 := thr, 2 := thr.(states := IRQ_WAIT)],
           seq(32, i => i == 6), seq(32, i => if i == 6 then [1] else []), 1, 1, 0)
  }

  /** A message ends the driver's wait although no interrupt has come. */
  lemma SendEndsIrqWait(msg: Message, mapped: bv32)
    ensures CallerReady(Driver(msg)) && Driver(msg).threads[2].states == IRQ_WAIT
    ensures var k' := SendMessage(Driver(msg), 2, msg, mapped, true).k;
            k'.threads[2].states == THREAD_READY && Queued(k', 2)
  {
    var k := Driver(msg);
    assert 1 in k.run[6] && Queued(k, 1);
    SendWakesAnyWaiter(k, 2, msg, mapped);
  }

  /** Two ready threads of the same priority, numbered 1 and 2, the first of them running; idle is 0. */
  function Pair(msg: Message): Kernel {
    var thr := Thread(THREAD_READY, 24, 24, 4, SLICE, SCHED_OTHER, msg, [], User);
    Kernel(map[0 := thr.(policy := 0), 1 := thr, 2 := thr],
           seq(32, i => i == 6), seq(32, i => if i == 6 then [1, 2] else []), 2, 1, 0)
  }

  /** So two threads that send to each other, starting from rest, end up with 1 both ready and queued at 2. */
  lemma MutualSend(msg: Message, mapped: bv32)
    ensures CallerReady(Pair(msg))
    ensures var k1 := SendMessage(Pair(msg), 2, msg, mapped, true).k;
            && CallerReady(k1) && k1.current == 2
            && var k2 := SendMessage(k1, 1, msg, mapped, true).k;
               k2.threads[1].states == THREAD_READY && 1 in k2.threads[2].rcvq
  {
    var k := Pair(msg);
    assert 1 in k.run[6] && Queued(k, 1);
    var k0 := Deposit(k, 2, Stamped(msg, 1, mapped));
    assert WakeReceiver(k0, 2) == k0;
    var k1 := SendMessage(k, 2, msg, mapped, true).k;
    assert k1.run == k.run[6 := [2]] && k1.bitmap == k.bitmap;
    assert k.bitmap[6] && Frs(k.bitmap) == 6;
    assert 2 in k1.run[6];
    SendWakesBlockedSender(k1, 1, msg, mapped, 2);
  }

  /** Replying to a thread whose message has not been received does the same. */
  lemma ReplyWakesBlockedSender(k: Kernel, to: Tid, msg: Message, v: Tid)
    requires CallerReady(k) && to in k.threads && k.threads[to].states == SEND_BLOCKED
    requires v in k.threads && to in k.threads[v].rcvq
    ensures var r := ReplyMessage(k, to, msg);
            && r.out == Returned(0, None)
            && r.k.threads[to].states == THREAD_READY && Queued(r.k, to)
            && v in r.k.threads && to in r.k.threads[v].rcvq
  {
  }

  /**
   A send keeps the protocol in order if and only if the buffer transfer succeeds: when it fails,
   the sender goes on running while it stands in the receiver's queue, and no account of the
   resulting kernel is in order.
   */
  lemma SendKeepsIffTransferred(s: System, to: Tid, mesg: Message, mapped: bv32, shared: bool)
    requires Inv(s) && Allowed(s, Send(to, mesg, mapped)) && to in s.servers
    ensures CallerReady(s.k)
    ensures (MapsBuffer(mesg) ==> shared) <==>
            exists s': System ::
              Inv(s') && s'.servers == s.servers && s'.k == SendMessage(s.k, to, mesg, mapped, shared).k
  {
    hide MapsBuffer;
    CurrentIsReady(s);
    var k' := SendMessage(s.k, to, mesg, mapped, shared).k;
    if MapsBuffer(mesg) ==> shared {
      SendKeeps(s, to, mesg, mapped);
      assert ApplySend(s, to, mesg, mapped).k == k';
    } else {
      ServerSituation(s, to);
      CurrentIsPlaced(s);
      assert to != s.k.current && k'.threads[s.k.current].states == THREAD_READY;
      assert to in k'.threads && s.k.current in k'.threads[to].rcvq;
      forall s': System | s'.k == k' && s'.servers == s.servers ensures !Inv(s') {
        if Inv(s') {
          QueuedSenderIsBlocked(s', s.k.current, to);
          assert false;
        }
      }
    }
  }

  lemma QueuedSenderIsBlocked(s: System, c: Tid, v: Tid)
    requires Inv(s) && v in s.k.threads && c in s.k.threads[v].rcvq
    ensures c in s.k.threads && s.k.threads[c].states == SEND_BLOCKED
  {
    hide RunQueueOk, InQueue;
    assert ThreadOk(s, v);
    assert ThreadOk(s, c);
  }
}
