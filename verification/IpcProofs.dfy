/**
 The rendezvous protocol under the client/server discipline: clients only send, servers only
 receive, and a server replies exactly once to each sender it received a message from without
 MSG_NOREPLY.  A `System` is the kernel together with a record of what has been sent, taken,
 answered and returned; the record is written by the steps and never read by them.
 */
module IpcProofs {
  import opened Types
  import opened Words
  import opened Scheduler
  import opened SchedulerProofs
  import opened Ipc

  // ---------- the mask tests ----------

  /** The states of thread.h, lines 36-48. */
  ghost predicate ThreadState(s: bv16) {
    || s == THREAD_RUNNING || s == THREAD_READY || s == THREAD_BLOCKED || s == THREAD_UNINT || s == THREAD_INT
    || s == SEND_BLOCKED || s == RECEIVE_BLOCKED || s == REPLY_BLOCKED || s == IRQ_WAIT || s == SYNC_BLOCKED
    || s == THREAD_EXITING || s == PROCESS_EXITING
  }

  /**
   The tests of lines 150 and 215 share the bit THREAD_BLOCKED with every blocked state.  Over all the
   states a thread can have, each test says what it is meant to say if and only if the thread is not
   blocked at all, or blocked for the very reason that is asked for.
   */
  lemma MaskTestsIff(s: bv16)
    requires ThreadState(s)
    ensures ((s & RECEIVE_BLOCKED != 0) == (s == RECEIVE_BLOCKED)) <==> s & THREAD_BLOCKED == 0 || s == RECEIVE_BLOCKED
    ensures ((s & REPLY_BLOCKED != 0) == (s == REPLY_BLOCKED)) <==> s & THREAD_BLOCKED == 0 || s == REPLY_BLOCKED
    ensures s & RECEIVE_BLOCKED != 0 <==> s & THREAD_BLOCKED != 0
    ensures s & REPLY_BLOCKED != 0 <==> s & THREAD_BLOCKED != 0
  {
  }

  // ---------- the system and its record ----------

  /** A message as its sender gave it to the kernel, and the address its buffer was mapped at, if it was. */
  datatype Given = Given(from: Tid, msg: Message, mapped: bv32)

  /** A message as a receiver finds it, and the thread it says it is from. */
  datatype Mail = Mail(from: Tid, msg: Message)

  datatype Log = Log(
    inbox: seq<Given>,        // everything sent to this thread, in send order
    taken: seq<Mail>,         // everything its receives have returned
    receipts: seq<int>,       // the code each of those receives returned
    begun: nat,               // sends it has started
    answers: seq<Message>,    // the message each of its sends is to come back with
    returned: seq<Message>,   // the message each finished send came back with
    codes: seq<int>)          // the code it came back with

  datatype System = System(
    k: Kernel,
    servers: set<Tid>,
    dest: map<Tid, Tid>,      // clients whose message is queued, and where
    owed: map<Tid, Tid>,      // clients awaiting a reply, and from whom
    log: map<Tid, Log>)

  ghost predicate IsClient(s: System, t: Tid) {
    t in s.k.threads && t != s.k.idle && t !in s.servers
  }

  /** Thread `t` is in exactly one of the four situations, and its state word says which. */
  ghost predicate Placed(s: System, t: Tid)
    requires t in s.k.threads
  {
    var thr := s.k.threads[t];
    if t in s.dest then
      && thr.states == SEND_BLOCKED && thr.place == Sending && IsClient(s, t)
      && !InQueue(s.k, t) && t !in s.owed && s.dest[t] in s.servers && thr.msg.tid == t
    else if t in s.owed then
      && thr.states == REPLY_BLOCKED && thr.place == Sending && IsClient(s, t)
      && !InQueue(s.k, t) && s.owed[t] in s.servers
    else if thr.states == RECEIVE_BLOCKED then
      && thr.place == Receiving && t in s.servers && !InQueue(s.k, t) && thr.rcvq == []
    else
      && thr.states == THREAD_READY && InQueue(s.k, t)
      && (thr.place == Sending ==> IsClient(s, t))
      && (thr.place == Receiving ==> t in s.servers)
  }

  /** The receive queue of `v` holds exactly the clients whose message is on its way to `v`, once each. */
  ghost predicate QueueMatches(s: System, v: Tid)
    requires v in s.k.threads
  {
    && Distinct(s.k.threads[v].rcvq)
    && (forall i :: 0 <= i < |s.k.threads[v].rcvq| ==> s.k.threads[v].rcvq[i] in s.k.threads)
    && forall t :: t in s.k.threads[v].rcvq <==> t in s.dest && s.dest[t] == v
  }

  ghost function Mails(threads: map<Tid, Thread>, q: seq<Tid>): (r: seq<Mail>)
    requires forall i :: 0 <= i < |q| ==> q[i] in threads
    ensures |r| == |q| && forall i :: 0 <= i < |q| ==> r[i] == Mail(q[i], threads[q[i]].msg)
  {
    if q == [] then [] else [Mail(q[0], threads[q[0]].msg)] + Mails(threads, q[1..])
  }

  /**
   What arrives is what was given, from its true sender, except for one word: unless the message is short,
   w4 holds the mapped address if the receive buffer is to be mapped, and otherwise w2 does if the send
   buffer is.
   */
  ghost predicate Carries(g: Given, m: Mail) {
    var mapsReceive := g.msg.flags & 0x01 == 0 && g.msg.flags & 0x08 != 0;
    var mapsSend := g.msg.flags & 0x01 == 0 && g.msg.flags & 0x08 == 0 && g.msg.flags & 0x04 != 0;
    && m.from == g.from && m.msg.tid == g.from && m.msg.flags == g.msg.flags
    && m.msg.w1 == g.msg.w1 && m.msg.w3 == g.msg.w3 && m.msg.w5 == g.msg.w5
    && m.msg.w2 == (if mapsSend then g.mapped else g.msg.w2)
    && m.msg.w4 == (if mapsReceive then g.mapped else g.msg.w4)
  }

  ghost predicate CarriesAll(gs: seq<Given>, ms: seq<Mail>) {
    |gs| == |ms| && forall i :: 0 <= i < |gs| ==> Carries(gs[i], ms[i])
  }

  lemma StampedCarries(mesg: Message, from: Tid, mapped: bv32)
    ensures Carries(Given(from, mesg, mapped), Mail(from, Stamped(mesg, from, mapped)))
  {
  }

  /** The 32-bit word as an `int` of the machine. */
  ghost predicate IntOf(code: int, w: bv32) {
    -0x8000_0000 <= code < 0x8000_0000 && (code - w as int) % 0x1_0000_0000 == 0
  }

  lemma SignedIsInt(w: bv32)
    ensures IntOf(Signed(w), w)
  {
  }

  /** A receive returns the sender, or 0 for a message that wants no reply. */
  ghost predicate Receipts(log: Log) {
    && |log.receipts| == |log.taken|
    && forall i :: 0 <= i < |log.taken| ==>
         log.receipts[i] == if log.taken[i].msg.flags & 0x20 != 0 then 0 else log.taken[i].from
  }

  /** A send returns the first word of the message it comes back with. */
  ghost predicate Codes(log: Log) {
    && |log.codes| == |log.returned|
    && forall i :: 0 <= i < |log.returned| ==> IntOf(log.codes[i], log.returned[i].w1)
  }

  /** A send answered but not yet returned: the thread is ready again and still inside the call. */
  ghost predicate Answered(s: System, c: Tid)
    requires c in s.k.threads
  {
    c !in s.dest && c !in s.owed && s.k.threads[c].place == Sending
  }

  /** Nothing sent to `v` is lost, duplicated, reordered or misattributed. */
  ghost predicate Delivered(s: System, v: Tid)
    requires v in s.k.threads && v in s.log
    requires forall i :: 0 <= i < |s.k.threads[v].rcvq| ==> s.k.threads[v].rcvq[i] in s.k.threads
  {
    && CarriesAll(s.log[v].inbox, s.log[v].taken + Mails(s.k.threads, s.k.threads[v].rcvq))
    && Receipts(s.log[v])
  }

  /** Every send of `c` has one answer, and comes back with exactly that answer. */
  ghost predicate Accounted(s: System, c: Tid)
    requires c in s.k.threads && c in s.log
  {
    && s.log[c].answers == s.log[c].returned + (if Answered(s, c) then [s.k.threads[c].msg] else [])
    && s.log[c].begun == |s.log[c].answers| + (if c in s.dest || c in s.owed then 1 else 0)
    && Codes(s.log[c])
  }

  ghost predicate Shape(s: System) {
    && RunQueueOk(s.k)
    && s.k.idle in s.k.threads && s.k.idle !in s.servers
    && s.servers <= s.k.threads.Keys && s.log.Keys == s.k.threads.Keys
    && s.dest.Keys <= s.k.threads.Keys - {s.k.idle} && s.owed.Keys <= s.k.threads.Keys - {s.k.idle}
    && (s.k.current == s.k.idle || InQueue(s.k, s.k.current))
  }

  ghost predicate ThreadOk(s: System, t: Tid)
    requires t in s.k.threads && t in s.log
  {
    && (t != s.k.idle ==> Placed(s, t))
    && QueueMatches(s, t)
    && Delivered(s, t)
    && Accounted(s, t)
  }

  ghost predicate Inv(s: System) {
    Shape(s) && forall t :: t in s.k.threads ==> ThreadOk(s, t)
  }

  // ---------- the steps ----------

  datatype IpcStep =
    | Send(to: Tid, mesg: Message, mapped: bv32)
    | Finish
    | Receive
    | Reply(to: Tid, msg: Message)
    | Yielding
    | Tick
    | Switch

  /** The discipline, with the buffer transfer succeeding. */
  ghost predicate Allowed(s: System, step: IpcStep) {
    var t := s.k.current;
    match step
    case Send(to, _, _) =>
      IsClient(s, t) && s.k.threads[t].place == User && (to in s.servers || to !in s.k.threads)
    case Finish => IsClient(s, t) && s.k.threads[t].place == Sending
    case Receive => t in s.servers
    case Reply(to, _) =>
      t in s.servers && t in s.k.threads && s.k.threads[t].place == User && to in s.owed && s.owed[to] == t
    case Yielding => t != s.k.idle
    case Tick => true
    case Switch => true
  }

  lemma CurrentIsReady(s: System)
    requires Inv(s) && s.k.current != s.k.idle
    ensures CallerReady(s.k) && SendersExist(s.k)
    ensures s.k.current !in s.dest && s.k.current !in s.owed
  {
    InQueueMeansQueued(s.k, s.k.current);
    assert ThreadOk(s, s.k.current);
    forall t | t in s.k.threads ensures Wakeable(s.k, t) {
      assert Bounded(s.k.threads[t]);
    }
  }

  // ---------- what each call does to the kernel ----------

  lemma BlockEffect(k: Kernel, states: bv16, place: Place)
    requires RunQueueOk(k) && Queued(k, k.current)
    ensures var k', t := BlockCurrent(k, states, place), k.current;
            && RunQueueOk(k') && k'.idle == k.idle
            && k'.threads == k.threads[t := k.threads[t].(states := states, place := place)]
            && (forall x :: InQueue(k', x) <==> x != t && InQueue(k, x))
            && (k'.current == k.idle || InQueue(k', k'.current))
  {
    var t := k.current;
    InQueueMeansQueued(k, t);
    var k1 := SetThread(k, t, k.threads[t].(states := states, place := place));
    SetThreadKeeps(k, t, k.threads[t].(states := states, place := place));
    RemoveKeeps(k1, t);
    ScheduleKeeps(RemoveThread(k1, t));
  }

  /** The receiver's record after a send to it. */
  ghost function AfterDeposit(thr: Thread, from: Tid): Thread {
    var q := thr.rcvq + [from];
    if thr.states == RECEIVE_BLOCKED
    then thr.(rcvq := q, states := THREAD_READY, prioDyn := thr.prioStat)
    else thr.(rcvq := q)
  }

  lemma DepositEffect(k: Kernel, to: Tid, msg: Message)
    requires RunQueueOk(k) && CallerReady(k) && to in k.threads && to != k.current
    ensures var k', c := Deposit(k, to, msg), k.current;
            && RunQueueOk(k') && CallerReady(k') && k'.idle == k.idle && k'.current == c
            && k'.threads == k.threads[c := k.threads[c].(msg := msg)]
                                      [to := k.threads[to].(rcvq := k.threads[to].rcvq + [c])]
            && (forall x :: InQueue(k', x) <==> InQueue(k, x))
  {
    hide RunQueueOk, InQueue;
    var c := k.current;
    RunQueueBounds(k, c);
    RunQueueBounds(k, to);
    SetThreadKeeps(k, c, k.threads[c].(msg := msg));
    SetThreadKeeps(SetThread(k, c, k.threads[c].(msg := msg)), to,
                   k.threads[to].(rcvq := k.threads[to].rcvq + [c]));
  }

  lemma SendEffect(k: Kernel, to: Tid, mesg: Message, mapped: bv32)
    requires RunQueueOk(k) && CallerReady(k)
    requires to in k.threads && to != k.current && to != k.idle
    requires if InQueue(k, to) then k.threads[to].states == THREAD_READY else k.threads[to].states == RECEIVE_BLOCKED
    ensures var k', c := SendMessage(k, to, mesg, mapped, true).k, k.current;
            && RunQueueOk(k') && k'.idle == k.idle
            && k'.threads == k.threads[c := k.threads[c].(msg := Stamped(mesg, c, mapped),
                                                         states := SEND_BLOCKED, place := Sending)]
                                      [to := AfterDeposit(k.threads[to], c)]
            && (forall x :: InQueue(k', x) <==> x != c && (x == to || InQueue(k, x)))
            && (k'.current == k.idle || InQueue(k', k'.current))
  {
    hide RunQueueOk, InQueue, CallerReady, Queued, BlockCurrent, Transferred;
    var c, msg := k.current, Stamped(mesg, k.current, mapped);
    CallerInQueue(k);
    DepositEffect(k, to, msg);
    var k1 := Deposit(k, to, msg);
    if k.threads[to].states == RECEIVE_BLOCKED {
      WakeupKeeps(k1, to);
    }
    RunQueueBounds(k1, to);
    WakeReceiverLeavesCaller(k1, to);
    BlockEffect(WakeReceiver(k1, to), SEND_BLOCKED, Sending);
  }

  lemma CallerInQueue(k: Kernel)
    requires CallerReady(k)
    ensures k.current in k.threads && InQueue(k, k.current)
  {
  }

  lemma RunQueueBounds(k: Kernel, t: Tid)
    requires RunQueueOk(k) && t in k.threads
    ensures Bounded(k.threads[t]) && Wakeable(k, t) && k.idle in k.threads && !Timed(k.threads[k.idle])
  {
  }

  lemma TakeEffect(k: Kernel, snd: Tid)
    requires RunQueueOk(k) && CallerReady(k) && SendersExist(k)
    requires k.threads[k.current].rcvq != [] && k.threads[k.current].rcvq[0] == snd
    requires snd in k.threads && snd != k.current && snd != k.idle && !InQueue(k, snd)
    ensures var r, v, msg := ReceiveMessage(k), k.current, k.threads[snd].msg;
            var thr := k.threads[snd];
            && RunQueueOk(r.k) && r.k.idle == k.idle && r.k.current == v
            && (if msg.flags & MSG_NOREPLY != 0 then
                  && r.out == Returned(0, Some(msg))
                  && r.k.threads == k.threads[v := k.threads[v].(rcvq := k.threads[v].rcvq[1..], place := User)]
                                             [snd := thr.(states := THREAD_READY, prioDyn := thr.prioStat)]
                  && (forall x :: InQueue(r.k, x) <==> x == snd || InQueue(k, x))
                else
                  && r.out == Returned(snd, Some(msg))
                  && r.k.threads == k.threads[v := k.threads[v].(rcvq := k.threads[v].rcvq[1..], place := User)]
                                             [snd := thr.(states := REPLY_BLOCKED)]
                  && (forall x :: InQueue(r.k, x) <==> InQueue(k, x)))
  {
    hide RunQueueOk, InQueue;
    var v := k.current;
    var thr1 := k.threads[v].(rcvq := k.threads[v].rcvq[1..], place := User);
    RunQueueBounds(k, v);
    RunQueueBounds(k, snd);
    SetThreadKeeps(k, v, thr1);
    var k1 := SetThread(k, v, thr1);
    if k.threads[snd].msg.flags & MSG_NOREPLY != 0 {
      WakeupKeeps(k1, snd);
    } else {
      SetThreadKeeps(k1, snd, k.threads[snd].(states := REPLY_BLOCKED));
    }
  }

  lemma ReplyEffect(k: Kernel, to: Tid, msg: Message)
    requires RunQueueOk(k) && CallerReady(k)
    requires to in k.threads && to != k.idle && !InQueue(k, to) && k.threads[to].states == REPLY_BLOCKED
    ensures var r, thr := ReplyMessage(k, to, msg), k.threads[to];
            && r.out == Returned(0, None)
            && RunQueueOk(r.k) && r.k.idle == k.idle && r.k.current == k.current
            && r.k.threads == k.threads[to := thr.(msg := msg, states := THREAD_READY, prioDyn := thr.prioStat)]
            && (forall x :: InQueue(r.k, x) <==> x == to || InQueue(k, x))
  {
    hide RunQueueOk, InQueue;
    RunQueueBounds(k, to);
    SetThreadKeeps(k, to, k.threads[to].(msg := msg));
    WakeupKeeps(SetThread(k, to, k.threads[to].(msg := msg)), to);
  }

  // ---------- one step of the system ----------

  ghost function ApplySend(s: System, to: Tid, mesg: Message, mapped: bv32): System
    requires Inv(s) && Allowed(s, Send(to, mesg, mapped))
  {
    CurrentIsReady(s);
    var c, r := s.k.current, SendMessage(s.k, to, mesg, mapped, true);
    if to !in s.k.threads then s
    else
      s.(k := r.k,
         dest := s.dest[c := to],
         log := s.log[to := s.log[to].(inbox := s.log[to].inbox + [Given(c, mesg, mapped)])]
                     [c := s.log[c].(begun := s.log[c].begun + 1)])
  }

  ghost function ApplyFinish(s: System): System
    requires Inv(s) && Allowed(s, Finish)
  {
    var c, r := s.k.current, FinishSend(s.k);
    s.(k := r.k, log := s.log[c := s.log[c].(returned := s.log[c].returned + [r.out.msg.value],
                                             codes := s.log[c].codes + [r.out.code])])
  }

  /** The record of a receive holds the message as the receiver sees it, attributed to the tid it carries. */
  ghost function ApplyReceive(s: System): System
    requires Inv(s) && Allowed(s, Receive)
  {
    CurrentIsReady(s);
    var v, r := s.k.current, ReceiveMessage(s.k);
    if r.out.SwitchedAway? then s.(k := r.k)
    else
      var snd, msg := s.k.threads[v].rcvq[0], r.out.msg.value;
      var log1 := s.log[v := s.log[v].(taken := s.log[v].taken + [Mail(msg.tid, msg)],
                                       receipts := s.log[v].receipts + [r.out.code])];
      if msg.flags & MSG_NOREPLY != 0 then
        assert snd in s.k.threads;
        s.(k := r.k, dest := s.dest - {snd},
           log := log1[snd := log1[snd].(answers := log1[snd].answers + [msg])])
      else
        s.(k := r.k, dest := s.dest - {snd}, owed := s.owed[r.out.code := v], log := log1)
  }

  ghost function ApplyReply(s: System, to: Tid, msg: Message): System
    requires Inv(s) && Allowed(s, Reply(to, msg))
  {
    CurrentIsReady(s);
    s.(k := ReplyMessage(s.k, to, msg).k, owed := s.owed - {to},
       log := s.log[to := s.log[to].(answers := s.log[to].answers + [msg])])
  }

  ghost function Perform(s: System, step: IpcStep): System
    requires Inv(s) && Allowed(s, step)
  {
    match step
    case Send(to, mesg, mapped) => ApplySend(s, to, mesg, mapped)
    case Finish => ApplyFinish(s)
    case Receive => ApplyReceive(s)
    case Reply(to, msg) => ApplyReply(s, to, msg)
    case Yielding => InQueueMeansQueued(s.k, s.k.current); s.(k := Yield(s.k))
    case Tick => InQueueMeansQueued(s.k, s.k.current); TimerKeeps(s.k); s.(k := SchedTimer(s.k))
    case Switch => s.(k := Schedule(s.k))
  }

  // ---------- every step keeps the invariant ----------

  /** Two thread records that differ at most in what the scheduler alone uses. */
  ghost predicate SameProtocol(a: Thread, b: Thread) {
    b == a.(prioDyn := b.prioDyn, bound := b.bound, slice := b.slice)
  }

  lemma MailsSame(m: map<Tid, Thread>, m': map<Tid, Thread>, q: seq<Tid>)
    requires forall i :: 0 <= i < |q| ==> q[i] in m && q[i] in m' && m[q[i]].msg == m'[q[i]].msg
    ensures Mails(m, q) == Mails(m', q)
  {
  }

  lemma MailsAppend(m: map<Tid, Thread>, q: seq<Tid>, c: Tid)
    requires c in m && forall i :: 0 <= i < |q| ==> q[i] in m
    ensures Mails(m, q + [c]) == Mails(m, q) + [Mail(c, m[c].msg)]
  {
  }

  lemma MailsFirst(m: map<Tid, Thread>, q: seq<Tid>)
    requires q != [] && forall i :: 0 <= i < |q| ==> q[i] in m
    ensures Mails(m, q) == [Mail(q[0], m[q[0]].msg)] + Mails(m, q[1..])
  {
  }

  /** A step leaves thread `t` in order when it touches neither its record nor anything queued at it. */
  lemma Untouched(s: System, s': System, t: Tid)
    requires t in s.k.threads && t in s.log && ThreadOk(s, t)
    requires s'.k.idle == s.k.idle && s'.servers == s.servers
    requires t in s'.k.threads && SameProtocol(s.k.threads[t], s'.k.threads[t])
    requires InQueue(s'.k, t) <==> InQueue(s.k, t)
    requires t in s'.log && s'.log[t] == s.log[t]
    requires t in s'.dest <==> t in s.dest
    requires t in s.dest ==> s'.dest[t] == s.dest[t]
    requires t in s'.owed <==> t in s.owed
    requires t in s.owed ==> s'.owed[t] == s.owed[t]
    requires forall x :: x in s'.dest && s'.dest[x] == t <==> x in s.dest && s.dest[x] == t
    requires forall x :: x in s.k.threads[t].rcvq ==>
               x in s.k.threads && x in s'.k.threads && s'.k.threads[x].msg == s.k.threads[x].msg
    ensures ThreadOk(s', t)
  {
    hide InQueue;
    MailsSame(s.k.threads, s'.k.threads, s.k.threads[t].rcvq);
  }

  lemma SchedulerStepKeeps(s: System, k': Kernel)
    requires Inv(s) && RunQueueOk(k') && k'.idle == s.k.idle && k'.threads.Keys == s.k.threads.Keys
    requires forall t :: t in k'.threads ==> SameProtocol(s.k.threads[t], k'.threads[t])
    requires forall x :: InQueue(k', x) <==> InQueue(s.k, x)
    requires k'.current == k'.idle || InQueue(k', k'.current)
    ensures Inv(s.(k := k'))
  {
    hide RunQueueOk, InQueue, Delivered, Accounted, Placed;
    var s' := s.(k := k');
    forall t | t in s'.k.threads ensures ThreadOk(s', t) {
      assert ThreadOk(s, t);
      Untouched(s, s', t);
    }
  }

  /** The thread in front is ready and inside no queue but the run queue. */
  lemma CurrentIsPlaced(s: System)
    requires Inv(s) && s.k.current != s.k.idle
    ensures var t := s.k.current;
            && t in s.k.threads && ThreadOk(s, t) && InQueue(s.k, t)
            && t !in s.dest && t !in s.owed && s.k.threads[t].states == THREAD_READY
  {
    CurrentIsReady(s);
  }

  lemma FinishKeeps(s: System)
    requires Inv(s) && Allowed(s, Finish)
    ensures Inv(ApplyFinish(s))
  {
    hide RunQueueOk, InQueue, Delivered, Placed;
    CurrentIsPlaced(s);
    var c, s' := s.k.current, ApplyFinish(s);
    RunQueueBounds(s.k, c);
    SetThreadKeeps(s.k, c, s.k.threads[c].(place := User));
    forall t | t in s'.k.threads ensures ThreadOk(s', t) {
      assert ThreadOk(s, t);
      if t == c { FinishedThread(s); } else { Untouched(s, s', t); }
    }
  }

  lemma FinishedReceipts(a: Log, b: Log)
    requires Receipts(a) && b == a.(returned := b.returned, codes := b.codes)
    ensures Receipts(b)
  {
  }

  lemma FinishedThread(s: System)
    requires Inv(s) && Allowed(s, Finish) && ThreadOk(s, s.k.current)
    requires s.k.current !in s.dest && s.k.current !in s.owed && s.k.threads[s.k.current].states == THREAD_READY
    requires forall x :: InQueue(FinishSend(s.k).k, x) <==> InQueue(s.k, x)
    ensures ThreadOk(ApplyFinish(s), s.k.current)
  {
    hide RunQueueOk, InQueue, CarriesAll, Receipts, IntOf, Signed;
    var c, s' := s.k.current, ApplyFinish(s);
    SignedIsInt(s.k.threads[c].msg.w1);
    MailsSame(s.k.threads, s'.k.threads, s.k.threads[c].rcvq);
    FinishedReceipts(s.log[c], s'.log[c]);
    assert Codes(s'.log[c]);
  }

  // ---------- send ----------

  lemma SenderAfterSend(s: System, s': System, c: Tid, to: Tid)
    requires c in s.k.threads && c in s.log && ThreadOk(s, c) && IsClient(s, c)
    requires c !in s.dest && c !in s.owed && s.k.threads[c].place == User && to in s.servers
    requires s'.k.idle == s.k.idle && s'.servers == s.servers && s'.owed == s.owed && s'.dest == s.dest[c := to]
    requires c in s'.log && s'.log[c] == s.log[c].(begun := s.log[c].begun + 1)
    requires c in s'.k.threads
    requires var thr := s'.k.threads[c];
             thr == s.k.threads[c].(msg := thr.msg, states := SEND_BLOCKED, place := Sending) && thr.msg.tid == c
    requires !InQueue(s'.k, c)
    requires forall x :: x in s.k.threads && x != c ==>
               x in s'.k.threads && s'.k.threads[x].msg == s.k.threads[x].msg
    ensures ThreadOk(s', c)
  {
    hide InQueue;
    MailsSame(s.k.threads, s'.k.threads, s.k.threads[c].rcvq);
  }

  lemma QueueAfterSend(s: System, s': System, c: Tid, to: Tid)
    requires to in s.k.threads && QueueMatches(s, to)
    requires c !in s.dest && s'.dest == s.dest[c := to]
    requires s.k.threads.Keys <= s'.k.threads.Keys && c in s.k.threads
    requires s'.k.threads[to].rcvq == s.k.threads[to].rcvq + [c]
    ensures QueueMatches(s', to)
  {
  }

  lemma MailAfterSend(s: System, s': System, c: Tid, to: Tid, g: Given)
    requires to in s.k.threads && to in s.log && QueueMatches(s, to) && Delivered(s, to)
    requires c !in s.k.threads[to].rcvq && c in s.k.threads && to in s'.log
    requires s.k.threads.Keys <= s'.k.threads.Keys && s'.k.threads[to].rcvq == s.k.threads[to].rcvq + [c]
    requires s'.log[to].taken == s.log[to].taken && s'.log[to].receipts == s.log[to].receipts
    requires s'.log[to].inbox == s.log[to].inbox + [g] && Carries(g, Mail(c, s'.k.threads[c].msg))
    requires forall x :: x in s.k.threads && x != c ==> s'.k.threads[x].msg == s.k.threads[x].msg
    ensures Delivered(s', to)
  {
    hide Mails, Carries;
    var q := s.k.threads[to].rcvq;
    MailsSame(s.k.threads, s'.k.threads, q);
    MailsAppend(s'.k.threads, q, c);
    assert s.log[to].taken + Mails(s'.k.threads, q + [c])
        == (s.log[to].taken + Mails(s.k.threads, q)) + [Mail(c, s'.k.threads[c].msg)];
  }

  lemma ReceiverAfterSend(s: System, s': System, c: Tid, to: Tid, g: Given)
    requires to in s.k.threads && to in s.log && ThreadOk(s, to) && to in s.servers && to != c && to != s.k.idle
    requires c in s.k.threads && c !in s.dest
    requires s'.k.idle == s.k.idle && s'.servers == s.servers && s'.owed == s.owed && s'.dest == s.dest[c := to]
    requires s.k.threads.Keys <= s'.k.threads.Keys && s'.k.threads[to] == AfterDeposit(s.k.threads[to], c)
    requires to in s'.log && Carries(g, Mail(c, s'.k.threads[c].msg))
    requires s'.log[to] == s.log[to].(inbox := s.log[to].inbox + [g])
    requires InQueue(s'.k, to)
    requires forall x :: x in s.k.threads && x != c ==> s'.k.threads[x].msg == s.k.threads[x].msg
    ensures ThreadOk(s', to)
  {
    hide InQueue, Delivered, Carries;
    QueueAfterSend(s, s', c, to);
    MailAfterSend(s, s', c, to, g);
  }

  /** A server is ready and queued, or waiting in receive. */
  lemma ServerSituation(s: System, v: Tid)
    requires Inv(s) && v in s.servers
    ensures v in s.k.threads && v != s.k.idle && v !in s.dest && v !in s.owed
    ensures if InQueue(s.k, v) then s.k.threads[v].states == THREAD_READY
            else s.k.threads[v].states == RECEIVE_BLOCKED && s.k.threads[v].rcvq == []
  {
    hide RunQueueOk, InQueue, Delivered, Accounted, QueueMatches;
    assert ThreadOk(s, v);
  }

  /** `s'` is `s` once client `c` has sent `g` to server `to`, where it will arrive as `msg`. */
  ghost predicate Sent(s: System, s': System, c: Tid, to: Tid, g: Given, msg: Message) {
    && IsClient(s, c) && s.k.threads[c].place == User && c !in s.dest && c !in s.owed
    && to in s.servers && to in s.k.threads && to != s.k.idle && msg.tid == c
    && Carries(g, Mail(c, msg)) && s.log.Keys == s.k.threads.Keys
    && s'.k.idle == s.k.idle && s'.servers == s.servers && s'.owed == s.owed && s'.dest == s.dest[c := to]
    && s'.k.threads == s.k.threads[c := s.k.threads[c].(msg := msg, states := SEND_BLOCKED, place := Sending)]
                                  [to := AfterDeposit(s.k.threads[to], c)]
    && s'.log == s.log[to := s.log[to].(inbox := s.log[to].inbox + [g])]
                      [c := s.log[c].(begun := s.log[c].begun + 1)]
    && (forall x :: InQueue(s'.k, x) <==> x != c && (x == to || InQueue(s.k, x)))
  }

  lemma SendIs(s: System, to: Tid, mesg: Message, mapped: bv32)
    requires Inv(s) && Allowed(s, Send(to, mesg, mapped)) && to in s.k.threads
    ensures Shape(ApplySend(s, to, mesg, mapped))
    ensures Sent(s, ApplySend(s, to, mesg, mapped), s.k.current, to,
                 Given(s.k.current, mesg, mapped), Stamped(mesg, s.k.current, mapped))
  {
    hide RunQueueOk, InQueue, ThreadOk, CallerReady, SendMessage, Stamped, Carries, AfterDeposit;
    var c, s' := s.k.current, ApplySend(s, to, mesg, mapped);
    StampedCarries(mesg, c, mapped);
    StampedFrom(mesg, c, mapped);
    CurrentIsReady(s);
    CurrentIsPlaced(s);
    ServerSituation(s, to);
    SendEffect(s.k, to, mesg, mapped);
    assert s'.k.threads.Keys == s.k.threads.Keys && s'.log.Keys == s.log.Keys;
    assert Sent(s, s', c, to, Given(c, mesg, mapped), Stamped(mesg, c, mapped));
  }

  lemma StampedFrom(mesg: Message, from: Tid, mapped: bv32)
    ensures Stamped(mesg, from, mapped).tid == from
  {
  }

  lemma ThreadAfterSend(s: System, s': System, c: Tid, to: Tid, g: Given, msg: Message, t: Tid)
    requires Sent(s, s', c, to, g, msg) && t in s.k.threads && ThreadOk(s, t)
    ensures ThreadOk(s', t)
  {
    hide InQueue, Delivered, Accounted, Placed;
    if t == c { SenderAfterSend(s, s', c, to); }
    else if t == to { ReceiverAfterSend(s, s', c, to, g); }
    else { Untouched(s, s', t); }
  }

  lemma SendKeeps(s: System, to: Tid, mesg: Message, mapped: bv32)
    requires Inv(s) && Allowed(s, Send(to, mesg, mapped))
    ensures Inv(ApplySend(s, to, mesg, mapped))
  {
    hide ThreadOk, ApplySend, Shape;
    if to in s.k.threads {
      var c, s' := s.k.current, ApplySend(s, to, mesg, mapped);
      SendIs(s, to, mesg, mapped);
      forall t | t in s'.k.threads ensures ThreadOk(s', t) {
        ThreadAfterSend(s, s', c, to, Given(c, mesg, mapped), Stamped(mesg, c, mapped), t);
      }
    } else {
      assert ApplySend(s, to, mesg, mapped) == s by { NothingSent(s, to, mesg, mapped); }
    }
  }

  lemma NothingSent(s: System, to: Tid, mesg: Message, mapped: bv32)
    requires Inv(s) && Allowed(s, Send(to, mesg, mapped)) && to !in s.k.threads
    ensures ApplySend(s, to, mesg, mapped) == s
  {
  }

  // ---------- receive ----------

  lemma WaitKeeps(s: System)
    requires Inv(s) && Allowed(s, Receive) && s.k.threads[s.k.current].rcvq == []
    ensures Inv(ApplyReceive(s))
  {
    hide RunQueueOk, InQueue, Delivered, CallerReady;
    CurrentIsReady(s);
    ServerSituation(s, s.k.current);
    CurrentIsPlaced(s);
    var v, s' := s.k.current, ApplyReceive(s);
    CallerIsQueued(s.k);
    BlockEffect(s.k, RECEIVE_BLOCKED, Receiving);
    forall t | t in s'.k.threads ensures ThreadOk(s', t) {
      assert ThreadOk(s, t);
      if t == v { WaiterAfterWait(s, s', v); } else { Untouched(s, s', t); }
    }
  }

  lemma CallerIsQueued(k: Kernel)
    requires CallerReady(k)
    ensures Queued(k, k.current) && k.threads[k.current].states == THREAD_READY
  {
  }

  lemma WaiterAfterWait(s: System, s': System, v: Tid)
    requires v in s.k.threads && v in s.log && ThreadOk(s, v) && v in s.servers && v != s.k.idle
    requires v !in s.dest && v !in s.owed && s.k.threads[v].rcvq == [] && s.k.threads[v].states == THREAD_READY
    requires s' == s.(k := s'.k) && s'.k.idle == s.k.idle && v in s'.k.threads
    requires s'.k.threads[v] == s.k.threads[v].(states := RECEIVE_BLOCKED, place := Receiving)
    requires !InQueue(s'.k, v)
    ensures ThreadOk(s', v)
  {
    hide InQueue;
  }

  /** The queue and the mail of a server once it has taken its oldest sender. */
  lemma QueueAfterTake(s: System, s': System, v: Tid, snd: Tid)
    requires v in s.k.threads && QueueMatches(s, v) && s.k.threads[v].rcvq != [] && s.k.threads[v].rcvq[0] == snd
    requires s'.dest == s.dest - {snd}
    requires s.k.threads.Keys <= s'.k.threads.Keys && s'.k.threads[v].rcvq == s.k.threads[v].rcvq[1..]
    ensures QueueMatches(s', v)
  {
    var q := s.k.threads[v].rcvq;
    assert forall x :: x in q <==> x == snd || x in q[1..];
    assert snd !in q[1..];
  }

  lemma MailAfterTake(s: System, s': System, v: Tid, snd: Tid)
    requires v in s.k.threads && v in s.log && QueueMatches(s, v) && Delivered(s, v)
    requires s.k.threads[v].rcvq != [] && s.k.threads[v].rcvq[0] == snd
    requires s.k.threads.Keys <= s'.k.threads.Keys && s'.k.threads[v].rcvq == s.k.threads[v].rcvq[1..]
    requires snd in s.k.threads && s.k.threads[snd].msg.tid == snd && v in s'.log
    requires var msg := s.k.threads[snd].msg;
             && s'.log[v].taken == s.log[v].taken + [Mail(msg.tid, msg)] && s'.log[v].inbox == s.log[v].inbox
             && s'.log[v].receipts == s.log[v].receipts + [if msg.flags & 0x20 != 0 then 0 else snd]
    requires forall x :: x in s.k.threads ==> s'.k.threads[x].msg == s.k.threads[x].msg
    ensures Delivered(s', v)
  {
    hide Mails, Carries;
    var q := s.k.threads[v].rcvq;
    MailsSame(s.k.threads, s'.k.threads, q[1..]);
    MailsFirst(s.k.threads, q);
    assert s'.log[v].taken + Mails(s'.k.threads, q[1..]) == s.log[v].taken + Mails(s.k.threads, q);
  }

  lemma ReceiverAfterTake(s: System, s': System, v: Tid, snd: Tid)
    requires v in s.k.threads && v in s.log && ThreadOk(s, v) && v in s.servers && v != snd && v != s.k.idle
    requires v !in s.dest && v !in s.owed && s.k.threads[v].states == THREAD_READY
    requires s.k.threads[v].rcvq != [] && s.k.threads[v].rcvq[0] == snd
    requires snd in s.k.threads && s.k.threads[snd].msg.tid == snd
    requires s'.k.idle == s.k.idle && s'.servers == s.servers && s'.dest == s.dest - {snd}
    requires v in s'.owed <==> v in s.owed
    requires s.k.threads.Keys <= s'.k.threads.Keys
    requires s'.k.threads[v] == s.k.threads[v].(rcvq := s.k.threads[v].rcvq[1..], place := User)
    requires v in s'.log
    requires var msg := s.k.threads[snd].msg;
             s'.log[v] == s.log[v].(taken := s.log[v].taken + [Mail(msg.tid, msg)],
                                    receipts := s.log[v].receipts + [if msg.flags & 0x20 != 0 then 0 else snd])
    requires forall x :: x in s.k.threads ==> s'.k.threads[x].msg == s.k.threads[x].msg
    requires InQueue(s'.k, v)
    ensures ThreadOk(s', v)
  {
    hide InQueue, Delivered;
    QueueAfterTake(s, s', v, snd);
    MailAfterTake(s, s', v, snd);
  }

  /** A sender that was queued at a server. */
  ghost predicate WasWaiting(s: System, snd: Tid) {
    && snd in s.k.threads && snd in s.log && ThreadOk(s, snd) && snd in s.dest && IsClient(s, snd)
    && s.k.threads[snd].rcvq == []
  }

  lemma SenderReleased(s: System, s': System, snd: Tid)
    requires WasWaiting(s, snd)
    requires s'.k.idle == s.k.idle && s'.servers == s.servers && s'.dest == s.dest - {snd} && s'.owed == s.owed
    requires s.k.threads.Keys <= s'.k.threads.Keys
    requires var thr := s.k.threads[snd];
             s'.k.threads[snd] == thr.(states := THREAD_READY, prioDyn := thr.prioStat)
    requires snd in s'.log
    requires s'.log[snd] == s.log[snd].(answers := s.log[snd].answers + [s.k.threads[snd].msg])
    requires forall x :: x in s.k.threads ==> s'.k.threads[x].msg == s.k.threads[x].msg
    requires InQueue(s'.k, snd)
    ensures ThreadOk(s', snd)
  {
    hide InQueue;
  }

  lemma SenderAwaitsReply(s: System, s': System, snd: Tid, v: Tid)
    requires WasWaiting(s, snd) && v in s.servers
    requires s'.k.idle == s.k.idle && s'.servers == s.servers
    requires s'.dest == s.dest - {snd} && s'.owed == s.owed[snd := v]
    requires s.k.threads.Keys <= s'.k.threads.Keys
    requires s'.k.threads[snd] == s.k.threads[snd].(states := REPLY_BLOCKED)
    requires snd in s'.log && s'.log[snd] == s.log[snd]
    requires !InQueue(s'.k, snd)
    ensures ThreadOk(s', snd)
  {
    hide InQueue;
  }

  lemma DestIsServer(s: System, c: Tid)
    requires Inv(s) && c in s.dest
    ensures s.dest[c] in s.servers
  {
    hide RunQueueOk, InQueue, Delivered, Accounted, QueueMatches;
    assert ThreadOk(s, c);
  }

  lemma ClientHasNoQueue(s: System, c: Tid)
    requires Inv(s) && IsClient(s, c)
    ensures s.k.threads[c].rcvq == []
  {
    hide RunQueueOk, InQueue, Delivered, Accounted, Placed;
    assert ThreadOk(s, c);
    var q := s.k.threads[c].rcvq;
    if q != [] {
      assert q[0] in q;
      DestIsServer(s, q[0]);
      assert false;
    }
  }

  lemma OldestSender(s: System, v: Tid) returns (snd: Tid)
    requires Inv(s) && v in s.servers && s.k.threads[v].rcvq != []
    ensures snd == s.k.threads[v].rcvq[0] && WasWaiting(s, snd) && s.dest[snd] == v && snd !in s.owed
    ensures snd != v && !InQueue(s.k, snd) && s.k.threads[snd].msg.tid == snd
  {
    hide RunQueueOk, InQueue, Delivered, Accounted;
    snd := s.k.threads[v].rcvq[0];
    assert ThreadOk(s, v);
    assert snd in s.k.threads[v].rcvq;
    assert ThreadOk(s, snd);
    ClientHasNoQueue(s, snd);
  }

  /** `s'` is `s` once server `v` has taken its oldest sender, releasing it or leaving it to be answered. */
  ghost predicate Took(s: System, s': System, v: Tid, snd: Tid, release: bool) {
    && v in s.servers && v in s.k.threads && v != s.k.idle && v !in s.dest && v !in s.owed
    && s.k.threads[v].states == THREAD_READY && InQueue(s.k, v)
    && s.k.threads[v].rcvq != [] && s.k.threads[v].rcvq[0] == snd
    && WasWaiting(s, snd) && s.dest[snd] == v && snd !in s.owed && snd != v && !InQueue(s.k, snd)
    && s.k.threads[snd].msg.tid == snd && s.log.Keys == s.k.threads.Keys
    && s'.k.idle == s.k.idle && s'.servers == s.servers && s'.dest == s.dest - {snd}
    && s'.owed == (if release then s.owed else s.owed[snd := v])
    && (var thr := s.k.threads[snd];
        var code := if thr.msg.flags & 0x20 != 0 then 0 else snd;
        var log1 := s.log[v := s.log[v].(taken := s.log[v].taken + [Mail(snd, thr.msg)],
                                         receipts := s.log[v].receipts + [code])];
        && s'.k.threads == s.k.threads[v := s.k.threads[v].(rcvq := s.k.threads[v].rcvq[1..], place := User)]
                                      [snd := if release then thr.(states := THREAD_READY, prioDyn := thr.prioStat)
                                              else thr.(states := REPLY_BLOCKED)]
        && s'.log == if release then log1[snd := log1[snd].(answers := log1[snd].answers + [thr.msg])] else log1)
    && (forall x :: InQueue(s'.k, x) <==> (release && x == snd) || InQueue(s.k, x))
  }

  lemma TakeIs(s: System, snd: Tid)
    requires Inv(s) && Allowed(s, Receive) && s.k.threads[s.k.current].rcvq != []
    requires snd == s.k.threads[s.k.current].rcvq[0] && WasWaiting(s, snd) && snd !in s.owed
    requires snd != s.k.current && !InQueue(s.k, snd) && s.k.threads[snd].msg.tid == snd
    requires s.dest[snd] == s.k.current
    ensures Shape(ApplyReceive(s))
    ensures Took(s, ApplyReceive(s), s.k.current, snd, s.k.threads[snd].msg.flags & MSG_NOREPLY != 0)
  {
    hide RunQueueOk, InQueue, ThreadOk, CallerReady, SendersExist, ReceiveMessage;
    CurrentIsReady(s);
    ServerSituation(s, s.k.current);
    CurrentIsPlaced(s);
    TakeEffect(s.k, snd);
  }

  lemma ThreadAfterTake(s: System, s': System, v: Tid, snd: Tid, release: bool, t: Tid)
    requires Took(s, s', v, snd, release) && t in s.k.threads && ThreadOk(s, t)
    ensures ThreadOk(s', t)
  {
    hide InQueue, Delivered, Accounted, Placed;
    if t == v { ReceiverAfterTake(s, s', v, snd); }
    else if t != snd { Untouched(s, s', t); }
    else if release { SenderReleased(s, s', snd); }
    else { SenderAwaitsReply(s, s', snd, v); }
  }

  lemma TakeKeeps(s: System)
    requires Inv(s) && Allowed(s, Receive) && s.k.threads[s.k.current].rcvq != []
    ensures Inv(ApplyReceive(s))
  {
    hide ThreadOk, ApplyReceive, Shape;
    var snd := OldestSender(s, s.k.current);
    var v, s' := s.k.current, ApplyReceive(s);
    TakeIs(s, snd);
    forall t | t in s'.k.threads ensures ThreadOk(s', t) {
      ThreadAfterTake(s, s', v, snd, s.k.threads[snd].msg.flags & MSG_NOREPLY != 0, t);
    }
  }

  // ---------- reply ----------

  lemma ClientAfterReply(s: System, s': System, to: Tid, msg: Message)
    requires to in s.k.threads && to in s.log && ThreadOk(s, to) && to in s.owed && to !in s.dest && IsClient(s, to)
    requires s.k.threads[to].rcvq == []
    requires s'.k.idle == s.k.idle && s'.servers == s.servers && s'.dest == s.dest && s'.owed == s.owed - {to}
    requires s.k.threads.Keys <= s'.k.threads.Keys
    requires var thr := s.k.threads[to];
             s'.k.threads[to] == thr.(msg := msg, states := THREAD_READY, prioDyn := thr.prioStat)
    requires to in s'.log && s'.log[to] == s.log[to].(answers := s.log[to].answers + [msg])
    requires InQueue(s'.k, to)
    ensures ThreadOk(s', to)
  {
    hide InQueue;
  }

  /** A client awaiting a reply: the mask test of line 215 sees it, and it is queued nowhere. */
  lemma OwedClient(s: System, c: Tid)
    requires Inv(s) && c in s.owed
    ensures c in s.k.threads && IsClient(s, c) && c !in s.dest && ThreadOk(s, c)
    ensures s.k.threads[c].states == REPLY_BLOCKED && !InQueue(s.k, c) && s.k.threads[c].rcvq == []
  {
    hide RunQueueOk, InQueue, Delivered, Accounted, QueueMatches;
    assert ThreadOk(s, c);
    ClientHasNoQueue(s, c);
  }

  lemma ReplyKeeps(s: System, to: Tid, msg: Message)
    requires Inv(s) && Allowed(s, Reply(to, msg))
    ensures Inv(ApplyReply(s, to, msg))
  {
    hide RunQueueOk, InQueue, Delivered, Accounted, Placed, CallerReady, ReplyMessage;
    CurrentIsReady(s);
    CurrentIsPlaced(s);
    var s' := ApplyReply(s, to, msg);
    OwedClient(s, to);
    ReplyEffect(s.k, to, msg);
    forall t | t in s'.k.threads ensures ThreadOk(s', t) {
      assert ThreadOk(s, t);
      if t == to { ClientAfterReply(s, s', to, msg); }
      else {
        assert to !in s.k.threads[t].rcvq;
        Untouched(s, s', t);
      }
    }
  }
}
