/**
 Synchronous message passing: microkernel/kernel/message.c.  Each function is what one system call
 does up to the point where it returns or where the calling thread is switched away; the two places
 where a switched-away thread goes on (after line 153, and `goto again` at line 168) are calls of
 `FinishSend` and again of `ReceiveMessage`.
 */
module Ipc {
  import opened Types
  import opened Scheduler

  const ESRCH := 0x49
  const ENOMEM := 0x31

  const MSG_SHORT: bv16 := 0x01
  const MSG_MAP_SEND: bv16 := 0x04
  const MSG_MAP_RECEIVE: bv16 := 0x08
  const MSG_NOREPLY: bv16 := 0x20

  /** What the caller sees: a returned value (and message), or nothing yet because it was switched away. */
  datatype Outcome = Returned(code: int, msg: Option<Message>) | SwitchedAway

  datatype Result = Result(k: Kernel, out: Outcome)

  /** transfer_msg when it succeeds: `mapped` is the address vm_share_addr chose in the receiver. */
  function Transferred(msg: Message, mapped: bv32): Message {
    if msg.flags & MSG_SHORT != 0 then msg
    else if msg.flags & MSG_MAP_RECEIVE != 0 then msg.(w4 := mapped)
    else if msg.flags & MSG_MAP_SEND != 0 then msg.(w2 := mapped)
    else msg
  }

  /** transfer_msg calls vm_share_addr for a message that maps a buffer and for no other. */
  predicate MapsBuffer(msg: Message) {
    msg.flags & MSG_SHORT == 0 && (msg.flags & MSG_MAP_RECEIVE != 0 || msg.flags & MSG_MAP_SEND != 0)
  }

  /** The message as the receiver will see it. */
  function Stamped(mesg: Message, sender: Tid, mapped: bv32): Message {
    Transferred(mesg.(tid := sender), mapped)
  }

  /** The caller is running: it is ready, queued, and every thread can be indexed once woken. */
  predicate CallerReady(k: Kernel) {
    && Queued(k, k.current) && k.threads[k.current].states == THREAD_READY
    && forall t :: t in k.threads ==> Wakeable(k, t)
  }

  /** make_send_blocked, make_receive_blocked, make_reply_blocked: set the state, leave the queue, switch. */
  function BlockCurrent(k: Kernel, states: bv16, place: Place): Kernel
    requires Queued(k, k.current)
  {
    var t := k.current;
    Schedule(RemoveThread(SetThread(k, t, k.threads[t].(states := states, place := place)), t))
  }

  /** Lines 135-143: record the message, queue the sender at the receiver, transfer the buffer. */
  function Deposit(k: Kernel, to: Tid, msg: Message): Kernel
    requires k.current in k.threads && to in k.threads
  {
    var k1 := SetThread(k, k.current, k.threads[k.current].(msg := msg));
    SetThread(k1, to, k1.threads[to].(rcvq := k1.threads[to].rcvq + [k.current]))
  }

  /** Line 150: wake the receiver if the mask test says it is waiting. */
  function WakeReceiver(k: Kernel, to: Tid): Kernel
    requires Wakeable(k, to)
  {
    if k.threads[to].states & RECEIVE_BLOCKED != 0 then Wakeup(k, to) else k
  }

  lemma WakeReceiverLeavesCaller(k: Kernel, to: Tid)
    requires CallerReady(k) && to in k.threads
    ensures Queued(WakeReceiver(k, to), k.current) && WakeReceiver(k, to).current == k.current
  {
  }

  /** send_message; `shared` tells whether vm_share_addr, if it is called, succeeds. */
  function SendMessage(k: Kernel, to: Tid, mesg: Message, mapped: bv32, shared: bool): Result
    requires CallerReady(k)
  {
    if to !in k.threads then Result(k, Returned(-ESRCH, None))
    else
      var k1 := Deposit(k, to, Stamped(mesg, k.current, mapped));
      if MapsBuffer(mesg) && !shared then Result(k1, Returned(-ENOMEM, None))
      else
        WakeReceiverLeavesCaller(k1, to);
        Result(BlockCurrent(WakeReceiver(k1, to), SEND_BLOCKED, Sending), SwitchedAway)
  }

  /** A 32-bit word returned as an int. */
  function Signed(w: bv32): int {
    if w < 0x8000_0000 then w as int else w as int - 0x1_0000_0000
  }

  /** Lines 155-156, when the sender runs again. */
  function FinishSend(k: Kernel): Result
    requires k.current in k.threads
  {
    var t := k.current;
    var msg := k.threads[t].msg;
    Result(SetThread(k, t, k.threads[t].(place := User)), Returned(Signed(msg.w1), Some(msg)))
  }

  /** Every queued sender is a thread. */
  predicate SendersExist(k: Kernel) {
    k.current in k.threads && forall t :: t in k.threads[k.current].rcvq ==> t in k.threads
  }

  /** Lines 173-203: take the sender queued longest. */
  function TakeSender(k: Kernel): Result
    requires CallerReady(k) && SendersExist(k) && k.threads[k.current].rcvq != []
  {
    var t := k.current;
    var q := k.threads[t].rcvq;
    var snd := q[0];
    var k1 := SetThread(k, t, k.threads[t].(rcvq := q[1..], place := User));
    var msg := k1.threads[snd].msg;
    if msg.flags & MSG_NOREPLY != 0 then
      Result(Wakeup(k1, snd), Returned(0, Some(msg)))
    else
      Result(SetThread(k1, snd, k1.threads[snd].(states := REPLY_BLOCKED)), Returned(snd, Some(msg)))
  }

  /** receive_message, from its start or from `again`. */
  function ReceiveMessage(k: Kernel): Result
    requires CallerReady(k) && SendersExist(k)
  {
    if k.threads[k.current].rcvq == [] then
      Result(BlockCurrent(k, RECEIVE_BLOCKED, Receiving), SwitchedAway)
    else TakeSender(k)
  }

  /** reply_message; unmap_message stores the message a second time or does nothing. */
  function ReplyMessage(k: Kernel, to: Tid, msg: Message): Result
    requires CallerReady(k)
  {
    if to !in k.threads || k.threads[to].states & REPLY_BLOCKED == 0 then
      Result(k, Returned(-ESRCH, None))
    else
      Result(Wakeup(SetThread(k, to, k.threads[to].(msg := msg)), to), Returned(0, None))
  }
}
