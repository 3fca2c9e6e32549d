/**
 * The chat dispatch queue: a FIFO of chat messages, a busy flag and at most
 * one registered consumer.  A message is handed to the consumer only when the
 * queue is idle; handing it over makes the queue busy, and a 15-second timer
 * later makes it idle again and hands over the next message, if any.
 *
 * The consumer is an opaque callback, named here by a `ConsumerId`; calling it
 * is recorded in the ghost log of what left the queue.  The timer is an
 * explicit event, `CooldownElapsed`, that can occur only while a timer is
 * armed (the ghost count `armed`).
 */
module ChatQueue {
  import opened Wrappers

  /** Stands for the callback function a caller registers. */
  type ConsumerId = nat

  /** Cooldown between two deliveries, in milliseconds. */
  const CooldownMs: nat := 15000

  datatype ChatMessage = ChatMessage(username: string, message: string, timestamp: int)

  /** How a message left the queue: handed to a consumer, or thrown away by `clear`. */
  datatype Exit = Delivered(consumer: ConsumerId, msg: ChatMessage) | Discarded(msg: ChatMessage)

  /** The messages that left the queue, in the order they left it. */
  function Messages(log: seq<Exit>): (r: seq<ChatMessage>)
    ensures |r| == |log|
    ensures forall k :: 0 <= k < |log| ==> r[k] == log[k].msg
  {
    if |log| == 0 then [] else [log[0].msg] + Messages(log[1..])
  }

  /** The messages handed to a consumer, in the order they were handed over. */
  function DeliveredMessages(log: seq<Exit>): (r: seq<ChatMessage>)
    ensures |r| <= |log|
  {
    if |log| == 0 then []
    else (if log[0].Delivered? then [log[0].msg] else []) + DeliveredMessages(log[1..])
  }

  lemma {:induction false} MessagesAppend(a: seq<Exit>, b: seq<Exit>)
    ensures Messages(a + b) == Messages(a) + Messages(b)
    decreases |a|
  {
    if |a| == 0 {
      assert a + b == b;
    } else {
      var ab := a + b;
      assert ab[0] == a[0];
      assert ab[1..] == a[1..] + b;
      MessagesAppend(a[1..], b);
      calc {
        Messages(ab);
        [a[0].msg] + Messages(a[1..] + b);
        [a[0].msg] + (Messages(a[1..]) + Messages(b));
        ([a[0].msg] + Messages(a[1..])) + Messages(b);
      }
    }
  }

  lemma {:induction false} DeliveredAppend(a: seq<Exit>, b: seq<Exit>)
    ensures DeliveredMessages(a + b) == DeliveredMessages(a) + DeliveredMessages(b)
    decreases |a|
  {
    if |a| == 0 {
      assert a + b == b;
    } else {
      var ab := a + b;
      var head := if a[0].Delivered? then [a[0].msg] else [];
      assert ab[0] == a[0];
      assert ab[1..] == a[1..] + b;
      DeliveredAppend(a[1..], b);
      calc {
        DeliveredMessages(ab);
        head + DeliveredMessages(a[1..] + b);
        head + (DeliveredMessages(a[1..]) + DeliveredMessages(b));
        (head + DeliveredMessages(a[1..])) + DeliveredMessages(b);
      }
    }
  }

  /** `Messages` and `DeliveredMessages` are taken piece by piece. */
  lemma LogAppend(a: seq<Exit>, b: seq<Exit>)
    ensures Messages(a + b) == Messages(a) + Messages(b)
    ensures DeliveredMessages(a + b) == DeliveredMessages(a) + DeliveredMessages(b)
  {
    MessagesAppend(a, b);
    DeliveredAppend(a, b);
  }

  /** While nothing has been discarded, what was delivered is exactly what
      left the queue. */
  lemma {:induction false} NothingDiscarded(log: seq<Exit>)
    requires forall k :: 0 <= k < |log| ==> log[k].Delivered?
    ensures DeliveredMessages(log) == Messages(log)
  {
    if |log| > 0 {
      NothingDiscarded(log[1..]);
    }
  }

  /** The log entries that `clear` writes for the backlog it throws away. */
  function DiscardAll(q: seq<ChatMessage>): (r: seq<Exit>)
    ensures Messages(r) == q
    ensures DeliveredMessages(r) == []
  {
    if |q| == 0 then [] else [Discarded(q[0])] + DiscardAll(q[1..])
  }

  /** FIFO as the consumer sees it: while `clear` has discarded nothing, the
      messages delivered so far followed by those still queued are exactly the
      messages added, in order. */
  lemma FifoWithoutClear(log: seq<Exit>, queue: seq<ChatMessage>, enqueued: seq<ChatMessage>)
    requires Messages(log) + queue == enqueued
    requires forall k :: 0 <= k < |log| ==> log[k].Delivered?
    ensures DeliveredMessages(log) + queue == enqueued
  {
    NothingDiscarded(log);
  }

  /** The log entries of handing each of `q`, in order, to `consumer`. */
  function DeliveriesTo(consumer: ConsumerId, q: seq<ChatMessage>): (r: seq<Exit>)
    ensures |r| == |q|
    ensures forall k :: 0 <= k < |q| ==> r[k] == Delivered(consumer, q[k])
  {
    seq(|q|, k requires 0 <= k < |q| => Delivered(consumer, q[k]))
  }

  lemma {:induction false} DeliveriesToDelivered(consumer: ConsumerId, q: seq<ChatMessage>)
    ensures DeliveredMessages(DeliveriesTo(consumer, q)) == q
    decreases |q|
  {
    if |q| > 0 {
      DeliveriesToDelivered(consumer, q[1..]);
      assert DeliveriesTo(consumer, q)[1..] == DeliveriesTo(consumer, q[1..]);
    }
  }

  /** The whole state of a queue, ghost part included, as one value. */
  datatype Snapshot = Snapshot(queue: seq<ChatMessage>, isProcessing: bool, processCallback: Option<ConsumerId>,
                               enqueued: seq<ChatMessage>, log: seq<Exit>, armed: nat)

  /** `addMessage` on a queue state: `m` is appended, and recorded as added. */
  ghost function AfterAdd(s: Snapshot, m: ChatMessage): Snapshot {
    s.(queue := s.queue + [m], enqueued := s.enqueued + [m])
  }

  /** `forceProcessIfIdle` on a queue state: the head is delivered to the
      consumer, the queue becomes busy and a timer is armed, when the queue is
      idle, non-empty and has a consumer; otherwise nothing changes. */
  ghost function AfterForce(s: Snapshot): Snapshot {
    if !s.isProcessing && |s.queue| > 0 && s.processCallback.Some? then
      s.(queue := s.queue[1..], isProcessing := true,
         log := s.log + [Delivered(s.processCallback.value, s.queue[0])], armed := s.armed + 1)
    else s
  }

  /** `r` is what adding the messages `cs` one by one to `s`, each followed by
      `forceProcessIfIdle`, leaves: all of `cs` is appended in order; when
      there is at least one, the queue was idle and a consumer is registered,
      the head of the extended queue is delivered and the queue becomes busy;
      nothing is discarded and nothing else changes.  At most one message is
      delivered, since the first delivery makes the queue busy. */
  ghost predicate Absorbed(s: Snapshot, cs: seq<ChatMessage>, r: Snapshot) {
    var d := cs != [] && !s.isProcessing && s.processCallback.Some?;
    var q := s.queue + cs;
    r.queue == (if d then q[1..] else q) &&
    r.isProcessing == (s.isProcessing || d) &&
    r.log == (if d then s.log + [Delivered(s.processCallback.value, q[0])] else s.log) &&
    r.armed == (if d then s.armed + 1 else s.armed) &&
    r.enqueued == s.enqueued + cs &&
    r.processCallback == s.processCallback
  }

  lemma AbsorbedNone(s: Snapshot)
    ensures Absorbed(s, [], s)
  {
    assert s.queue + [] == s.queue;
    assert s.enqueued + [] == s.enqueued;
  }

  /** One more message, added and then offered for dispatch, extends what
      was absorbed by that message. */
  lemma AbsorbOne(s: Snapshot, cs: seq<ChatMessage>, r: Snapshot, m: ChatMessage)
    requires Absorbed(s, cs, r)
    ensures Absorbed(s, cs + [m], AfterForce(AfterAdd(r, m)))
  {
    var q := s.queue + cs;
    assert s.queue + (cs + [m]) == q + [m];
    assert s.enqueued + (cs + [m]) == (s.enqueued + cs) + [m];
    if cs != [] && !s.isProcessing && s.processCallback.Some? {
      assert r.queue + [m] == (q + [m])[1..];
      assert (q + [m])[0] == q[0];
    } else if !s.isProcessing && s.processCallback.Some? {
      assert cs == [] && r.queue == s.queue;
      assert (q + [m])[0] == (r.queue + [m])[0];
    }
  }

  lemma DeliveriesToStep(consumer: ConsumerId, q: seq<ChatMessage>, k: nat)
    requires k < |q|
    ensures DeliveriesTo(consumer, q[..k + 1]) == DeliveriesTo(consumer, q[..k]) + [Delivered(consumer, q[k])]
  {
  }

  class TwitchChatQueue {
    /** The pending messages, oldest first. */
    var queue: seq<ChatMessage>
    /** True from a delivery until the cooldown after it elapses. */
    var isProcessing: bool
    var processCallback: Option<ConsumerId>

    /** Every message ever added, in order. */
    ghost var enqueued: seq<ChatMessage>
    /** Every message that left the queue, in order, and how it left. */
    ghost var log: seq<Exit>
    /** Number of cooldown timers set and not yet elapsed. */
    ghost var armed: nat

    /** FIFO: what left the queue followed by what is still in it is exactly
        what was added.  A busy queue has a timer that will free it. */
    ghost predicate Valid()
      reads this
    {
      Messages(log) + queue == enqueued &&
      (isProcessing ==> armed > 0)
    }

    /** Every armed timer belongs to the one delivery in flight: at most one
        message is being processed, and only while the queue is busy.  All
        operations keep this except `Clear`, which does not cancel a timer. */
    ghost predicate Synced()
      reads this
    {
      armed == (if isProcessing then 1 else 0)
    }

    ghost function State(): Snapshot
      reads this
    {
      Snapshot(queue, isProcessing, processCallback, enqueued, log, armed)
    }

    /** `processNext` would hand a message over: idle, non-empty, and a
        consumer is registered. */
    predicate CanDispatch()
      reads this
    {
      !isProcessing && |queue| > 0 && processCallback.Some?
    }

    constructor ()
      ensures Valid() && Synced()
      ensures queue == [] && !isProcessing && processCallback == None
      ensures enqueued == [] && log == []
    {
      queue := [];
      isProcessing := false;
      processCallback := None;
      enqueued := [];
      log := [];
      armed := 0;
    }

    /** Appends one message, stamped with `timestamp`, to the tail. */
    method AddMessage(username: string, message: string, timestamp: int)
      requires Valid()
      modifies this
      ensures Valid()
      ensures queue == old(queue) + [ChatMessage(username, message, timestamp)]
      ensures enqueued == old(enqueued) + [ChatMessage(username, message, timestamp)]
      ensures isProcessing == old(isProcessing) && processCallback == old(processCallback)
      ensures log == old(log) && armed == old(armed)
      ensures State() == AfterAdd(old(State()), ChatMessage(username, message, timestamp))
    {
      var chatMessage := ChatMessage(username, message, timestamp);
      queue := queue + [chatMessage];
      enqueued := enqueued + [chatMessage];
    }

    /** Registers the consumer; a later registration replaces an earlier one. */
    method SetProcessCallback(callback: ConsumerId)
      modifies this`processCallback
      ensures processCallback == Some(callback)
    {
      processCallback := Some(callback);
    }

    /** Hands the head of the queue to the consumer and becomes busy, if it
        can; otherwise does nothing at all. */
    method ProcessNext()
      requires Valid()
      modifies this
      ensures Valid()
      ensures old(Synced()) ==> Synced()
      ensures !old(CanDispatch()) ==>
        queue == old(queue) && isProcessing == old(isProcessing) &&
        log == old(log) && armed == old(armed)
      ensures old(CanDispatch()) ==>
        queue == old(queue)[1..] && isProcessing &&
        log == old(log) + [Delivered(old(processCallback).value, old(queue)[0])] &&
        armed == old(armed) + 1
      ensures processCallback == old(processCallback) && enqueued == old(enqueued)
    {
      if isProcessing || |queue| == 0 || processCallback.None? {
        return;
      }
      isProcessing := true;
      // `shift` on a non-empty queue always yields a message, so the branch
      // that clears the busy flag again when it does not is never taken.
      var message := queue[0];
      queue := queue[1..];
      LogAppend(log, [Delivered(processCallback.value, message)]);
      log := log + [Delivered(processCallback.value, message)];
      // the consumer is called, and the cooldown timer is set
      armed := armed + 1;
    }

    /** The cooldown timer fires: the queue becomes idle and, if messages are
        waiting, hands the next one over. */
    method CooldownElapsed()
      requires Valid() && armed > 0
      modifies this
      ensures Valid()
      ensures old(Synced()) ==> Synced()
      ensures var dispatch := |old(queue)| > 0 && processCallback.Some?;
        isProcessing == dispatch &&
        queue == (if dispatch then old(queue)[1..] else old(queue)) &&
        log == (if dispatch then old(log) + [Delivered(processCallback.value, old(queue)[0])] else old(log)) &&
        armed == (if dispatch then old(armed) else old(armed) - 1)
      ensures processCallback == old(processCallback) && enqueued == old(enqueued)
    {
      isProcessing := false;
      armed := armed - 1;
      if HasMessages() {
        ProcessNext();
      }
    }

    /** Empties the queue and makes it idle.  An armed timer stays armed. */
    method Clear()
      requires Valid()
      modifies this
      ensures Valid()
      ensures queue == [] && !isProcessing
      ensures log == old(log) + DiscardAll(old(queue))
      ensures processCallback == old(processCallback) && enqueued == old(enqueued)
      ensures armed == old(armed)
      ensures Synced() <==> old(armed) == 0
    {
      LogAppend(log, DiscardAll(queue));
      log := log + DiscardAll(queue);
      queue := [];
      isProcessing := false;
    }

    function HasMessages(): (r: bool)
      reads this
      ensures r <==> GetQueueLength() > 0
    {
      |queue| > 0
    }

    function GetQueueLength(): (n: nat)
      reads this
      ensures n == 0 <==> queue == []
    {
      |queue|
    }

    /** `processNext`, guarded by the same three conditions. */
    method ForceProcessIfIdle()
      requires Valid()
      modifies this
      ensures Valid()
      ensures old(Synced()) ==> Synced()
      ensures !old(CanDispatch()) ==>
        queue == old(queue) && isProcessing == old(isProcessing) &&
        log == old(log) && armed == old(armed)
      ensures old(CanDispatch()) ==>
        queue == old(queue)[1..] && isProcessing &&
        log == old(log) + [Delivered(old(processCallback).value, old(queue)[0])] &&
        armed == old(armed) + 1
      ensures processCallback == old(processCallback) && enqueued == old(enqueued)
      ensures State() == AfterForce(old(State()))
    {
      if HasMessages() && processCallback.Some? && !isProcessing {
        ProcessNext();
      }
    }

    /** The states from which `processAll`, as written, never leaves its loop:
        two or more messages queued, or one that `processNext` will not take. */
    predicate WouldHang()
      reads this
    {
      |queue| >= 2 || (|queue| == 1 && !CanDispatch())
    }

    /** `processAll` exactly as written -- `while` the queue is non-empty, call
        `processNext` -- cut off after `fuel` rounds, since from some states
        the loop never ends: after one delivery the queue is busy, and the
        timer that would clear the flag cannot fire while the loop runs, so
        every later `processNext` returns at once.  `finished` says whether
        the loop condition became false within `fuel` rounds. */
    method ProcessAllBounded(fuel: nat) returns (finished: bool)
      requires Valid()
      modifies this
      ensures Valid()
      ensures old(Synced()) ==> Synced()
      ensures finished <==> queue == []
      ensures old(WouldHang()) ==> !finished
      ensures !old(WouldHang()) && fuel > 0 ==> finished
      ensures !old(CanDispatch()) ==>
        queue == old(queue) && isProcessing == old(isProcessing) &&
        log == old(log) && armed == old(armed)
      ensures fuel == 0 ==> queue == old(queue) && log == old(log)
      ensures old(CanDispatch()) && fuel > 0 ==>
        queue == old(queue)[1..] && isProcessing &&
        log == old(log) + [Delivered(old(processCallback).value, old(queue)[0])]
      ensures processCallback == old(processCallback) && enqueued == old(enqueued)
    {
      var rounds := 0;
      while |queue| > 0 && rounds < fuel
        invariant Valid()
        invariant old(Synced()) ==> Synced()
        invariant old(WouldHang()) ==> WouldHang()
        invariant !old(WouldHang()) ==> !WouldHang() && (rounds > 0 ==> queue == [])
        invariant !old(CanDispatch()) ==>
          queue == old(queue) && log == old(log) && isProcessing == old(isProcessing) && armed == old(armed)
        invariant rounds <= fuel
        invariant rounds == 0 ==> queue == old(queue) && log == old(log)
        invariant old(CanDispatch()) && rounds == 0 ==>
          queue == old(queue) && log == old(log) && !isProcessing
        invariant old(CanDispatch()) && rounds > 0 ==>
          queue == old(queue)[1..] && isProcessing &&
          log == old(log) + [Delivered(old(processCallback).value, old(queue)[0])]
        invariant processCallback == old(processCallback) && enqueued == old(enqueued)
        decreases fuel - rounds
      {
        ProcessNext();
        rounds := rounds + 1;
      }
      finished := |queue| == 0;
    }

    /** `processAll` with the loop stopping as soon as `processNext` would do
        nothing, so that it always terminates.  It hands over at most one
        message -- the cooldown forbids more -- and leaves the backlog to the
        timer chain, which delivers all of it (`DrainByCooldowns`). */
    method ProcessAll()
      requires Valid()
      modifies this
      ensures Valid()
      ensures old(Synced()) ==> Synced()
      ensures !old(CanDispatch()) ==>
        queue == old(queue) && isProcessing == old(isProcessing) &&
        log == old(log) && armed == old(armed)
      ensures old(CanDispatch()) ==>
        queue == old(queue)[1..] && isProcessing &&
        log == old(log) + [Delivered(old(processCallback).value, old(queue)[0])] &&
        armed == old(armed) + 1
      ensures processCallback == old(processCallback) && enqueued == old(enqueued)
    {
      while CanDispatch()
        invariant Valid()
        invariant old(Synced()) ==> Synced()
        invariant !old(CanDispatch()) ==>
          queue == old(queue) && isProcessing == old(isProcessing) &&
          log == old(log) && armed == old(armed)
        invariant old(CanDispatch()) && CanDispatch() ==>
          queue == old(queue) && log == old(log) && armed == old(armed)
        invariant old(CanDispatch()) && !CanDispatch() ==>
          queue == old(queue)[1..] && isProcessing &&
          log == old(log) + [Delivered(old(processCallback).value, old(queue)[0])] &&
          armed == old(armed) + 1
        invariant processCallback == old(processCallback) && enqueued == old(enqueued)
        decreases |queue|
      {
        ProcessNext();
      }
    }

    /** The timer chain drains the backlog: starting from a state in which
        every armed timer belongs to the delivery in flight and a consumer is
        registered, running `processNext` once if idle and then letting each
        cooldown elapse hands every queued message to that consumer, one per
        cooldown, in order. */
    method DrainByCooldowns()
      requires Valid() && Synced() && processCallback.Some?
      modifies this
      ensures Valid() && Synced()
      ensures queue == []
      ensures log == old(log) + DeliveriesTo(old(processCallback).value, old(queue))
      ensures processCallback == old(processCallback) && enqueued == old(enqueued)
    {
      ghost var q0 := queue;
      ghost var k := 0;
      while |queue| > 0
        invariant Valid() && Synced()
        invariant processCallback == old(processCallback) && enqueued == old(enqueued)
        invariant 0 <= k <= |q0| && queue == q0[k..]
        invariant log == old(log) + DeliveriesTo(processCallback.value, q0[..k])
        decreases |queue|
      {
        if isProcessing {
          CooldownElapsed();
        } else {
          ProcessNext();
        }
        DeliveriesToStep(processCallback.value, q0, k);
        k := k + 1;
      }
      assert q0[..k] == q0;
    }
  }

  /** `processAll` with two messages queued and a consumer registered: after
      any number of rounds the loop is still running, with the second message
      stuck behind the busy flag. */
  method ProcessAllHangsOnTwoMessages(fuel: nat) returns (finished: bool, left: nat)
    requires fuel > 0
    ensures !finished && left == 1
  {
    var q := new TwitchChatQueue();
    q.SetProcessCallback(0);
    q.AddMessage("alice", "hi", 0);
    q.AddMessage("bob", "yo", 0);
    finished := q.ProcessAllBounded(fuel);
    left := q.GetQueueLength();
  }
}
