/** Operating-system helpers shared by every task of the firmware
    (main/utils/src/osUtils.c): 32-bit tick arithmetic, bounded FreeRTOS
    queues, the "is this reply queue still worth sending to" predicate, and
    the synchronous request/response helper built on two queue operations. */
module OsUtils {

  /** Every `uint32_t` and `TickType_t` value; arithmetic on them wraps modulo 2^32. */
  const TICK_MODULUS: int := 0x1_0000_0000
  type uint32 = x: int | 0 <= x < 0x1_0000_0000
  type Tick = uint32

  /** `portMAX_DELAY` for a 32-bit tick type: block forever. */
  const PORT_MAX_DELAY: Tick := 0xFFFF_FFFF

  /** Default wait for room when sending to a queue, and for a reply to a
      synchronous request (main/system_def.h), with one tick per millisecond. */
  const WRITE_IN_QUEUE_DEFAULT_TIMEOUT: Tick := 10
  const TASK_DEFAULT_RESPONSE_TIME_TICKS: Tick := 100

  datatype Option<T> = None | Some(value: T)

  /** `a - b` computed in unsigned 32-bit arithmetic. */
  function TickSub(a: Tick, b: Tick): (d: Tick)
    ensures (b + d) % TICK_MODULUS == a
  {
    (a - b) % TICK_MODULUS
  }

  /** `a + b` computed in unsigned 32-bit arithmetic. */
  function TickAdd(a: Tick, b: Tick): (s: Tick)
    ensures s == a + b || s == a + b - TICK_MODULUS
  {
    (a + b) % TICK_MODULUS
  }

  /** Going `d` ticks forward from `start` and subtracting `start` gives back
      `d`, also when the tick counter wraps in between. */
  lemma TickSubAdd(start: Tick, d: Tick)
    ensures TickSub(TickAdd(start, d), start) == d
  {
    if start + d < TICK_MODULUS {
      assert TickAdd(start, d) == start + d;
    } else {
      assert TickAdd(start, d) == start + d - TICK_MODULUS;
      assert TickAdd(start, d) - start == d - TICK_MODULUS;
    }
  }

  /** A FreeRTOS queue: a bounded FIFO of fixed-size items. */
  class Mailbox<T> {
    const capacity: nat
    var items: seq<T>

    ghost predicate Valid()
      reads this
    {
      |items| <= capacity
    }

    /** `xQueueCreate(capacity, sizeof(T))`. */
    constructor (capacity: nat)
      ensures Valid() && this.capacity == capacity && items == []
    {
      this.capacity := capacity;
      items := [];
    }

    /** `xQueueSend`: append at the back; the item is dropped when the queue is full. */
    method Send(x: T) returns (ok: bool)
      requires Valid()
      modifies this
      ensures Valid()
      ensures ok <==> |old(items)| < capacity
      ensures items == if ok then old(items) + [x] else old(items)
    {
      ok := |items| < capacity;
      if ok {
        items := items + [x];
      }
    }

    /** `xQueueSendToFront`: the item becomes the next one received. */
    method SendToFront(x: T) returns (ok: bool)
      requires Valid()
      modifies this
      ensures Valid()
      ensures ok <==> |old(items)| < capacity
      ensures items == if ok then [x] + old(items) else old(items)
    {
      ok := |items| < capacity;
      if ok {
        items := [x] + items;
      }
    }

    /** `xQueueReset`: discard everything queued. */
    method Reset()
      requires Valid()
      modifies this
      ensures Valid() && items == []
    {
      items := [];
    }

    /** `xQueueReceive` once the wait is over: the oldest item, if any. */
    method Receive() returns (r: Option<T>)
      requires Valid()
      modifies this
      ensures Valid()
      ensures old(items) == [] ==> r == None && items == []
      ensures old(items) != [] ==> r == Some(old(items)[0]) && items == old(items)[1..]
    {
      if items == [] {
        r := None;
      } else {
        r := Some(items[0]);
        items := items[1..];
      }
    }
  }

  /** A variable of type `QueueHandle_t` that other code refers to through a pointer. */
  class QueueHandleVar<T> {
    var handle: Mailbox?<T>

    constructor (h: Mailbox?<T>)
      ensures handle == h
    {
      handle := h;
    }
  }

  /** `queueContext_t`: where to post a reply, when the wait for it started and
      how long the requester waits. */
  datatype QueueContext<T> = QueueContext(pQueueHandle: QueueHandleVar?<T>, creationTime: Tick, expirationTime: Tick)

  /** `bOS_IsQueueReadyForSending`: a reply queue can still be used when it
      exists and its requester has not yet given up waiting. */
  predicate IsQueueReadyForSending<T>(queueToSend: Mailbox?<T>, startTime: Tick, timeoutValue: Tick, now: Tick)
  {
    if timeoutValue == PORT_MAX_DELAY then
      queueToSend != null
    else
      TickSub(now, startTime) < timeoutValue && queueToSend != null
  }

  /** Readiness expressed in real elapsed time: `d` ticks after `start` the
      queue is ready iff it exists and `d` is below the timeout, whether or
      not the tick counter wrapped in those `d` ticks. */
  lemma ReadyIffWithinTimeout<T>(q: Mailbox?<T>, start: Tick, timeout: Tick, d: Tick)
    requires timeout != PORT_MAX_DELAY
    ensures IsQueueReadyForSending(q, start, timeout, TickAdd(start, d)) <==> q != null && d < timeout
  {
    TickSubAdd(start, d);
  }

  /** A null handle is never ready, a zero timeout is never ready, and with
      `portMAX_DELAY` readiness does not depend on the time. */
  lemma ReadinessCases<T>(q: Mailbox?<T>, start: Tick, timeout: Tick, now: Tick)
    ensures q == null ==> !IsQueueReadyForSending(q, start, timeout, now)
    ensures timeout == 0 ==> !IsQueueReadyForSending(q, start, timeout, now)
    ensures timeout == PORT_MAX_DELAY ==> (IsQueueReadyForSending(q, start, timeout, now) <==> q != null)
  {
  }

  /** `vOS_DeleteQueue`: the caller's handle variable is left NULL. */
  method DeleteQueue<T>(pQueueToDelete: QueueHandleVar<T>)
    modifies pQueueToDelete
    ensures pQueueToDelete.handle == null
  {
    pQueueToDelete.handle := null;
  }

  /** `vOS_CreateResponseQueue`: a context for the handle variable `pQueue`,
      opened at tick `now` for `queueTimeout` ticks. */
  function CreateResponseQueue<T>(pQueue: QueueHandleVar<T>, queueTimeout: Tick, now: Tick): (ctx: QueueContext<T>)
  {
    QueueContext(pQueue, now, queueTimeout)
  }

  /** A context just created with `CreateResponseQueue` stays ready for `d`
      ticks iff its queue exists and `d` is within the timeout (for ever with
      `portMAX_DELAY`). */
  lemma ResponseWindow<T>(pQueue: QueueHandleVar<T>, queueTimeout: Tick, now: Tick, d: Tick)
    ensures var ctx := CreateResponseQueue(pQueue, queueTimeout, now);
      ctx.pQueueHandle == pQueue && ctx.creationTime == now && ctx.expirationTime == queueTimeout
    ensures var ctx := CreateResponseQueue(pQueue, queueTimeout, now);
      (IsQueueReadyForSending(pQueue.handle, ctx.creationTime, ctx.expirationTime, TickAdd(now, d))
       <==> pQueue.handle != null && (queueTimeout == PORT_MAX_DELAY || d < queueTimeout))
  {
    if queueTimeout != PORT_MAX_DELAY {
      ReadyIffWithinTimeout(pQueue.handle, now, queueTimeout, d);
    }
  }

  /** What the queue behind a context holds after `vOS_QueueSendSafe`: the
      item is appended iff the context is ready and the queue has room. */
  function SafeSendEffect<T>(ready: bool, capacity: nat, before: seq<T>, item: T): (after: seq<T>)
  {
    if ready && |before| < capacity then before + [item] else before
  }

  /** `vOS_QueueSendSafe`: a zero-timeout send that is only attempted while
      the context is ready. `attempted` tells whether the send was made. */
  method QueueSendSafe<T>(pQueueContext: QueueContext<T>, item: T, now: Tick) returns (attempted: bool)
    requires pQueueContext.pQueueHandle != null
    requires pQueueContext.pQueueHandle.handle != null ==> pQueueContext.pQueueHandle.handle.Valid()
    modifies pQueueContext.pQueueHandle.handle
    ensures var q := pQueueContext.pQueueHandle.handle;
      attempted == IsQueueReadyForSending(q, pQueueContext.creationTime, pQueueContext.expirationTime, now)
    ensures var q := pQueueContext.pQueueHandle.handle;
      q != null ==> q.Valid() && q.items == SafeSendEffect(attempted, q.capacity, old(q.items), item)
  {
    var q := pQueueContext.pQueueHandle.handle;
    attempted := IsQueueReadyForSending(q, pQueueContext.creationTime, pQueueContext.expirationTime, now);
    if attempted {
      var _ := q.Send(item);
    }
  }

  /** `bOS_SendToTaskAndWaitResponse`. A one-slot reply queue is created, the
      request built by `makeEvent` around its context is sent without waiting,
      and the caller then waits up to `timeout` for the reply. What the target
      task posts on the reply queue in time is the input `reply`. The reply
      queue is deleted on every path, so its handle variable ends up NULL. */
  method SendToTaskAndWaitResponse<E, R>(queueToSend: Mailbox?<E>, makeEvent: QueueContext<R> -> E,
                                         timeout: Tick, now: Tick, reply: Option<R>)
    returns (result: bool, response: Option<R>, responseQueue: QueueHandleVar<R>)
    requires queueToSend != null ==> queueToSend.Valid()
    modifies queueToSend
    ensures fresh(responseQueue) && responseQueue.handle == null
    ensures result <==> queueToSend != null && |old(queueToSend.items)| < queueToSend.capacity && reply.Some?
    ensures response == if result then reply else None
    ensures queueToSend != null ==> queueToSend.Valid()
    ensures queueToSend != null ==>
              queueToSend.items == SafeSendEffect(true, queueToSend.capacity, old(queueToSend.items),
                                                  makeEvent(QueueContext(responseQueue, now, timeout)))
  {
    var replyMailbox := new Mailbox<R>(1);
    responseQueue := new QueueHandleVar(replyMailbox);
    var context := CreateResponseQueue(responseQueue, timeout, now);
    result, response := false, None;
    if queueToSend != null {
      var sent := queueToSend.Send(makeEvent(context));
      if sent && reply.Some? {
        result, response := true, reply;
      }
    }
    DeleteQueue(responseQueue);
  }

  /** A reply posted once the requester's wait is over is not sent: from
      `timeout` ticks after the context was opened on, the readiness test
      fails whatever the handle, as long as fewer than 2^32 ticks have
      passed. */
  lemma LateReplyDropped<R>(q: Mailbox?<R>, start: Tick, timeout: Tick, d: Tick)
    requires timeout != PORT_MAX_DELAY && timeout <= d
    ensures !IsQueueReadyForSending(q, start, timeout, TickAdd(start, d))
  {
    ReadyIffWithinTimeout(q, start, timeout, d);
  }
}
