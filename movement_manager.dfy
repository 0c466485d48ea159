/** The movement executor (main/applications/src/movementManager.c): a task
    that takes movements from a five-slot queue, turns each into a pair of
    servo orders, and arms a one-shot timer that stops the robot one second
    after every movement other than Stop. */
module MovementManager {
  import opened OsUtils

  /** `movementType_e` (main/applications/inc/movementManager.h). */
  datatype Movement = Stop | Forward | Backward | RotateLeft | RotateRight

  /** Wheel speeds, in percent. */
  const SPEED_FORWARD: nat := 50
  const SPEED_BACKWARD: nat := 50
  const SPEED_ROTATION: nat := 30
  const SPEED_STOP: nat := 0

  /** How long a movement lasts before the timer stops it, one tick per millisecond. */
  const FORWARD_DELAY_TICKS: Tick := 1000
  const BACKWARD_DELAY_TICKS: Tick := 1000
  const ROTATION_DELAY_TICKS: Tick := 1000

  const MOVEMENT_QUEUE_SIZE: nat := 5

  /** The servo pins (main/mapping.h). */
  const SERVO_LEFT_GPIO_NUM: uint32 := 12
  const SERVO_RIGHT_GPIO_NUM: uint32 := 13

  /** One wheel's order: a speed and a direction (`true` is forward). */
  datatype WheelOrder = WheelOrder(speed: nat, forward: bool)
  datatype WheelPair = WheelPair(left: WheelOrder, right: WheelOrder)

  /** A `bSERVO_SetOrder(gpio, speed, direction)` call. */
  datatype ServoOrder = ServoOrder(gpio: uint32, speed: nat, forward: bool)

  /** The switch of `vMVT_Process`: the orders given to the two wheels. */
  function Orders(m: Movement): WheelPair
  {
    match m
    case Stop => WheelPair(WheelOrder(SPEED_STOP, true), WheelOrder(SPEED_STOP, true))
    case Forward => WheelPair(WheelOrder(SPEED_FORWARD, true), WheelOrder(SPEED_FORWARD, true))
    case Backward => WheelPair(WheelOrder(SPEED_BACKWARD, false), WheelOrder(SPEED_BACKWARD, false))
    case RotateLeft => WheelPair(WheelOrder(SPEED_ROTATION, false), WheelOrder(SPEED_ROTATION, true))
    case RotateRight => WheelPair(WheelOrder(SPEED_ROTATION, true), WheelOrder(SPEED_ROTATION, false))
  }

  /** Both wheels always turn at the same speed, and only Stop has speed 0. */
  lemma EqualWheelSpeeds(m: Movement)
    ensures Orders(m).left.speed == Orders(m).right.speed
    ensures Orders(m).left.speed == 0 <==> m == Stop
  {
  }

  /** The wheels counter-rotate exactly for the two rotations; for the other
      movements they turn the same way, forward except for Backward. */
  lemma WheelDirections(m: Movement)
    ensures Orders(m).left.forward != Orders(m).right.forward <==> m == RotateLeft || m == RotateRight
    ensures m == RotateLeft ==> !Orders(m).left.forward && Orders(m).right.forward
    ensures m == RotateRight ==> Orders(m).left.forward && !Orders(m).right.forward
    ensures m != RotateLeft && m != RotateRight ==> (Orders(m).left.forward <==> m != Backward)
  {
  }

  /** Straight movements run at 50 percent and rotations at 30. */
  lemma WheelSpeeds(m: Movement)
    ensures m == Forward || m == Backward ==> Orders(m).left.speed == 50
    ensures m == RotateLeft || m == RotateRight ==> Orders(m).left.speed == 30
  {
  }

  /** The two servo calls a movement issues, left wheel first: both wheels
      at the same speed, zero only for Stop, 50 percent straight and 30 in a
      rotation; the wheels turn opposite ways exactly in a rotation, and the
      left one turns backward only for Backward and RotateLeft. */
  function ServoCalls(m: Movement): (calls: seq<ServoOrder>)
    ensures |calls| == 2
    ensures calls[0].gpio == SERVO_LEFT_GPIO_NUM && calls[1].gpio == SERVO_RIGHT_GPIO_NUM
    ensures calls[0].speed == calls[1].speed
    ensures calls[0].speed == 0 <==> m == Stop
    ensures m == Forward || m == Backward ==> calls[0].speed == 50
    ensures m == RotateLeft || m == RotateRight ==> calls[0].speed == 30
    ensures calls[0].forward != calls[1].forward <==> m == RotateLeft || m == RotateRight
    ensures !calls[0].forward <==> m == Backward || m == RotateLeft
  {
    var o := Orders(m);
    [ServoOrder(SERVO_LEFT_GPIO_NUM, o.left.speed, o.left.forward),
     ServoOrder(SERVO_RIGHT_GPIO_NUM, o.right.speed, o.right.forward)]
  }

  /** The timer period a movement other than Stop sets. */
  function MovementDelay(m: Movement): (d: Tick)
    requires m != Stop
    ensures d == 1000
  {
    match m
    case Forward => FORWARD_DELAY_TICKS
    case Backward => BACKWARD_DELAY_TICKS
    case RotateLeft => ROTATION_DELAY_TICKS
    case RotateRight => ROTATION_DELAY_TICKS
  }

  /** The executor task's queue and one-shot timer, and the servo orders given so far. */
  class MovementExecutor {
    const queue: Mailbox<Movement>
    var timerActive: bool
    var timerPeriod: Tick
    var timerStart: Tick
    var servoOrders: seq<ServoOrder>

    ghost predicate Valid()
      reads this, queue
    {
      queue.Valid() && queue.capacity == MOVEMENT_QUEUE_SIZE
    }

    /** The start of `vMVT_Process`: an empty five-slot queue and a dormant
        timer created with the forward period. */
    constructor ()
      ensures Valid() && fresh(queue) && queue.items == []
      ensures !timerActive && timerPeriod == FORWARD_DELAY_TICKS && servoOrders == []
    {
      queue := new Mailbox<Movement>(MOVEMENT_QUEUE_SIZE);
      timerActive := false;
      timerPeriod := FORWARD_DELAY_TICKS;
      timerStart := 0;
      servoOrders := [];
    }

    /** The timer has reached its period. */
    predicate TimerDue(now: Tick)
      reads this
    {
      timerActive && TickSub(now, timerStart) >= timerPeriod
    }

    /** A timer armed at `timerStart` is first due exactly `timerPeriod`
        ticks later, whether or not the tick counter wraps meanwhile. */
    lemma TimerDueAfterPeriod(d: Tick)
      requires timerActive
      ensures TimerDue(TickAdd(timerStart, d)) <==> d >= timerPeriod
    {
      TickSubAdd(timerStart, d);
    }

    /** One movement handled by `vMVT_Process`: the two wheel orders are
        given; Stop stops the timer, every other movement sets its period and
        restarts it from `now`. */
    method Process(m: Movement, now: Tick)
      modifies this
      ensures servoOrders == old(servoOrders) + ServoCalls(m)
      ensures m == Stop ==> !timerActive && timerPeriod == old(timerPeriod) && timerStart == old(timerStart)
      ensures m != Stop ==> timerActive && timerPeriod == MovementDelay(m) && timerStart == now
    {
      var o := Orders(m);
      servoOrders := servoOrders + [ServoOrder(SERVO_LEFT_GPIO_NUM, o.left.speed, o.left.forward)];
      servoOrders := servoOrders + [ServoOrder(SERVO_RIGHT_GPIO_NUM, o.right.speed, o.right.forward)];
      if m == Stop {
        timerActive := false;
      } else {
        timerPeriod := MovementDelay(m);
        timerActive, timerStart := true, now;
      }
    }

    /** One iteration of the task loop: the oldest queued movement, if any,
        is taken and handled. */
    method ProcessNext(now: Tick) returns (received: Option<Movement>)
      requires Valid()
      modifies this, queue
      ensures Valid()
      ensures old(queue.items) == [] ==>
                received == None && queue.items == [] && servoOrders == old(servoOrders) &&
                timerActive == old(timerActive) && timerPeriod == old(timerPeriod) && timerStart == old(timerStart)
      ensures old(queue.items) != [] ==>
                received == Some(old(queue.items)[0]) && queue.items == old(queue.items)[1..] &&
                servoOrders == old(servoOrders) + ServoCalls(received.value)
      ensures received == Some(Stop) ==> !timerActive && timerPeriod == old(timerPeriod) && timerStart == old(timerStart)
      ensures received.Some? && received.value != Stop ==> timerActive && timerStart == now && timerPeriod == 1000
    {
      received := queue.Receive();
      if received.Some? {
        Process(received.value, now);
      }
    }

    /** `vMVT_Move`: the movement goes to the back of the queue, if there is room. */
    method Move(m: Movement) returns (ok: bool)
      requires Valid()
      modifies queue
      ensures Valid()
      ensures ok <==> |old(queue.items)| < MOVEMENT_QUEUE_SIZE
      ensures queue.items == if ok then old(queue.items) + [m] else old(queue.items)
    {
      ok := queue.Send(m);
    }

    /** `vMVT_EmergencyStop`: whatever was queued is discarded and Stop is
        the only movement left. */
    method EmergencyStop()
      requires Valid()
      modifies queue
      ensures Valid() && queue.items == [Stop]
    {
      queue.Reset();
      var _ := queue.SendToFront(Stop);
    }

    /** `_endMovementTimerCallback`: the one-shot timer goes dormant and Stop
        is pushed to the front of the queue, unless the queue is full. */
    method TimerExpired(now: Tick)
      requires Valid() && TimerDue(now)
      modifies this, queue
      ensures Valid() && !timerActive
      ensures timerPeriod == old(timerPeriod) && timerStart == old(timerStart) && servoOrders == old(servoOrders)
      ensures queue.items == if |old(queue.items)| < MOVEMENT_QUEUE_SIZE then [Stop] + old(queue.items) else old(queue.items)
    {
      timerActive := false;
      var _ := queue.SendToFront(Stop);
    }
  }
}
