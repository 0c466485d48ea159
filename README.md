# A verified model of the mouse robot's firmware core

The firmware drives a small two-wheeled robot on an ESP32 under FreeRTOS.
Each component is a task that blocks on its own message queue. Other tasks
reach it through small wrapper functions that post to that queue. This
project models five of those components in Dafny and proves properties of
the models:

- **Operating-system helpers** (`os_utils.dfy`, module `OsUtils`).
  - A FreeRTOS queue as the class `Mailbox`.
  - Wrap-around tick arithmetic.
  - The readiness test for reply queues, the safe send, and the synchronous
    request/response call `bOS_SendToTaskAndWaitResponse`.
- **Button engine** (`buttons.dfy`, module `Buttons`).
  - Buttons are registered into a table of ten entries.
  - Each entry is classified on its edges (press, release) and by a self-poll
    while it is held: short, long or very long press.
  - Each trigger category reaches a subscriber at most once per press.
- **Movement executor** (`movement_manager.dfy`, module `MovementManager`).
  - Each movement becomes a pair of servo orders.
  - A one-shot timer stops the robot one second after every movement other
    than Stop.
  - The emergency stop empties the queue.
- **Sequence scheduler** (`sequence_manager.dfy`, module `SequenceManager`).
  - It records up to fifty movements and plays them back one after the other.
  - It is modelled twice:
    - `Next` and the class `SequenceScheduler`, exactly as written;
    - `NextIntended`, the corrected switch described under "Findings".
- **LED driver** (`leds.dfy`, module `Leds`).
  - It hands out the eight LEDC PWM channels to the colour pins of the LEDs
    that register.
  - It turns a set-solid request into one duty update per allocated channel.

Where the source holds state that its code updates in place, the model is a
class. The static tables become arrays, and the counters and task locals
become fields. What a task sends to other tasks, or to hardware, is
recorded in a log field:

- `notifications` of the button engine;
- `requests` of the scheduler;
- `servoOrders` of the executor;
- `writes` of the LED driver.

The decisions themselves (classification, masking, allocation, the switch
of each task) are pure functions. Each method is proved equal to those
functions, and lemmas state what the functions guarantee.

Integers of the source are unbounded integers here, and wrap-around is
written out where it matters:

- tick differences are `TickSub`, modulo 2^32;
- `_ledIndex` wraps modulo 256.

A `uint32_t` trigger bitmap is the set of its one-bit positions:

- `&` is intersection;
- `|` is union;
- `& ~` is set difference.

An RGB colour `0xRRGGBB` is a `uint32` value whose bytes are taken apart by
division and remainder.

## Model

| member | source | states |
|---|---|---|
| OsUtils.TickSub | main/utils/src/osUtils.c:39 | the unsigned 32-bit difference: adding it back to the start gives the current tick modulo 2^32 |
| OsUtils.TickSubAdd | main/utils/src/osUtils.c:39 | `d` ticks after `start`, the elapsed time computed by the code is `d` even when the tick counter wraps meanwhile |
| OsUtils.Mailbox.constructor | main/drivers/src/buttons.c:118 | a created queue is empty and has the requested capacity |
| OsUtils.Mailbox.Send | main/utils/src/osUtils.c:59 | a send succeeds iff the queue has room, and then appends the item at the back; otherwise nothing changes |
| OsUtils.Mailbox.SendToFront | main/applications/src/movementManager.c:109 | a front send succeeds iff there is room, and the item becomes the next one received |
| OsUtils.Mailbox.Reset | main/applications/src/movementManager.c:108 | a reset queue is empty |
| OsUtils.Mailbox.Receive | main/applications/src/movementManager.c:61 | the oldest item is removed and returned; an empty queue returns nothing |
| OsUtils.QueueHandleVar.constructor | main/utils/src/osUtils.c:66 | the handle variable holds the queue just created |
| OsUtils.ReadyIffWithinTimeout | main/utils/src/osUtils.c:38-44 | with a finite timeout, `d` ticks after the start the queue is ready iff its handle is non-null and `d` is below the timeout, across tick wrap-around |
| OsUtils.ReadinessCases | main/utils/src/osUtils.c:29-47 | a null handle and a zero timeout are never ready; with `portMAX_DELAY` readiness is exactly a non-null handle, at any time |
| OsUtils.DeleteQueue | main/utils/src/osUtils.c:11-18 | the caller's handle variable is NULL afterwards |
| OsUtils.ResponseWindow | main/utils/src/osUtils.c:49-54 | a freshly created context points at the given handle, starts now, and stays ready exactly for its timeout |
| OsUtils.QueueSendSafe | main/utils/src/osUtils.c:56-61 | the send is attempted iff the context is ready; a send attempt appends the item iff the reply queue has room, and nothing else changes |
| OsUtils.SendToTaskAndWaitResponse | main/utils/src/osUtils.c:63-81 | the result is true iff the target queue exists, accepted the event and a reply arrived; the response is that reply; the event posted carries a context naming the new reply queue with the given timeout; the reply queue's handle is NULL afterwards |
| OsUtils.LateReplyDropped | main/utils/src/osUtils.c:39-43 | a reply posted `timeout` or more ticks after the context was opened is never sent, whatever the handle, across tick wrap-around (for fewer than 2^32 ticks) |
| Buttons.DurationBit | main/drivers/src/buttons.c:158-164 | exactly one duration bit for a press longer than 10000, 3000 or 50 ticks (very long, long, short), and none up to 50 ticks, each range with its strict upper bound |
| Buttons.EdgeBitsShape | main/drivers/src/buttons.c:151-165 | a press edge computes only EdgePressed; a release edge computes EdgeReleased plus the duration bit of the elapsed time |
| Buttons.Mask | main/drivers/src/buttons.c:170-173 | what fires was computed and is subscribed, was not fired before in this press, and everything computed and subscribed is fired now or was already |
| Buttons.PressRearms | main/drivers/src/buttons.c:151-154 | a press edge clears the press's history, fires EdgePressed iff subscribed, and records only that |
| Buttons.StimulusBookkeeping | main/drivers/src/buttons.c:175-176 | an edge records the current tick and its action; a poll changes neither and never touches a released button |
| Buttons.Notify | main/drivers/src/buttons.c:241-256 | exactly one send of the gpio and bitmap iff something fired and the registrant's queue is non-null, else none |
| Buttons.Lookup | main/drivers/src/buttons.c:227-239 | the index of the first registered entry with that gpio, or none iff no entry has it |
| Buttons.PollAllEntries | main/drivers/src/buttons.c:189-208 | a poll pass classifies every entry independently and keeps each entry's last action and timestamp |
| Buttons.PollKeepsBlockTime | main/drivers/src/buttons.c:188-191 | the receive timeout is the poll period iff some button is held, else forever, and a poll pass does not change it |
| Buttons.ReactWithoutPress | main/drivers/src/buttons.c:169-173 | any stimulus but a press edge fires only new, subscribed bits and adds them to the history |
| Buttons.AtMostOncePerPress | main/drivers/src/buttons.c:148-207 | over any run of edges and polls without a press edge, the bitmaps fired are pairwise disjoint, new and subscribed, and all recorded in the history |
| Buttons.ReleaseClassifies | main/drivers/src/buttons.c:156-171 | a release of a subscribed, not yet classified press fires EdgeReleased together with the duration bit of the press |
| Buttons.ClassifyEdge | main/drivers/src/buttons.c:150-176 | the edge path computes the firing bitmap and the updated entry of the edge rule |
| Buttons.ClassifyHeld | main/drivers/src/buttons.c:192-204 | the poll path for a held button computes the firing bitmap and the updated entry of the poll rule |
| Buttons.ButtonEngine.constructor | main/drivers/src/buttons.c:81-82 | the table starts zero-filled and empty, with an infinite receive timeout and nothing sent |
| Buttons.ButtonEngine.FindButton | main/drivers/src/buttons.c:227-239 | the loop finds a button iff `Lookup` does, at the same index |
| Buttons.ButtonEngine.Configure | main/drivers/src/buttons.c:123-146 | a registration is accepted iff the table has room; an accepted one appends a released, unfired entry; the result is posted through the safe send |
| Buttons.ButtonEngine.HandleEdge | main/drivers/src/buttons.c:148-181 | an edge on an unregistered gpio changes nothing; otherwise the first matching entry takes the edge rule's new value, and the matching notification is logged |
| Buttons.ButtonEngine.PollEntry | main/drivers/src/buttons.c:190-207 | one poll iteration extends the classified prefix of the table, the log and the timeout by one entry |
| Buttons.ButtonEngine.Poll | main/drivers/src/buttons.c:188-208 | the registered entries become their one-pass poll; the rest of the table is unchanged; the poll sends are logged in table order; the timeout follows whether any button is held |
| Buttons.ButtonEngine.Step | main/drivers/src/buttons.c:120-209 | an iteration keeps the table valid, only appends to the log, and leaves the timeout that the held buttons dictate |
| Buttons.RegisterButton | main/drivers/src/buttons.c:212-225 | registration reports true iff the request was queued and the engine replied true; the request appended carries the gpio, the trigger bitmap, the registrant's queue and a reply context opened now for 100 ticks, and a full queue is left unchanged |
| MovementManager.EqualWheelSpeeds | main/applications/src/movementManager.c:63-95 | both wheels always get the same speed, and it is zero exactly for Stop |
| MovementManager.WheelDirections | main/applications/src/movementManager.c:63-95 | the wheels counter-rotate exactly for the two rotations, with left backward for RotateLeft; otherwise both go forward except for Backward |
| MovementManager.WheelSpeeds | main/applications/src/movementManager.c:21-24 | straight movements run at 50 percent and rotations at 30 |
| MovementManager.ServoCalls | main/applications/src/movementManager.c:63-95 | each movement issues two servo orders, left gpio 12 then right gpio 13, at one speed that is zero only for Stop, 50 for straight movements and 30 for rotations; the wheels turn opposite ways exactly in a rotation, and the left one goes backward only for Backward and RotateLeft |
| MovementManager.MovementDelay | main/applications/src/movementManager.c:26-28 | every movement other than Stop lasts 1000 ticks |
| MovementManager.MovementExecutor.constructor | main/applications/src/movementManager.c:54-55 | an empty five-slot queue and a dormant timer with the forward period |
| MovementManager.MovementExecutor.TimerDueAfterPeriod | main/applications/src/movementManager.c:55 | an armed timer is due exactly once its period has elapsed, across tick wrap-around |
| MovementManager.MovementExecutor.Process | main/applications/src/movementManager.c:63-95 | the two servo orders are logged; Stop disarms the timer; every other movement re-arms it from now with its delay |
| MovementManager.MovementExecutor.ProcessNext | main/applications/src/movementManager.c:59-96 | the oldest queued movement is taken and processed; an empty queue leaves the orders and the whole timer state unchanged |
| MovementManager.MovementExecutor.Move | main/applications/src/movementManager.c:99-102 | the movement is queued at the back iff there is room |
| MovementManager.MovementExecutor.EmergencyStop | main/applications/src/movementManager.c:104-110 | whatever was queued is discarded, and the queue holds only Stop |
| MovementManager.MovementExecutor.TimerExpired | main/applications/src/movementManager.c:115-120 | the timer goes dormant, and Stop is queued at the front iff there is room |
| SequenceManager.Next | main/applications/src/sequenceManager.c:59-87 | each event keeps the state well formed and sends at most one move; only ADD writes the buffer; LAUNCH and END keep the length |
| SequenceManager.AddStores | main/applications/src/sequenceManager.c:60-62 | ADD stores the movement at the next slot and increments the length, sending nothing |
| SequenceManager.RemoveDecrements | main/applications/src/sequenceManager.c:63-67 | REMOVE decrements a positive length and leaves the buffer's contents |
| SequenceManager.AbortStops | main/applications/src/sequenceManager.c:68-71 | ABORT sends one Stop without a callback and empties the sequence |
| SequenceManager.LaunchStarts | main/applications/src/sequenceManager.c:72-77 | LAUNCH restarts at slot 0 and sends slot 0 with the end callback iff the sequence is non-empty |
| SequenceManager.EndAdvances | main/applications/src/sequenceManager.c:78-84 | END sends the slot at the read index and advances while the index is at most the length, else wraps to 0 and sends nothing |
| SequenceManager.EditsSendNothing | main/applications/src/sequenceManager.c:60-67 | recording and removing never move the robot nor the playback position |
| SequenceManager.EndsReplay | main/applications/src/sequenceManager.c:78-84 | consecutive END events send the slots from the read index on, in order, each with the end callback |
| SequenceManager.PlaybackAsWritten | main/applications/src/sequenceManager.c:72-84 | as written, LAUNCH and `length` END events send slots 0 to `length` included, one more than recorded |
| SequenceManager.RemovedMovementReplayed | main/applications/src/sequenceManager.c:63-84 | recording Forward and Backward, removing Backward, then launching: the first END sends Backward |
| SequenceManager.AddAllAppends | main/applications/src/sequenceManager.c:60-62 | ADD events append their movements in order after the recorded ones |
| SequenceManager.AddPastCapacity | main/applications/src/sequenceManager.c:61 | after fifty ADD events from the start, a further ADD writes past the buffer |
| SequenceManager.EndPastFullBuffer | main/applications/src/sequenceManager.c:79-80 | playing a full buffer, the last END reads past the buffer |
| SequenceManager.NextIntended | main/applications/src/sequenceManager.c:59-87 | the corrected switch keeps the state well formed for every event, and a read index it moves lands within the length |
| SequenceManager.IntendedAgrees | main/applications/src/sequenceManager.c:59-87 | the corrected switch agrees with the code on every event except the two defects |
| SequenceManager.IntendedAddWhenFull | main/applications/src/sequenceManager.c:60-62 | in the corrected switch, ADD to a full buffer changes nothing and sends nothing |
| SequenceManager.EndsIntendedReplay | main/applications/src/sequenceManager.c:78-84 | corrected END events send the recorded slots from the read index on, in order |
| SequenceManager.PlaybackIntended | main/applications/src/sequenceManager.c:72-84 | corrected playback sends exactly the recorded movements in order, also for a full buffer, then wraps and sends nothing |
| SequenceManager.SequenceScheduler.constructor | main/applications/src/sequenceManager.c:41-54 | the buffer starts all Stop with both counters zero and an empty queue |
| SequenceManager.SequenceScheduler.Process | main/applications/src/sequenceManager.c:59-87 | the array and counters become `Next`'s state, and its requests are logged |
| SequenceManager.SequenceScheduler.ProcessNext | main/applications/src/sequenceManager.c:57-87 | the oldest queued event is taken and processed as `Next` says; an empty queue stays empty and changes nothing |
| SequenceManager.SequenceScheduler.Post | main/applications/src/sequenceManager.c:91-138 | an event is queued at the back iff there is room |
| SequenceManager.SequenceScheduler.AddNewMovementRequest | main/applications/src/sequenceManager.c:91-99 | an ADD event with the movement is queued iff there is room |
| SequenceManager.SequenceScheduler.RemoveLastMovementRequest | main/applications/src/sequenceManager.c:101-108 | a REMOVE event is queued iff there is room |
| SequenceManager.SequenceScheduler.LaunchSequenceRequest | main/applications/src/sequenceManager.c:110-117 | a LAUNCH event is queued iff there is room |
| SequenceManager.SequenceScheduler.AbortSequenceRequest | main/applications/src/sequenceManager.c:119-126 | an ABORT event is queued iff there is room |
| SequenceManager.SequenceScheduler.EndOfMovementCallback | main/applications/src/sequenceManager.c:131-138 | an END event is queued iff there is room |
| Leds.SingleColor | main/drivers/src/leds.c:25 | the extracted colour is a byte |
| Leds.SingleColorRoundTrip | main/drivers/src/leds.c:25 | packing red, green and blue bytes as 0xRRGGBB and extracting each index gives them back |
| Leds.AllocateRowFacts | main/drivers/src/leds.c:112-127 | registration gives a channel to exactly the present pins while channels remain; the counter grows by the number given; the new channels are fresh, in counter order, red before green before blue; absent pins and exhausted channels leave slots untouched |
| Leds.DutyCycleFacts | main/drivers/src/leds.c:135 | the duty is monotone in the colour byte, zero for 0, full 13-bit scale for red and blue at 255 and half scale for green, and equals the byte scaled by the gain |
| Leds.SolidWritesFacts | main/drivers/src/leds.c:132-145 | set-solid writes once to each slot that has a channel, never to an unallocated slot, with a fade iff fading was asked |
| Leds.LedDriver.ChannelsDistinct | main/drivers/src/leds.c:113-127 | no PWM channel is assigned to two slots of the table |
| Leds.LedDriver.constructor | main/drivers/src/leds.c:71-89 | every slot holds `LEDC_CHANNEL_MAX`, both counters are zero, and the queue is empty |
| Leds.LedDriver.ConfigurePin | main/drivers/src/leds.c:113-117 | one colour's `if` updates the current row and counter as the allocation rule says and leaves the other rows |
| Leds.LedDriver.AllocateLed | main/drivers/src/leds.c:113-127 | the current row and counter become the allocation of the three pins; other rows are untouched |
| Leds.LedDriver.HandleRegister | main/drivers/src/leds.c:112-130 | the row is allocated as above, the old index is replied through the safe send, and the index increments modulo 256 |
| Leds.LedDriver.HandleSetSolid | main/drivers/src/leds.c:132-145 | the writes logged are the set-solid writes of the handle's row, in colour order |
| Leds.LedDriver.Process | main/drivers/src/leds.c:109-152 | registration allocates the current row, keeps the other rows, replies the old index through the safe send and increments the index; set-solid logs its writes; blinking and off change nothing |
| Leds.LedDriver.ProcessNext | main/drivers/src/leds.c:108-153 | the oldest queued event is taken and has, for each kind of event, the effect `Process` states; an empty queue changes nothing, the channel table included |
| Leds.LedDriver.RegisterLed | main/drivers/src/leds.c:156-172 | the handle is the driver's reply when the request was queued and answered, else `LED_NO_HANDLE`; the request carries the three pins and a reply context timing out after 100 ticks |
| Leds.LedDriver.SetLedSolid | main/drivers/src/leds.c:174-185 | a set-solid request with the handle, colour and fade settings is queued iff there is room |

## Left out

- Concurrency and blocking are not modelled.
  - Each task is a sequence of steps, and a step's messages arrive whole.
  - A `xQueueReceive` that would block returns nothing.
  - A send that would wait `WRITE_IN_QUEUE_DEFAULT_TIMEOUT` ticks for room is an immediate drop when the queue is full.
  - A reply `Some(r)` to a synchronous call stands for a reply that arrived within the timeout, and `None` stands for no reply.
- Time is one tick value `now` per step, not a fresh `xTaskGetTickCount` at each read. `pdMS_TO_TICKS` is taken as one tick per millisecond.
- `xQueueCreate` is assumed to succeed.
- OsUtils.SendToTaskAndWaitResponse: the reply queue's handle variable is a heap object that stays NULL after the call. In the source it is a local of `bOS_SendToTaskAndWaitResponse` (osUtils.c:66), so the context handed to the other task points at a dead stack slot once the call returns. A late `vOS_QueueSendSafe` then reads that dangling pointer. The model does not capture reads through it. What keeps a late reply from being sent is the expiry test (osUtils.c:39), stated by `LateReplyDropped`. That test is modular, so it passes again 2^32 ticks after the context was opened, and the source would then send through the dangling pointer.
- Hardware and external calls are not modelled:
  - GPIO configuration and ISR installation in `buttons.c`;
  - `_buttonsISR` itself, whose edges arrive as `HandleEdge` calls;
  - LEDC timer and channel configuration;
  - `ledc_set_duty`, `ledc_update_duty` and `ledc_set_fade_with_time`, which are logged as `DutyWrite` values;
  - the servo driver `servo.c` and its registration in `vMVT_Process`;
  - logging.
- `vOS_DeleteSemaphore` (osUtils.c:20-27) is not modelled: no component modelled here uses semaphores.
- `main.c` is not modelled: it only creates the button engine's task and the buttons manager's task.
- `buttonsManager.c` is not modelled. It is not part of the core: it prints a ten-second countdown and then restarts the chip with `esp_restart()`.
- The button engine's `BUTTON_EVENT_CHECK` message is declared but never sent. The model keeps it as the event `Check`, which `ButtonEngine.Step` handles as a no-op, as the `default:` branch at buttons.c:183 does.
- `vLED_SetLedBlinking` and `vLED_SetLedOff` are empty functions in leds.c, so they are not modelled. The blinking and off events are still handled by `Process`, as the no-ops the source makes of them.
- The `ledHandle` field of `ledConfig_t` is never read, so it is not modelled.
- The movement header declares `vMVT_Move(movement, endCallback)`, but movementManager.c:99 defines `vMVT_Move(movement)`. No callback is ever stored or invoked there.
  - The scheduler's calls therefore appear as `MoveRequest` entries in its `requests` log, with the callback it would pass.
  - They are not connected to the executor, and nothing posts `END_OF_CURRENT_MOVEMENT` automatically.
- A Stop sent through `vMVT_Move` is queued at the back like any other movement. Only the timer callback and the emergency stop put it at the front.
- `LEDC_CHANNEL_MAX` is 8, the ESP32 LEDC driver's count of channels in one speed mode.
- The set-solid duty is computed in `float` in the source: gain times byte, times 2^13, divided by 255, then truncated. The model computes it exactly in integers, as half-gains times byte times 2^13 over 510. These are equal for every byte:
  - the products are exact in `float`;
  - a quotient by 255 that is not an integer is at least 1/255 away from the nearest integer, much more than the rounding error.

  This equality is argued, not proved in Dafny.
- SequenceManager.SequenceScheduler.Process: requires that the event's array access stays inside the fifty slots (`InBounds`). The code has undefined behaviour otherwise. The two ways to get there are the findings below, and the corrected `NextIntended` handles both.
- Leds.LedDriver.HandleRegister: requires that the row `_ledIndex` is inside the table, or that no slot would be written. leds.c writes `_ledChannels[_ledIndex]` without a bound check, which is undefined behaviour after eight registrations while channels remain. The same requirement is on `ConfigurePin`, `AllocateLed`, `Process` and `ProcessNext`.
- Leds.LedDriver.HandleSetSolid: requires that the handle designates a row of the table, for the same reason. leds.c:134 reads `_ledChannels[ledHandle]` unchecked.
- Buttons.ButtonEngine.Step: states only the invariant, the receive timeout and that the log only grows. The exact effect is the composition of the `Configure`, `HandleEdge` and `Poll` contracts it calls.
- Buttons.Notify: records the send a notification attempts. Whether the registrant's queue had room is not modelled.
- Leds.SingleColor: its own contract states only the byte bound. The extraction itself is pinned down by `SingleColorRoundTrip`.

## Findings

| source | as written | input that shows it | evidently intended | confidence | as-written member | corrected member |
|---|---|---|---|---|---|---|
| main/applications/src/sequenceManager.c:79 | END replays while `_sequenceReadIndex <= _sequenceLength`, so playback sends one slot past the recorded sequence | record Forward and Backward, remove Backward, launch, end Forward: Backward is sent | `<`: only recorded movements are played | not executed | SequenceManager.RemovedMovementReplayed | SequenceManager.PlaybackIntended |
| main/applications/src/sequenceManager.c:61 | ADD writes `_sequence[_sequenceLength++]` with no bound check | fifty-one ADD events from the start: the last writes `_sequence[50]` | an ADD to a full buffer is ignored | not executed | SequenceManager.AddPastCapacity | SequenceManager.IntendedAddWhenFull |

The class `SequenceScheduler` follows the code as written, through `Next`.
`NextIntended` is the corrected switch. It is proved to agree with `Next`
everywhere except the two defects (`IntendedAgrees`), and its playback is
proved to send exactly the recorded movements (`PlaybackIntended`).
