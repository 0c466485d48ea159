/** The LED driver (main/drivers/src/leds.c): a task that hands out PWM
    channels to the red, green and blue pins of registered LEDs, in order,
    from one global counter, and writes duty cycles to the channels of an LED
    when a solid colour is requested. */
module Leds {
  import opened OsUtils

  type uint8 = x: int | 0 <= x < 256

  /** `LEDC_CHANNEL_MAX` of the ESP32 LEDC driver: channels 0 to 7. It is
      also the "no channel" value the table is filled with. */
  const LEDC_CHANNEL_MAX: nat := 8
  const MAX_REGISTERED_LEDS: nat := LEDC_CHANNEL_MAX
  const MAX_PINS_PER_LED: nat := 3
  const LED_QUEUE_SIZE: nat := 10

  /** main/drivers/inc/leds.h. */
  const LED_NO_PIN: uint32 := 0xFF
  const LED_NO_HANDLE: uint8 := 0xFF

  /** `PIN_RED_INDEX`, `PIN_GREEN_INDEX`, `PIN_BLUE_INDEX`. */
  type ColorIndex = i: int | 0 <= i < 3
  const PIN_RED_INDEX: ColorIndex := 0
  const PIN_GREEN_INDEX: ColorIndex := 1
  const PIN_BLUE_INDEX: ColorIndex := 2

  /** `2^(16 - 8 * index)`: how far the byte of a colour is shifted in 0xRRGGBB. */
  function ColorScale(index: ColorIndex): nat
  {
    match index
    case 0 => 0x1_0000
    case 1 => 0x100
    case 2 => 1
  }

  /** `GET_SINGLE_COLOR_FROM_RGB`: the red, green or blue byte of a 0xRRGGBB
      value. The unsigned shift and the mask are written as a division and a
      remainder. */
  function SingleColor(rgb: uint32, index: ColorIndex): (c: nat)
    ensures c < 0x100
  {
    (rgb / ColorScale(index)) % 0x100
  }

  /** Packing three bytes as 0xRRGGBB and extracting them gives them back. */
  lemma SingleColorRoundTrip(r: nat, g: nat, b: nat)
    requires r < 0x100 && g < 0x100 && b < 0x100
    ensures var rgb := r * 0x1_0000 + g * 0x100 + b;
      SingleColor(rgb, 0) == r && SingleColor(rgb, 1) == g && SingleColor(rgb, 2) == b
  {
    var rgb := r * 0x1_0000 + g * 0x100 + b;
    assert rgb / 0x1_0000 == r;
    assert rgb / 0x100 == r * 0x100 + g;
  }

  /** `ledConfig_t`: the three pins of an LED, `LED_NO_PIN` for an absent colour. */
  datatype LedConfig = LedConfig(rGpio: uint32, gGpio: uint32, bGpio: uint32)

  function Pin(config: LedConfig, index: ColorIndex): uint32
  {
    match index
    case 0 => config.rGpio
    case 1 => config.gGpio
    case 2 => config.bGpio
  }

  /** `ledParam_t`. */
  datatype LedParams = LedParams(ledHandle: uint8, rgbColor: uint32, fade: bool, delayToFade: uint32, blinkPeriodMs: uint32)

  /** A message on the driver's queue. */
  datatype LedEvent =
    | Register(config: LedConfig, responseQueue: QueueContext<uint8>)
    | SetSolid(params: LedParams)
    | SetBlinking(params: LedParams)
    | SetOff(params: LedParams)

  /** One duty update on a channel: `ledc_set_duty` and `ledc_update_duty`,
      or `ledc_set_fade_with_time` and `ledc_fade_start`. */
  datatype DutyWrite = SetDuty(channel: nat, duty: nat) | FadeTo(channel: nat, duty: nat, fadeTime: uint32)

  /** One LED's row of the channel table during registration, the counter,
      and which slots this registration filled. */
  datatype Allocation = Allocation(row: seq<nat>, channel: nat, filled: seq<bool>)

  /** One `if` of the `EVENT_REGISTER` case: a present pin gets the next
      channel, while there is one, and the counter is post-incremented. */
  function AssignSlot(a: Allocation, index: ColorIndex, pin: uint32): (r: Allocation)
    requires |a.row| == MAX_PINS_PER_LED && |a.filled| == MAX_PINS_PER_LED
    ensures |r.row| == MAX_PINS_PER_LED && |r.filled| == MAX_PINS_PER_LED
  {
    if pin != LED_NO_PIN && a.channel < LEDC_CHANNEL_MAX then
      Allocation(a.row[index := a.channel], a.channel + 1, a.filled[index := true])
    else
      a
  }

  /** The whole `EVENT_REGISTER` allocation for one row: red, then green, then blue. */
  function AllocateRow(row: seq<nat>, config: LedConfig, channel: nat): (a: Allocation)
    requires |row| == MAX_PINS_PER_LED
    ensures |a.row| == MAX_PINS_PER_LED && |a.filled| == MAX_PINS_PER_LED
  {
    var a0 := Allocation(row, channel, [false, false, false]);
    AssignSlot(AssignSlot(AssignSlot(a0, PIN_RED_INDEX, config.rGpio), PIN_GREEN_INDEX, config.gGpio), PIN_BLUE_INDEX, config.bGpio)
  }

  /** What a registration allocates: only present pins get a channel, a
      present pin goes without only when the channels have run out, the
      counter moves by one per assignment and never passes
      `LEDC_CHANNEL_MAX`, the new channels are fresh values from the counter
      and increase from red to blue, and unassigned slots keep their value. */
  lemma AllocateRowFacts(row: seq<nat>, config: LedConfig, channel: nat)
    requires |row| == MAX_PINS_PER_LED && channel <= LEDC_CHANNEL_MAX
    ensures var a := AllocateRow(row, config, channel);
      a.channel <= LEDC_CHANNEL_MAX &&
      a.channel == channel + (if a.filled[0] then 1 else 0) + (if a.filled[1] then 1 else 0) + (if a.filled[2] then 1 else 0)
    ensures var a := AllocateRow(row, config, channel);
      forall c: ColorIndex ::
        (Pin(config, c) == LED_NO_PIN ==> !a.filled[c]) &&
        (Pin(config, c) != LED_NO_PIN && !a.filled[c] ==> a.channel == LEDC_CHANNEL_MAX) &&
        (!a.filled[c] ==> a.row[c] == row[c]) &&
        (a.filled[c] ==> channel <= a.row[c] < a.channel)
    ensures var a := AllocateRow(row, config, channel);
      forall c: ColorIndex, d: ColorIndex :: c < d && a.filled[c] && a.filled[d] ==> a.row[c] < a.row[d]
  {
    var a0 := Allocation(row, channel, [false, false, false]);
    var a1 := AssignSlot(a0, 0, config.rGpio);
    var a2 := AssignSlot(a1, 1, config.gGpio);
    var a3 := AssignSlot(a2, 2, config.bGpio);
    assert a1.channel <= a2.channel <= a3.channel;
    assert a1.filled[0] ==> a1.row[0] == channel;
    assert a2.filled[1] ==> a2.row[1] == a1.channel;
    assert a3.filled[2] ==> a3.row[2] == a2.channel;
  }

  /** `_gainPerColor`, counted in halves: red 1.0, green 0.5, blue 1.0. */
  function GainHalves(index: ColorIndex): nat
  {
    if index == PIN_GREEN_INDEX then 1 else 2
  }

  /** `BIT(LEDC_TIMER_13_BIT)`. */
  const DUTY_FULL_SCALE: nat := 0x2000

  /** The duty of `EVENT_SET_SOLID`: gain times byte times 2^13 over 0xFF,
      converted to `uint32_t`. The source computes in `float`; the products
      are exact there, and a quotient by 255 that is not an integer is at
      least 1/255 away from one, so the truncation gives the integer
      quotient computed here. */
  function DutyCycle(color: nat, index: ColorIndex): nat
  {
    GainHalves(index) * color * DUTY_FULL_SCALE / (2 * 0xFF)
  }

  /** Red and blue span the full 13-bit scale, green half of it; the duty
      grows with the byte, and black is off. */
  lemma DutyCycleFacts(color: nat, other: nat, index: ColorIndex)
    requires color <= other <= 0xFF
    ensures DutyCycle(color, index) <= DutyCycle(other, index)
    ensures DutyCycle(0, index) == 0
    ensures DutyCycle(0xFF, index) == if index == PIN_GREEN_INDEX then DUTY_FULL_SCALE / 2 else DUTY_FULL_SCALE
    ensures index != PIN_GREEN_INDEX ==> DutyCycle(color, index) == color * DUTY_FULL_SCALE / 0xFF
    ensures index == PIN_GREEN_INDEX ==> DutyCycle(color, index) == color * (DUTY_FULL_SCALE / 2) / 0xFF
  {
    var g := GainHalves(index);
    assert g * color * DUTY_FULL_SCALE <= g * other * DUTY_FULL_SCALE;
  }

  /** The duty update `EVENT_SET_SOLID` issues for the slot `index` of an LED. */
  function SolidWrite(channel: nat, index: ColorIndex, p: LedParams): DutyWrite
  {
    var duty := DutyCycle(SingleColor(p.rgbColor, index), index);
    if p.fade then FadeTo(channel, duty, p.delayToFade) else SetDuty(channel, duty)
  }

  /** The duty updates for the first `k` slots of an LED's row: one per slot
      with a channel, none for a slot still holding `LEDC_CHANNEL_MAX`. */
  function SolidWrites(row: seq<nat>, p: LedParams, k: nat): seq<DutyWrite>
    requires |row| == MAX_PINS_PER_LED && k <= MAX_PINS_PER_LED
  {
    if k == 0 then []
    else
      SolidWrites(row, p, k - 1) +
      (if row[k - 1] < LEDC_CHANNEL_MAX then [SolidWrite(row[k - 1], k - 1, p)] else [])
  }

  /** Set-solid writes exactly once to every slot that has a channel, with
      that colour's byte, to no other channel, and by fading iff asked to. */
  lemma SolidWritesFacts(row: seq<nat>, p: LedParams)
    requires |row| == MAX_PINS_PER_LED
    ensures var ws := SolidWrites(row, p, MAX_PINS_PER_LED);
      |ws| == (if row[0] < LEDC_CHANNEL_MAX then 1 else 0) + (if row[1] < LEDC_CHANNEL_MAX then 1 else 0) +
              (if row[2] < LEDC_CHANNEL_MAX then 1 else 0)
    ensures var ws := SolidWrites(row, p, MAX_PINS_PER_LED);
      forall c: ColorIndex :: row[c] < LEDC_CHANNEL_MAX ==> SolidWrite(row[c], c, p) in ws
    ensures var ws := SolidWrites(row, p, MAX_PINS_PER_LED);
      forall w :: w in ws ==> w.channel < LEDC_CHANNEL_MAX && (w.FadeTo? <==> p.fade) &&
                              (exists c: ColorIndex :: row[c] == w.channel)
  {
    assert SolidWrites(row, p, 0) == [];
    var w0 := SolidWrites(row, p, 1);
    var w1 := SolidWrites(row, p, 2);
    var ws := SolidWrites(row, p, 3);
    assert w0 == (if row[0] < LEDC_CHANNEL_MAX then [SolidWrite(row[0], 0, p)] else []);
    assert w1 == w0 + (if row[1] < LEDC_CHANNEL_MAX then [SolidWrite(row[1], 1, p)] else []);
    assert ws == w1 + (if row[2] < LEDC_CHANNEL_MAX then [SolidWrite(row[2], 2, p)] else []);
  }

  /** The driver task's static state: the channel table, the channel counter
      of `_channelConfig`, the handle counter, its queue, and the duty
      updates made so far. */
  class LedDriver {
    const ledChannels: array2<nat>
    var channel: nat
    var ledIndex: uint8
    var writes: seq<DutyWrite>
    const inbox: Mailbox<LedEvent>

    /** Which slot each channel handed out was given to. */
    ghost var owner: map<nat, (int, int)>

    /** The table's shape, the counter's bound, and the allocation
        invariant: a slot holds either `LEDC_CHANNEL_MAX` or a channel
        already handed out, and `owner` maps that channel back to the slot. */
    ghost predicate Valid()
      reads this, ledChannels, inbox
    {
      ledChannels.Length0 == MAX_REGISTERED_LEDS && ledChannels.Length1 == MAX_PINS_PER_LED &&
      channel <= LEDC_CHANNEL_MAX &&
      (forall i, c :: 0 <= i < MAX_REGISTERED_LEDS && 0 <= c < MAX_PINS_PER_LED ==>
         ledChannels[i, c] == LEDC_CHANNEL_MAX ||
         (ledChannels[i, c] < channel && ledChannels[i, c] in owner && owner[ledChannels[i, c]] == (i, c))) &&
      inbox.Valid() && inbox.capacity == LED_QUEUE_SIZE
    }

    /** No channel drives two slots: LEDs never share a PWM channel, and
        neither do two colours of one LED. */
    lemma ChannelsDistinct()
      requires Valid()
      ensures forall i, c, j, d ::
                0 <= i < MAX_REGISTERED_LEDS && 0 <= c < MAX_PINS_PER_LED &&
                0 <= j < MAX_REGISTERED_LEDS && 0 <= d < MAX_PINS_PER_LED &&
                (i, c) != (j, d) && ledChannels[i, c] < LEDC_CHANNEL_MAX ==>
                  ledChannels[i, c] != ledChannels[j, d]
    {
    }

    /** The row of the table a handle designates; a handle past the table
        reads as a row without channels. */
    ghost function RowAt(i: nat): (row: seq<nat>)
      reads this, ledChannels
      requires ledChannels.Length0 == MAX_REGISTERED_LEDS && ledChannels.Length1 == MAX_PINS_PER_LED
      ensures |row| == MAX_PINS_PER_LED
    {
      if i < MAX_REGISTERED_LEDS then [ledChannels[i, 0], ledChannels[i, 1], ledChannels[i, 2]]
      else [LEDC_CHANNEL_MAX, LEDC_CHANNEL_MAX, LEDC_CHANNEL_MAX]
    }

    /** The static initialisers: every slot `LEDC_CHANNEL_MAX`, both
        counters 0, and the queue created by `vLED_Process`. */
    constructor ()
      ensures Valid() && fresh(ledChannels) && fresh(inbox) && inbox.items == []
      ensures channel == 0 && ledIndex == 0 && writes == []
      ensures forall i, c :: 0 <= i < MAX_REGISTERED_LEDS && 0 <= c < MAX_PINS_PER_LED ==>
                ledChannels[i, c] == LEDC_CHANNEL_MAX
    {
      ledChannels := new nat[MAX_REGISTERED_LEDS, MAX_PINS_PER_LED]((_, _) => LEDC_CHANNEL_MAX);
      channel, ledIndex := 0, 0;
      writes := [];
      owner := map[];
      inbox := new Mailbox<LedEvent>(LED_QUEUE_SIZE);
    }

    /** One `if` of the `EVENT_REGISTER` case: the slot `index` of row
        `_ledIndex` gets the next channel if its pin is present and a
        channel is left, as `AssignSlot` describes. */
    method ConfigurePin(index: ColorIndex, pin: uint32, ghost a: Allocation)
      requires ledIndex < MAX_REGISTERED_LEDS || channel == LEDC_CHANNEL_MAX || pin == LED_NO_PIN
      requires Valid() && |a.row| == MAX_PINS_PER_LED && |a.filled| == MAX_PINS_PER_LED
      requires RowAt(ledIndex) == a.row && channel == a.channel
      modifies this`channel, this`owner, ledChannels
      ensures Valid()
      ensures RowAt(ledIndex) == AssignSlot(a, index, pin).row && channel == AssignSlot(a, index, pin).channel
      ensures forall i, c :: 0 <= i < MAX_REGISTERED_LEDS && i != ledIndex && 0 <= c < MAX_PINS_PER_LED ==>
                ledChannels[i, c] == old(ledChannels[i, c])
    {
      if pin != LED_NO_PIN && channel < LEDC_CHANNEL_MAX {
        ledChannels[ledIndex, index] := channel;
        owner := owner[channel := (ledIndex as int, index as int)];
        channel := channel + 1;
      }
    }

    /** The three `if`s of the `EVENT_REGISTER` case for the row `_ledIndex`. */
    method AllocateLed(config: LedConfig)
      requires Valid()
      requires ledIndex < MAX_REGISTERED_LEDS || channel == LEDC_CHANNEL_MAX ||
               (config.rGpio == LED_NO_PIN && config.gGpio == LED_NO_PIN && config.bGpio == LED_NO_PIN)
      modifies this`channel, this`owner, ledChannels
      ensures Valid()
      ensures var a := AllocateRow(old(RowAt(ledIndex)), config, old(channel));
        channel == a.channel && RowAt(ledIndex) == a.row
      ensures forall i, c :: 0 <= i < MAX_REGISTERED_LEDS && i != ledIndex && 0 <= c < MAX_PINS_PER_LED ==>
                ledChannels[i, c] == old(ledChannels[i, c])
    {
      ghost var a0 := Allocation(RowAt(ledIndex), channel, [false, false, false]);
      ConfigurePin(PIN_RED_INDEX, config.rGpio, a0);
      ghost var a1 := AssignSlot(a0, PIN_RED_INDEX, config.rGpio);
      ConfigurePin(PIN_GREEN_INDEX, config.gGpio, a1);
      ghost var a2 := AssignSlot(a1, PIN_GREEN_INDEX, config.gGpio);
      ConfigurePin(PIN_BLUE_INDEX, config.bGpio, a2);
    }

    /** The `EVENT_REGISTER` case. The row `_ledIndex` is written without a
        bounds check, which is only defined while the handle is inside the
        table or no channel will be assigned. The reply is the handle before
        the increment, which wraps like the source's `uint8_t`. */
    method HandleRegister(config: LedConfig, responseQueue: QueueContext<uint8>, now: Tick)
      requires Valid()
      requires ledIndex < MAX_REGISTERED_LEDS || channel == LEDC_CHANNEL_MAX ||
               (config.rGpio == LED_NO_PIN && config.gGpio == LED_NO_PIN && config.bGpio == LED_NO_PIN)
      requires responseQueue.pQueueHandle != null
      requires responseQueue.pQueueHandle.handle != null ==> responseQueue.pQueueHandle.handle.Valid()
      modifies this, ledChannels, responseQueue.pQueueHandle.handle
      ensures Valid() && writes == old(writes)
      ensures var a := AllocateRow(old(RowAt(ledIndex)), config, old(channel));
        channel == a.channel && RowAt(old(ledIndex)) == a.row
      ensures forall i, c :: 0 <= i < MAX_REGISTERED_LEDS && i != old(ledIndex) && 0 <= c < MAX_PINS_PER_LED ==>
                ledChannels[i, c] == old(ledChannels[i, c])
      ensures ledIndex == (old(ledIndex) + 1) % 256
      ensures var ctx := responseQueue; var q := ctx.pQueueHandle.handle;
        q != null ==> q.Valid() && q.items == SafeSendEffect(IsQueueReadyForSending(q, ctx.creationTime, ctx.expirationTime, now),
                                                             q.capacity, old(q.items), old(ledIndex))
    {
      AllocateLed(config);
      var _ := QueueSendSafe(responseQueue, ledIndex, now);
      ledIndex := (ledIndex + 1) % 256;
    }

    /** The `EVENT_SET_SOLID` case: one duty update per colour slot of the
        LED that holds a channel. A handle past the table is an
        out-of-bounds read in the source. */
    method HandleSetSolid(p: LedParams)
      requires Valid() && p.ledHandle < MAX_REGISTERED_LEDS
      modifies this`writes
      ensures Valid()
      ensures writes == old(writes) + SolidWrites(RowAt(p.ledHandle), p, MAX_PINS_PER_LED)
    {
      ghost var row := RowAt(p.ledHandle);
      var colorIndex := 0;
      while colorIndex < MAX_PINS_PER_LED
        invariant colorIndex <= MAX_PINS_PER_LED
        invariant writes == old(writes) + SolidWrites(row, p, colorIndex)
      {
        var ch := ledChannels[p.ledHandle, colorIndex];
        if ch < LEDC_CHANNEL_MAX {
          var dutyCycle := DutyCycle(SingleColor(p.rgbColor, colorIndex), colorIndex);
          if p.fade {
            writes := writes + [FadeTo(ch, dutyCycle, p.delayToFade)];
          } else {
            writes := writes + [SetDuty(ch, dutyCycle)];
          }
        }
        colorIndex := colorIndex + 1;
      }
    }

    /** The preconditions an event's case needs. */
    ghost predicate Handles(ev: LedEvent)
      reads this
    {
      match ev
      case Register(config, ctx) =>
        (ledIndex < MAX_REGISTERED_LEDS || channel == LEDC_CHANNEL_MAX ||
         (config.rGpio == LED_NO_PIN && config.gGpio == LED_NO_PIN && config.bGpio == LED_NO_PIN)) &&
        ctx.pQueueHandle != null
      case SetSolid(p) => p.ledHandle < MAX_REGISTERED_LEDS
      case _ => true
    }

    /** The switch of `vLED_Process`: `EVENT_SET_BLINKING` and
        `EVENT_SET_OFF` are empty cases. */
    method Process(ev: LedEvent, now: Tick)
      requires Valid() && Handles(ev)
      requires ev.Register? && ev.responseQueue.pQueueHandle.handle != null ==> ev.responseQueue.pQueueHandle.handle.Valid()
      modifies this, ledChannels, if ev.Register? then {ev.responseQueue.pQueueHandle.handle} else {}
      ensures Valid()
      ensures ev.Register? ==>
                var a := AllocateRow(old(RowAt(ledIndex)), ev.config, old(channel));
                channel == a.channel && RowAt(old(ledIndex)) == a.row &&
                ledIndex == (old(ledIndex) + 1) % 256 && writes == old(writes)
      ensures ev.Register? ==>
                forall i, c :: 0 <= i < MAX_REGISTERED_LEDS && i != old(ledIndex) && 0 <= c < MAX_PINS_PER_LED ==>
                  ledChannels[i, c] == old(ledChannels[i, c])
      ensures ev.Register? ==>
                var ctx := ev.responseQueue; var q := ctx.pQueueHandle.handle;
                q != null ==> q.Valid() && q.items == SafeSendEffect(IsQueueReadyForSending(q, ctx.creationTime, ctx.expirationTime, now),
                                                                     q.capacity, old(q.items), old(ledIndex))
      ensures (ev.SetBlinking? || ev.SetOff?) ==>
                channel == old(channel) && ledIndex == old(ledIndex) && writes == old(writes) &&
                unchanged(ledChannels)
      ensures ev.SetSolid? ==>
                writes == old(writes) + SolidWrites(RowAt(ev.params.ledHandle), ev.params, MAX_PINS_PER_LED) &&
                unchanged(ledChannels) && channel == old(channel) && ledIndex == old(ledIndex)
    {
      match ev {
        case Register(config, ctx) =>
          HandleRegister(config, ctx, now);
        case SetSolid(p) =>
          HandleSetSolid(p);
        case SetBlinking(_) =>
        case SetOff(_) =>
      }
    }

    /** One iteration of the task loop: the oldest queued event, if any,
        is taken and handled. */
    method ProcessNext(now: Tick) returns (received: Option<LedEvent>)
      requires Valid()
      requires inbox.items != [] ==> Handles(inbox.items[0])
      requires inbox.items != [] && inbox.items[0].Register? && inbox.items[0].responseQueue.pQueueHandle.handle != null ==>
                 inbox.items[0].responseQueue.pQueueHandle.handle.Valid()
      modifies this, ledChannels, inbox
      modifies if inbox.items != [] && inbox.items[0].Register? then {inbox.items[0].responseQueue.pQueueHandle.handle} else {}
      ensures Valid()
      ensures old(inbox.items) == [] ==>
                received == None && inbox.items == [] && writes == old(writes) && channel == old(channel) &&
                ledIndex == old(ledIndex) && unchanged(ledChannels)
      ensures old(inbox.items) != [] ==>
                received == Some(old(inbox.items)[0]) && inbox.items == old(inbox.items)[1..]
      ensures received.Some? && received.value.Register? ==>
                var a := AllocateRow(old(RowAt(ledIndex)), received.value.config, old(channel));
                channel == a.channel && RowAt(old(ledIndex)) == a.row &&
                ledIndex == (old(ledIndex) + 1) % 256 && writes == old(writes)
      ensures received.Some? && received.value.Register? ==>
                forall i, c :: 0 <= i < MAX_REGISTERED_LEDS && i != old(ledIndex) && 0 <= c < MAX_PINS_PER_LED ==>
                  ledChannels[i, c] == old(ledChannels[i, c])
      ensures received.Some? && received.value.Register? ==>
                var ctx := received.value.responseQueue; var q := ctx.pQueueHandle.handle;
                q != null ==> q.Valid() && q.items == SafeSendEffect(IsQueueReadyForSending(q, ctx.creationTime, ctx.expirationTime, now),
                                                                     q.capacity, old(q.items), old(ledIndex))
      ensures received.Some? && received.value.SetSolid? ==>
                writes == old(writes) + SolidWrites(RowAt(received.value.params.ledHandle), received.value.params, MAX_PINS_PER_LED) &&
                unchanged(ledChannels) && channel == old(channel) && ledIndex == old(ledIndex)
      ensures received.Some? && (received.value.SetBlinking? || received.value.SetOff?) ==>
                channel == old(channel) && ledIndex == old(ledIndex) && writes == old(writes) &&
                unchanged(ledChannels)
    {
      received := inbox.Receive();
      if received.Some? {
        Process(received.value, now);
      }
    }

    /** `u8LED_RegisterLed`: a synchronous registration request to the
        driver's queue; the handle replied in time, or `LED_NO_HANDLE` when
        the request could not be queued or no reply came. */
    method RegisterLed(rGpio: uint32, gGpio: uint32, bGpio: uint32, now: Tick, reply: Option<uint8>)
      returns (ledHandle: uint8)
      requires Valid()
      modifies inbox
      ensures Valid()
      ensures |old(inbox.items)| < LED_QUEUE_SIZE && reply.Some? ==> ledHandle == reply.value
      ensures !(|old(inbox.items)| < LED_QUEUE_SIZE && reply.Some?) ==> ledHandle == LED_NO_HANDLE
      ensures |old(inbox.items)| < LED_QUEUE_SIZE ==>
                |inbox.items| == |old(inbox.items)| + 1 && inbox.items[..|old(inbox.items)|] == old(inbox.items) &&
                var ev := inbox.items[|old(inbox.items)|];
                ev.Register? && ev.config == LedConfig(rGpio, gGpio, bGpio) &&
                ev.responseQueue.creationTime == now && ev.responseQueue.expirationTime == TASK_DEFAULT_RESPONSE_TIME_TICKS
      ensures |old(inbox.items)| >= LED_QUEUE_SIZE ==> inbox.items == old(inbox.items)
    {
      var ok, response, _ := SendToTaskAndWaitResponse(inbox,
        (ctx: QueueContext<uint8>) => Register(LedConfig(rGpio, gGpio, bGpio), ctx),
        TASK_DEFAULT_RESPONSE_TIME_TICKS, now, reply);
      ledHandle := if ok then response.value else LED_NO_HANDLE;
    }

    /** `vLED_SetLedSolid`: the request goes to the back of the driver's
        queue, if there is room. */
    method SetLedSolid(ledHandle: uint8, rgbColor: uint32, fade: bool, delayToFadeMs: uint32) returns (ok: bool)
      requires Valid()
      modifies inbox
      ensures Valid()
      ensures ok <==> |old(inbox.items)| < LED_QUEUE_SIZE
      ensures inbox.items == if ok then old(inbox.items) + [SetSolid(LedParams(ledHandle, rgbColor, fade, delayToFadeMs, 0))]
                             else old(inbox.items)
    {
      ok := inbox.Send(SetSolid(LedParams(ledHandle, rgbColor, fade, delayToFadeMs, 0)));
    }
  }
}
