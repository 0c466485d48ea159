/** The button classification engine (main/drivers/src/buttons.c): a table
    of at most ten registered buttons, turned from press/release edges and a
    periodic self-poll into trigger bitmaps for the registrants. */
module Buttons {
  import opened OsUtils

  const MAX_BUTTON_NUMBER: nat := 10
  const SHORT_PRESS_TICKS: Tick := 50
  const LONG_PRESS_TICKS: Tick := 3000
  const VERY_LONG_PRESS_TICKS: Tick := 10000
  /** Receive timeout while some button is held (the self-poll period). */
  const CHECK_BUTTONS_DELAY_TICKS: Tick := 100

  /** A `uint32_t` bitmap, as the set of the positions of its one bits:
      `a & b` is `a * b`, `a | b` is `a + b`, `a & ~b` is `a - b`, and the
      value 0 is the empty set. */
  type BitIndex = i: int | 0 <= i < 32
  type Bitmap = set<BitIndex>

  /** Trigger bits (main/drivers/inc/buttons.h): `BIT(0)` to `BIT(4)`. */
  const TRIGGER_NONE: Bitmap := {}
  const TRIGGER_EDGE_PRESSED: Bitmap := {0}
  const TRIGGER_EDGE_RELEASED: Bitmap := {1}
  const TRIGGER_SHORT_PRESS: Bitmap := {2}
  const TRIGGER_LONG_PRESS: Bitmap := {3}
  const TRIGGER_VERY_LONG_PRESS: Bitmap := {4}

  datatype ButtonAction = Release | Press

  /** Only `Released` is ever stored; the other states are never assigned. */
  datatype ButtonState = Released | PressedShort | PressedLong | PressedVeryLong

  /** What a registrant receives: the gpio and the bits that fired. */
  datatype ButtonEvent = ButtonEvent(gpio: uint32, triggerBitmap: Bitmap)

  datatype ButtonConfig = ButtonConfig(gpio: uint32, triggerRegister: Bitmap,
                                       eventQueue: Mailbox?<ButtonEvent>, responseQueue: QueueContext<bool>)

  datatype ButtonContext = ButtonContext(config: ButtonConfig, lastAction: ButtonAction, currentState: ButtonState,
                                         lastActionTimestamp: Tick, eventsTriggered: Bitmap)

  /** A message on the engine's own queue. `Check` is declared by the source
      but never sent; it falls into the `default` branch. */
  datatype ButtonQueueEvent = Isr(gpio: uint32, action: ButtonAction) | Config(config: ButtonConfig) | Check

  /** A send to a registrant's queue, as `_notifyToUpperLayer` issues it. */
  datatype Notification = Notification(queue: Mailbox<ButtonEvent>, event: ButtonEvent)

  /** A table slot before any registration (the source zero-fills the table). */
  const EMPTY_BUTTON: ButtonContext :=
    ButtonContext(ButtonConfig(0, TRIGGER_NONE, null, QueueContext(null, 0, 0)), Release, Released, 0, TRIGGER_NONE)

  /** The duration bit for a press that has lasted `elapsed` ticks: the
      thresholds are strict and tested longest first, so exactly one of the
      four outcomes holds for every duration. */
  function DurationBit(elapsed: Tick): (bit: Bitmap)
    ensures bit == TRIGGER_VERY_LONG_PRESS <==> VERY_LONG_PRESS_TICKS < elapsed
    ensures bit == TRIGGER_LONG_PRESS <==> LONG_PRESS_TICKS < elapsed <= VERY_LONG_PRESS_TICKS
    ensures bit == TRIGGER_SHORT_PRESS <==> SHORT_PRESS_TICKS < elapsed <= LONG_PRESS_TICKS
    ensures bit == TRIGGER_NONE <==> elapsed <= SHORT_PRESS_TICKS
  {
    if elapsed > VERY_LONG_PRESS_TICKS then TRIGGER_VERY_LONG_PRESS
    else if elapsed > LONG_PRESS_TICKS then TRIGGER_LONG_PRESS
    else if elapsed > SHORT_PRESS_TICKS then TRIGGER_SHORT_PRESS
    else TRIGGER_NONE
  }

  /** The bits an edge computes before masking. */
  function EdgeBits(action: ButtonAction, elapsed: Tick): Bitmap
  {
    match action
    case Press => TRIGGER_EDGE_PRESSED
    case Release => TRIGGER_EDGE_RELEASED + DurationBit(elapsed)
  }

  /** A press edge computes exactly EdgePressed; a release edge computes
      EdgeReleased plus at most one duration bit, chosen by the thresholds,
      and never EdgePressed. */
  lemma EdgeBitsShape(action: ButtonAction, elapsed: Tick)
    ensures action == Press ==> EdgeBits(action, elapsed) == TRIGGER_EDGE_PRESSED
    ensures action == Release ==>
              EdgeBits(action, elapsed) == TRIGGER_EDGE_RELEASED + DurationBit(elapsed) &&
              TRIGGER_EDGE_RELEASED !! DurationBit(elapsed) && TRIGGER_EDGE_PRESSED !! EdgeBits(action, elapsed) &&
              |DurationBit(elapsed)| <= 1
  {
  }

  /** The masking rule of both paths: what fires is what was computed, is
      subscribed to and has not fired since the last press edge; everything
      computed and subscribed to has fired by now. */
  function Mask(computed: Bitmap, triggerRegister: Bitmap, eventsTriggered: Bitmap): (emitted: Bitmap)
    ensures emitted <= computed && emitted <= triggerRegister
    ensures emitted !! eventsTriggered
    ensures computed * triggerRegister <= eventsTriggered + emitted
  {
    computed * triggerRegister - eventsTriggered
  }

  /** A button entry after one stimulus, with the bits that stimulus emitted. */
  datatype Reaction = Reaction(button: ButtonContext, emitted: Bitmap)

  /** The edge path for one entry: a press clears `eventsTriggered` first;
      the timestamp and the last action are recorded afterwards. */
  function OnEdge(b: ButtonContext, action: ButtonAction, now: Tick): Reaction
  {
    var before := if action == Press then TRIGGER_NONE else b.eventsTriggered;
    var emitted := Mask(EdgeBits(action, TickSub(now, b.lastActionTimestamp)), b.config.triggerRegister, before);
    Reaction(b.(eventsTriggered := before + emitted, lastActionTimestamp := now, lastAction := action), emitted)
  }

  /** The self-poll for one entry: only a held button is classified; the
      timestamp and the last action are left as they are. */
  function OnPoll(b: ButtonContext, now: Tick): Reaction
  {
    if b.lastAction == Press then
      var emitted := Mask(DurationBit(TickSub(now, b.lastActionTimestamp)), b.config.triggerRegister, b.eventsTriggered);
      Reaction(b.(eventsTriggered := b.eventsTriggered + emitted), emitted)
    else
      Reaction(b, TRIGGER_NONE)
  }

  /** A press edge starts a new press: whatever had fired before is
      forgotten, and EdgePressed fires iff it is subscribed to. */
  lemma PressRearms(b: ButtonContext, now: Tick)
    ensures OnEdge(b, Press, now).emitted == b.config.triggerRegister * TRIGGER_EDGE_PRESSED
    ensures OnEdge(b, Press, now).button.eventsTriggered == OnEdge(b, Press, now).emitted
  {
  }

  /** An edge records `now` and the action; a poll changes neither the
      timestamp nor the last action; neither changes the configuration, and
      a poll of a released button emits nothing and changes nothing. */
  lemma StimulusBookkeeping(b: ButtonContext, action: ButtonAction, now: Tick)
    ensures OnEdge(b, action, now).button.lastActionTimestamp == now
    ensures OnEdge(b, action, now).button.lastAction == action
    ensures OnEdge(b, action, now).button.config == b.config
    ensures OnPoll(b, now).button.lastActionTimestamp == b.lastActionTimestamp
    ensures OnPoll(b, now).button.lastAction == b.lastAction
    ensures OnPoll(b, now).button.config == b.config
    ensures b.lastAction == Release ==> OnPoll(b, now) == Reaction(b, TRIGGER_NONE)
  {
  }

  /** `_notifyToUpperLayer`: one send of `{gpio, bitmap}` iff something fired
      and the registrant gave a queue. */
  function Notify(bitmap: Bitmap, config: ButtonConfig): (sent: seq<Notification>)
    ensures |sent| <= 1
    ensures sent != [] <==> bitmap != TRIGGER_NONE && config.eventQueue != null
    ensures sent != [] ==> sent[0].queue == config.eventQueue && sent[0].event == ButtonEvent(config.gpio, bitmap)
  {
    if bitmap != TRIGGER_NONE && config.eventQueue != null then
      [Notification(config.eventQueue, ButtonEvent(config.gpio, bitmap))]
    else
      []
  }

  /** The first entry of `s` registered for `gpio`. */
  function Lookup(s: seq<ButtonContext>, gpio: uint32): (r: Option<nat>)
    ensures r.Some? ==> r.value < |s| && s[r.value].config.gpio == gpio
    ensures r.Some? ==> forall j :: 0 <= j < r.value ==> s[j].config.gpio != gpio
    ensures r.None? ==> forall j :: 0 <= j < |s| ==> s[j].config.gpio != gpio
  {
    if |s| == 0 then None
    else if s[0].config.gpio == gpio then Some(0)
    else match Lookup(s[1..], gpio)
      case None => None
      case Some(i) => Some(i + 1)
  }

  /** Some registered button's last edge was a press. */
  predicate AnyHeld(s: seq<ButtonContext>)
  {
    exists j :: 0 <= j < |s| && s[j].lastAction == Press
  }

  /** The receive timeout chosen after a loop iteration. */
  function NextBlockTime(s: seq<ButtonContext>): Tick
  {
    if AnyHeld(s) then CHECK_BUTTONS_DELAY_TICKS else PORT_MAX_DELAY
  }

  lemma AnyHeldSnoc(s: seq<ButtonContext>, x: ButtonContext)
    ensures AnyHeld(s + [x]) <==> AnyHeld(s) || x.lastAction == Press
  {
    if x.lastAction == Press {
      assert (s + [x])[|s|] == x;
    }
    if AnyHeld(s) {
      var j :| 0 <= j < |s| && s[j].lastAction == Press;
      assert (s + [x])[j] == s[j];
    }
  }

  /** The poll timeout depends only on the entries' last actions. */
  lemma SameActionsSameBlockTime(s: seq<ButtonContext>, t: seq<ButtonContext>)
    requires |s| == |t|
    requires forall j :: 0 <= j < |s| ==> s[j].lastAction == t[j].lastAction
    ensures NextBlockTime(s) == NextBlockTime(t)
  {
    if AnyHeld(s) {
      var j :| 0 <= j < |s| && s[j].lastAction == Press;
      assert t[j].lastAction == Press;
    }
    if AnyHeld(t) {
      var j :| 0 <= j < |t| && t[j].lastAction == Press;
      assert s[j].lastAction == Press;
    }
  }

  /** The entries after one poll pass over `s`. */
  function PollAll(s: seq<ButtonContext>, now: Tick): seq<ButtonContext>
  {
    if |s| == 0 then [] else PollAll(s[..|s| - 1], now) + [OnPoll(s[|s| - 1], now).button]
  }

  /** A poll pass polls every entry on its own and keeps every last action
      and timestamp. */
  lemma {:induction false} PollAllEntries(s: seq<ButtonContext>, now: Tick)
    ensures |PollAll(s, now)| == |s|
    ensures forall j :: 0 <= j < |s| ==> PollAll(s, now)[j] == OnPoll(s[j], now).button
    ensures forall j :: 0 <= j < |s| ==> PollAll(s, now)[j].lastAction == s[j].lastAction
    ensures forall j :: 0 <= j < |s| ==> PollAll(s, now)[j].lastActionTimestamp == s[j].lastActionTimestamp
  {
    if |s| > 0 {
      PollAllEntries(s[..|s| - 1], now);
    }
  }

  /** The sends of one poll pass over `s`, in table order. */
  function PollLog(s: seq<ButtonContext>, now: Tick): seq<Notification>
  {
    if |s| == 0 then []
    else
      var last := s[|s| - 1];
      PollLog(s[..|s| - 1], now) + Notify(OnPoll(last, now).emitted, last.config)
  }

  /** After a poll pass the timeout rule holds for the polled table as well:
      the period iff some button is held. */
  lemma PollKeepsBlockTime(s: seq<ButtonContext>, now: Tick)
    ensures NextBlockTime(PollAll(s, now)) == NextBlockTime(s)
    ensures NextBlockTime(s) == CHECK_BUTTONS_DELAY_TICKS <==> exists j :: 0 <= j < |s| && s[j].lastAction == Press
  {
    PollAllEntries(s, now);
    SameActionsSameBlockTime(s, PollAll(s, now));
  }

  /** One stimulus for a single button: an edge, or a self-poll. */
  datatype Stimulus = Edge(action: ButtonAction, at: Tick) | PollAt(at: Tick)

  function React(b: ButtonContext, s: Stimulus): Reaction
  {
    match s
    case Edge(action, at) => OnEdge(b, action, at)
    case PollAt(at) => OnPoll(b, at)
  }

  /** The bitmaps emitted by a run of stimuli, and the entry after the run. */
  function EmittedSeq(b: ButtonContext, ss: seq<Stimulus>): seq<Bitmap>
    decreases |ss|
  {
    if |ss| == 0 then [] else [React(b, ss[0]).emitted] + EmittedSeq(React(b, ss[0]).button, ss[1..])
  }

  function AfterRun(b: ButtonContext, ss: seq<Stimulus>): ButtonContext
    decreases |ss|
  {
    if |ss| == 0 then b else AfterRun(React(b, ss[0]).button, ss[1..])
  }

  predicate NoPressEdge(ss: seq<Stimulus>)
  {
    forall k :: 0 <= k < |ss| ==> !(ss[k].Edge? && ss[k].action == Press)
  }

  /** Any stimulus other than a press edge emits only new, subscribed bits,
      adds them to `eventsTriggered`, and keeps the configuration. */
  lemma ReactWithoutPress(b: ButtonContext, s: Stimulus)
    requires !(s.Edge? && s.action == Press)
    ensures React(b, s).emitted !! b.eventsTriggered
    ensures React(b, s).emitted <= b.config.triggerRegister
    ensures React(b, s).button.eventsTriggered == b.eventsTriggered + React(b, s).emitted
    ensures React(b, s).button.config == b.config
  {
  }

  /** Between press edges every trigger category fires at most once: the
      bitmaps emitted by a run without press edges are pairwise disjoint,
      disjoint from what had fired before, subscribed to, and accumulated in
      `eventsTriggered`, which only grows. */
  lemma {:induction false} AtMostOncePerPress(b: ButtonContext, ss: seq<Stimulus>)
    requires NoPressEdge(ss)
    decreases |ss|
    ensures var out := EmittedSeq(b, ss);
      |out| == |ss| && forall i, j :: 0 <= i < j < |out| ==> out[i] !! out[j]
    ensures var out := EmittedSeq(b, ss);
      forall i :: 0 <= i < |out| ==> out[i] !! b.eventsTriggered && out[i] <= b.config.triggerRegister
    ensures var out := EmittedSeq(b, ss);
      forall i :: 0 <= i < |out| ==> out[i] <= AfterRun(b, ss).eventsTriggered
    ensures b.eventsTriggered <= AfterRun(b, ss).eventsTriggered
    ensures AfterRun(b, ss).config == b.config
  {
    if |ss| > 0 {
      var r := React(b, ss[0]);
      ReactWithoutPress(b, ss[0]);
      var tail := ss[1..];
      assert NoPressEdge(tail) by {
        forall k | 0 <= k < |tail| ensures !(tail[k].Edge? && tail[k].action == Press) {
          assert tail[k] == ss[k + 1];
        }
      }
      AtMostOncePerPress(r.button, tail);
      var out, rest := EmittedSeq(b, ss), EmittedSeq(r.button, tail);
      var last := AfterRun(r.button, tail);
      assert out == [r.emitted] + rest;
      assert AfterRun(b, ss) == last;
      forall i, j | 0 <= i < j < |out| ensures out[i] !! out[j] {
        if i == 0 {
          assert out[j] == rest[j - 1];
        } else {
          assert out[i] == rest[i - 1] && out[j] == rest[j - 1];
        }
      }
      forall i | 0 <= i < |out|
        ensures out[i] !! b.eventsTriggered && out[i] <= b.config.triggerRegister && out[i] <= last.eventsTriggered
      {
        if i > 0 {
          assert out[i] == rest[i - 1];
        }
      }
    }
  }

  /** The release edge of a press classifies the press by its duration:
      with EdgeReleased and the duration bit subscribed to and not yet
      fired by the poll, both are emitted. */
  lemma ReleaseClassifies(b: ButtonContext, now: Tick)
    requires TRIGGER_EDGE_RELEASED + DurationBit(TickSub(now, b.lastActionTimestamp)) <= b.config.triggerRegister
    requires DurationBit(TickSub(now, b.lastActionTimestamp)) !! b.eventsTriggered
    requires TRIGGER_EDGE_RELEASED !! b.eventsTriggered
    ensures OnEdge(b, Release, now).emitted == TRIGGER_EDGE_RELEASED + DurationBit(TickSub(now, b.lastActionTimestamp))
  {
  }

  /** The edge path of `vBUT_Process` for one entry, as the source computes
      it: the bits of the edge, masked, saved, and the action recorded. */
  method ClassifyEdge(b: ButtonContext, action: ButtonAction, now: Tick) returns (emitted: Bitmap, after: ButtonContext)
    ensures emitted == OnEdge(b, action, now).emitted && after == OnEdge(b, action, now).button
  {
    after := b;
    var currentEventsTriggered: Bitmap;
    match action {
      case Press =>
        after := after.(eventsTriggered := TRIGGER_NONE);
        currentEventsTriggered := TRIGGER_EDGE_PRESSED;
      case Release =>
        currentEventsTriggered := TRIGGER_EDGE_RELEASED;
        var elapsed := TickSub(now, after.lastActionTimestamp);
        if elapsed > VERY_LONG_PRESS_TICKS {
          currentEventsTriggered := currentEventsTriggered + TRIGGER_VERY_LONG_PRESS;
        } else if elapsed > LONG_PRESS_TICKS {
          currentEventsTriggered := currentEventsTriggered + TRIGGER_LONG_PRESS;
        } else if elapsed > SHORT_PRESS_TICKS {
          currentEventsTriggered := currentEventsTriggered + TRIGGER_SHORT_PRESS;
        }
    }
    currentEventsTriggered := currentEventsTriggered * after.config.triggerRegister;
    currentEventsTriggered := currentEventsTriggered - after.eventsTriggered;
    after := after.(eventsTriggered := after.eventsTriggered + currentEventsTriggered);
    after := after.(lastActionTimestamp := now, lastAction := action);
    emitted := currentEventsTriggered;
  }

  /** The poll path of `vBUT_Process` for one held entry, as the source
      computes it. */
  method ClassifyHeld(b: ButtonContext, now: Tick) returns (emitted: Bitmap, after: ButtonContext)
    requires b.lastAction == Press
    ensures emitted == OnPoll(b, now).emitted && after == OnPoll(b, now).button
  {
    var currentEventsTriggered := TRIGGER_NONE;
    var elapsed := TickSub(now, b.lastActionTimestamp);
    if elapsed > VERY_LONG_PRESS_TICKS {
      currentEventsTriggered := currentEventsTriggered + TRIGGER_VERY_LONG_PRESS;
    } else if elapsed > LONG_PRESS_TICKS {
      currentEventsTriggered := currentEventsTriggered + TRIGGER_LONG_PRESS;
    } else if elapsed > SHORT_PRESS_TICKS {
      currentEventsTriggered := currentEventsTriggered + TRIGGER_SHORT_PRESS;
    }
    currentEventsTriggered := currentEventsTriggered * b.config.triggerRegister;
    currentEventsTriggered := currentEventsTriggered - b.eventsTriggered;
    after := b.(eventsTriggered := b.eventsTriggered + currentEventsTriggered);
    emitted := currentEventsTriggered;
  }

  /** One more entry polled, as the poll loop sees it: the table with the
      first `k` entries polled turns into the one with `k + 1` polled by
      overwriting entry `k`, and the log and the block time grow by that
      entry's share. */
  lemma PollStep(orig: seq<ButtonContext>, k: nat, now: Tick)
    requires k < |orig|
    ensures |PollAll(orig[..k], now)| == k
    ensures (PollAll(orig[..k], now) + orig[k..])[k := OnPoll(orig[k], now).button] ==
            PollAll(orig[..k + 1], now) + orig[k + 1..]
    ensures PollLog(orig[..k + 1], now) ==
            PollLog(orig[..k], now) + Notify(OnPoll(orig[k], now).emitted, orig[k].config)
    ensures NextBlockTime(orig[..k + 1]) ==
            if orig[k].lastAction == Press then CHECK_BUTTONS_DELAY_TICKS else NextBlockTime(orig[..k])
  {
    PollAllEntries(orig[..k], now);
    assert orig[..k + 1] == orig[..k] + [orig[k]];
    assert orig[..k + 1][..k] == orig[..k];
    assert orig[k..] == [orig[k]] + orig[k + 1..];
    AnyHeldSnoc(orig[..k], orig[k]);
  }

  /** The table once all `n` registered entries are polled. */
  lemma PollDone(orig: seq<ButtonContext>, n: nat, now: Tick)
    requires n <= |orig|
    ensures |PollAll(orig[..n], now)| == n
    ensures (PollAll(orig[..n], now) + orig[n..])[..n] == PollAll(orig[..n], now)
    ensures (PollAll(orig[..n], now) + orig[n..])[n..] == orig[n..]
  {
    PollAllEntries(orig[..n], now);
  }

  /** The engine task's state: the table, its fill level, the receive
      timeout of the next loop iteration, and the sends made to registrants. */
  class ButtonEngine {
    var buttonsList: array<ButtonContext>
    var buttonNumber: nat
    var taskBlockTime: Tick
    var notifications: seq<Notification>

    ghost predicate Valid()
      reads this
    {
      buttonsList.Length == MAX_BUTTON_NUMBER && buttonNumber <= MAX_BUTTON_NUMBER
    }

    /** The static table and the task's locals before the first iteration. */
    constructor ()
      ensures Valid() && fresh(buttonsList)
      ensures buttonNumber == 0 && taskBlockTime == PORT_MAX_DELAY && notifications == []
      ensures forall j :: 0 <= j < MAX_BUTTON_NUMBER ==> buttonsList[j] == EMPTY_BUTTON
    {
      buttonsList := new ButtonContext[MAX_BUTTON_NUMBER](_ => EMPTY_BUTTON);
      buttonNumber := 0;
      taskBlockTime := PORT_MAX_DELAY;
      notifications := [];
    }

    /** `_getButtonFromGpio`: the first of the registered entries whose gpio
        matches; no index when none does. */
    method FindButton(gpio: uint32) returns (found: bool, index: nat)
      requires Valid()
      ensures found <==> Lookup(buttonsList[..buttonNumber], gpio).Some?
      ensures found ==> index == Lookup(buttonsList[..buttonNumber], gpio).value
    {
      found, index := false, 0;
      var counter := 0;
      while counter < buttonNumber
        invariant counter <= buttonNumber
        invariant forall j :: 0 <= j < counter ==> buttonsList[j].config.gpio != gpio
      {
        if buttonsList[counter].config.gpio == gpio {
          found, index := true, counter;
          break;
        }
        counter := counter + 1;
      }
      ghost var r := Lookup(buttonsList[..buttonNumber], gpio);
      if found {
        assert buttonsList[..buttonNumber][index].config.gpio == gpio;
        assert r.Some? && r.value <= index;
        assert buttonsList[..buttonNumber][r.value] == buttonsList[r.value];
      } else {
        assert forall j :: 0 <= j < buttonNumber ==> buttonsList[..buttonNumber][j] == buttonsList[j];
      }
    }

    /** The `BUTTON_EVENT_CONFIG` case: a new entry is appended iff the table
        has room, and the result is posted to the requester's reply queue. */
    method Configure(config: ButtonConfig, now: Tick) returns (result: bool)
      requires Valid()
      requires config.responseQueue.pQueueHandle != null
      requires config.responseQueue.pQueueHandle.handle != null ==> config.responseQueue.pQueueHandle.handle.Valid()
      modifies this, buttonsList, config.responseQueue.pQueueHandle.handle
      ensures Valid() && buttonsList == old(buttonsList)
      ensures result <==> old(buttonNumber) < MAX_BUTTON_NUMBER
      ensures result ==> buttonNumber == old(buttonNumber) + 1 &&
                         buttonsList[..] == old(buttonsList[..])[old(buttonNumber) := ButtonContext(config, Release, Released, 0, TRIGGER_NONE)]
      ensures !result ==> buttonNumber == old(buttonNumber) && buttonsList[..] == old(buttonsList[..])
      ensures taskBlockTime == old(taskBlockTime) && notifications == old(notifications)
      ensures var ctx := config.responseQueue; var q := ctx.pQueueHandle.handle;
        q != null ==> q.Valid() && q.items == SafeSendEffect(IsQueueReadyForSending(q, ctx.creationTime, ctx.expirationTime, now),
                                                             q.capacity, old(q.items), result)
    {
      if buttonNumber < MAX_BUTTON_NUMBER {
        buttonsList[buttonNumber] := ButtonContext(config, Release, Released, 0, TRIGGER_NONE);
        buttonNumber := buttonNumber + 1;
        result := true;
      } else {
        result := false;
      }
      var _ := QueueSendSafe(config.responseQueue, result, now);
    }

    /** The `BUTTON_EVENT_ISR` case: the first entry registered for `gpio`
        reacts to the edge and its emitted bits are forwarded; an edge on an
        unregistered gpio changes nothing. */
    method HandleEdge(gpio: uint32, action: ButtonAction, now: Tick)
      requires Valid()
      modifies buttonsList, this`notifications
      ensures Valid()
      ensures var i := Lookup(old(buttonsList[..buttonNumber]), gpio);
        i.None? ==> buttonsList[..] == old(buttonsList[..]) && notifications == old(notifications)
      ensures var i := Lookup(old(buttonsList[..buttonNumber]), gpio);
        i.Some? ==>
          var r := OnEdge(old(buttonsList[i.value]), action, now);
          buttonsList[..] == old(buttonsList[..])[i.value := r.button] &&
          notifications == old(notifications) + Notify(r.emitted, r.button.config)
    {
      var found, index := FindButton(gpio);
      if found {
        var emitted, after := ClassifyEdge(buttonsList[index], action, now);
        buttonsList[index] := after;
        notifications := notifications + Notify(emitted, after.config);
      }
    }

    /** The poll loop's invariant after `counter` entries of the table
        `orig` have been polled, `log0` being the sends made before. */
    ghost predicate PolledUpTo(orig: seq<ButtonContext>, log0: seq<Notification>, counter: nat, now: Tick)
      reads this, buttonsList
    {
      Valid() && counter <= buttonNumber && |orig| == MAX_BUTTON_NUMBER &&
      buttonsList[..] == PollAll(orig[..counter], now) + orig[counter..] &&
      notifications == log0 + PollLog(orig[..counter], now) &&
      taskBlockTime == NextBlockTime(orig[..counter])
    }

    /** One iteration of the poll loop: a held entry is classified, its
        emitted bits forwarded, and it keeps the next receive short. */
    method PollEntry(counter: nat, ghost orig: seq<ButtonContext>, ghost log0: seq<Notification>, now: Tick)
      requires PolledUpTo(orig, log0, counter, now) && counter < buttonNumber
      modifies buttonsList, this`taskBlockTime, this`notifications
      ensures PolledUpTo(orig, log0, counter + 1, now)
    {
      PollStep(orig, counter, now);
      assert buttonsList[counter] == orig[counter];
      if buttonsList[counter].lastAction == Press {
        taskBlockTime := CHECK_BUTTONS_DELAY_TICKS;
        var emitted, after := ClassifyHeld(buttonsList[counter], now);
        buttonsList[counter] := after;
        notifications := notifications + Notify(emitted, after.config);
      } else {
        assert Notify(OnPoll(orig[counter], now).emitted, orig[counter].config) == [];
      }
    }

    /** The self-poll after every iteration: each held button is classified
        in table order, and the next receive timeout is the poll period iff
        some registered button is held. */
    method Poll(now: Tick)
      requires Valid()
      modifies buttonsList, this`taskBlockTime, this`notifications
      ensures Valid()
      ensures buttonsList[..buttonNumber] == PollAll(old(buttonsList[..buttonNumber]), now)
      ensures buttonsList[buttonNumber..] == old(buttonsList[buttonNumber..])
      ensures notifications == old(notifications) + PollLog(old(buttonsList[..buttonNumber]), now)
      ensures taskBlockTime == NextBlockTime(old(buttonsList[..buttonNumber]))
      ensures taskBlockTime == NextBlockTime(buttonsList[..buttonNumber])
    {
      taskBlockTime := PORT_MAX_DELAY;
      ghost var orig := buttonsList[..];
      assert orig[..0] == [];
      var counter := 0;
      while counter < buttonNumber
        invariant PolledUpTo(orig, old(notifications), counter, now)
      {
        PollEntry(counter, orig, old(notifications), now);
        counter := counter + 1;
      }
      PollDone(orig, counter, now);
      assert orig[..counter] == old(buttonsList[..buttonNumber]);
      assert buttonsList[..buttonNumber] == buttonsList[..][..buttonNumber];
      PollAllEntries(orig[..counter], now);
      SameActionsSameBlockTime(old(buttonsList[..buttonNumber]), buttonsList[..buttonNumber]);
    }

    /** The frame of one loop iteration: the reply queue of a configuration
        request, if there is one. */
    ghost function ReplyFrame(received: Option<ButtonQueueEvent>): set<object>
      reads if received.Some? && received.value.Config? then {received.value.config.responseQueue.pQueueHandle} else {}
    {
      if received.Some? && received.value.Config? && received.value.config.responseQueue.pQueueHandle != null &&
         received.value.config.responseQueue.pQueueHandle.handle != null then
        {received.value.config.responseQueue.pQueueHandle.handle}
      else
        {}
    }

    /** One iteration of the task loop: the message received, if any arrived
        before the timeout, is dispatched, then every button is polled. */
    method Step(received: Option<ButtonQueueEvent>, now: Tick)
      requires Valid()
      requires received.Some? && received.value.Config? ==>
                 var ctx := received.value.config.responseQueue;
                 ctx.pQueueHandle != null && (ctx.pQueueHandle.handle != null ==> ctx.pQueueHandle.handle.Valid())
      modifies this, buttonsList, ReplyFrame(received)
      ensures Valid() && buttonsList == old(buttonsList)
      ensures taskBlockTime == NextBlockTime(buttonsList[..buttonNumber])
      ensures |notifications| >= |old(notifications)| && notifications[..|old(notifications)|] == old(notifications)
    {
      match received {
        case None =>
        case Some(ev) =>
          match ev {
            case Config(config) =>
              var _ := Configure(config, now);
            case Isr(gpio, action) =>
              HandleEdge(gpio, action, now);
            case Check =>
          }
      }
      ghost var mid := notifications;
      Poll(now);
      assert notifications[..|mid|] == mid;
    }
  }

  /** `bBUT_RegisterButton`: a synchronous configuration request to the
      engine's queue; true iff it was delivered and the engine answered true.
      The request carries the gpio, the trigger bitmap, the registrant's
      queue and a reply context opened now for 100 ticks. */
  method RegisterButton(queueForButtons: Mailbox?<ButtonQueueEvent>, gpio: uint32, triggerBitmap: Bitmap,
                        eventQueue: Mailbox?<ButtonEvent>, now: Tick, reply: Option<bool>)
    returns (result: bool)
    requires queueForButtons != null ==> queueForButtons.Valid()
    modifies queueForButtons
    ensures result <==> queueForButtons != null && |old(queueForButtons.items)| < queueForButtons.capacity &&
                        reply == Some(true)
    ensures queueForButtons != null ==> queueForButtons.Valid()
    ensures queueForButtons != null && |old(queueForButtons.items)| < queueForButtons.capacity ==>
              |queueForButtons.items| == |old(queueForButtons.items)| + 1 &&
              queueForButtons.items[..|old(queueForButtons.items)|] == old(queueForButtons.items) &&
              var ev := queueForButtons.items[|old(queueForButtons.items)|];
              ev.Config? && ev.config.gpio == gpio && ev.config.triggerRegister == triggerBitmap &&
              ev.config.eventQueue == eventQueue && ev.config.responseQueue.creationTime == now &&
              ev.config.responseQueue.expirationTime == TASK_DEFAULT_RESPONSE_TIME_TICKS
    ensures queueForButtons != null && |old(queueForButtons.items)| >= queueForButtons.capacity ==>
              queueForButtons.items == old(queueForButtons.items)
  {
    var ok, response, _ := SendToTaskAndWaitResponse(queueForButtons,
      (ctx: QueueContext<bool>) => Config(ButtonConfig(gpio, triggerBitmap, eventQueue, ctx)),
      TASK_DEFAULT_RESPONSE_TIME_TICKS, now, reply);
    result := ok && response.value;
  }
}
