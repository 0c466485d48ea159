/** The sequence scheduler (main/applications/src/sequenceManager.c): a task
    that records up to fifty movements, plays them back one at a time on
    request, and forwards each movement to the executor together with the
    callback that asks for the next one. */
module SequenceManager {
  import opened OsUtils
  import opened MovementManager

  const SEQUENCE_MAX_SIZE: nat := 50
  const SEQUENCE_QUEUE_SIZE: nat := 5

  /** The completion callback handed to `vMVT_Move`: none, or
      `endOfMovementCallback`. */
  datatype Callback = NoCallback | EndOfMovement

  /** A `vMVT_Move(movement, callback)` call made by the scheduler. */
  datatype MoveRequest = MoveRequest(movement: Movement, endCallback: Callback)

  /** `sequenceEvent_t`: the event type, with the movement for ADD. */
  datatype SequenceEvent =
    | AddNewMovement(movement: Movement)
    | RemoveLastMovement
    | LaunchSequence
    | AbortSequence
    | EndOfCurrentMovement

  /** The scheduler's static state: `_sequence`, `_sequenceLength`,
      `_sequenceReadIndex`. */
  datatype SequenceState = SequenceState(sequence: seq<Movement>, length: nat, readIndex: nat)

  /** The buffer has its fifty slots, and neither counter is past it. */
  predicate Wf(s: SequenceState)
  {
    |s.sequence| == SEQUENCE_MAX_SIZE && s.length <= SEQUENCE_MAX_SIZE && s.readIndex <= SEQUENCE_MAX_SIZE
  }

  /** The state before the first event: every slot holds Stop. */
  const INITIAL_STATE: SequenceState := SequenceState(seq(SEQUENCE_MAX_SIZE, _ => Stop), 0, 0)

  /** The event's array access stays inside `_sequence`: the code writes
      `_sequence[_sequenceLength]` on ADD without a bounds check, and reads
      `_sequence[_sequenceReadIndex]` on END whenever the read index is at
      most the length. Anything else is undefined behaviour in C. */
  predicate InBounds(s: SequenceState, ev: SequenceEvent)
  {
    match ev
    case AddNewMovement(_) => s.length < SEQUENCE_MAX_SIZE
    case EndOfCurrentMovement => s.readIndex <= s.length ==> s.readIndex < SEQUENCE_MAX_SIZE
    case _ => true
  }

  /** The state after an event, and the moves the event requested. */
  datatype Outcome = Outcome(state: SequenceState, requests: seq<MoveRequest>)

  /** The switch of `vSEQMNGR_Process`, as written. */
  function Next(s: SequenceState, ev: SequenceEvent): (o: Outcome)
    requires Wf(s) && InBounds(s, ev)
    ensures Wf(o.state)
    ensures !ev.AddNewMovement? ==> o.state.sequence == s.sequence
    ensures ev.LaunchSequence? || ev.EndOfCurrentMovement? ==> o.state.length == s.length
    ensures |o.requests| <= 1
  {
    match ev
    case AddNewMovement(m) => Outcome(s.(sequence := s.sequence[s.length := m], length := s.length + 1), [])
    case RemoveLastMovement => Outcome(if s.length > 0 then s.(length := s.length - 1) else s, [])
    case AbortSequence => Outcome(s.(length := 0), [MoveRequest(Stop, NoCallback)])
    case LaunchSequence =>
      if s.length > 0 then Outcome(s.(readIndex := 1), [MoveRequest(s.sequence[0], EndOfMovement)])
      else Outcome(s.(readIndex := 0), [])
    case EndOfCurrentMovement =>
      if s.readIndex <= s.length then
        Outcome(s.(readIndex := s.readIndex + 1), [MoveRequest(s.sequence[s.readIndex], EndOfMovement)])
      else
        Outcome(s.(readIndex := 0), [])
  }

  /** ADD stores the movement at index `length` and increments `length`;
      the other slots and the read index stay, and nothing is sent. */
  lemma AddStores(s: SequenceState, m: Movement)
    requires Wf(s) && s.length < SEQUENCE_MAX_SIZE
    ensures var o := Next(s, AddNewMovement(m));
      o.state.sequence[s.length] == m && o.state.length == s.length + 1 && o.state.readIndex == s.readIndex &&
      (forall j :: 0 <= j < SEQUENCE_MAX_SIZE && j != s.length ==> o.state.sequence[j] == s.sequence[j]) &&
      o.requests == []
  {
  }

  /** REMOVE decrements `length` iff it is positive; the buffer keeps the
      removed movement, and nothing is sent. */
  lemma RemoveDecrements(s: SequenceState)
    requires Wf(s)
    ensures var o := Next(s, RemoveLastMovement);
      o.state.length == (if s.length > 0 then s.length - 1 else 0) &&
      o.state.sequence == s.sequence && o.state.readIndex == s.readIndex && o.requests == []
  {
  }

  /** ABORT sends exactly one Stop without a callback and empties the
      sequence; the buffer and the read index are untouched. */
  lemma AbortStops(s: SequenceState)
    requires Wf(s)
    ensures var o := Next(s, AbortSequence);
      o.requests == [MoveRequest(Stop, NoCallback)] &&
      o.state == SequenceState(s.sequence, 0, s.readIndex)
  {
  }

  /** LAUNCH restarts from the first slot: with a non-empty sequence it
      sends `sequence[0]` with the end callback and leaves the read index at
      1, otherwise it sends nothing and leaves it at 0. */
  lemma LaunchStarts(s: SequenceState)
    requires Wf(s)
    ensures var o := Next(s, LaunchSequence);
      o.state.length == s.length && o.state.sequence == s.sequence &&
      (s.length > 0 ==> o.requests == [MoveRequest(s.sequence[0], EndOfMovement)] && o.state.readIndex == 1) &&
      (s.length == 0 ==> o.requests == [] && o.state.readIndex == 0)
  {
  }

  /** END sends the slot at the read index and advances it while the index
      is at most the length (note: at most, not below), and otherwise
      wraps the index to 0 and sends nothing. */
  lemma EndAdvances(s: SequenceState)
    requires Wf(s) && InBounds(s, EndOfCurrentMovement)
    ensures var o := Next(s, EndOfCurrentMovement);
      o.state.length == s.length && o.state.sequence == s.sequence &&
      (s.readIndex <= s.length ==>
         o.requests == [MoveRequest(s.sequence[s.readIndex], EndOfMovement)] && o.state.readIndex == s.readIndex + 1) &&
      (s.readIndex > s.length ==> o.requests == [] && o.state.readIndex == 0)
  {
  }

  /** Editing the sequence never moves the robot. */
  lemma EditsSendNothing(s: SequenceState, ev: SequenceEvent)
    requires Wf(s) && InBounds(s, ev)
    requires ev.AddNewMovement? || ev.RemoveLastMovement?
    ensures Next(s, ev).requests == []
    ensures Next(s, ev).state.readIndex == s.readIndex
  {
  }

  /** The requests that play `ms` back, one per movement, each with the end callback. */
  function Requests(ms: seq<Movement>): (rs: seq<MoveRequest>)
    ensures |rs| == |ms|
    ensures forall i :: 0 <= i < |ms| ==> rs[i] == MoveRequest(ms[i], EndOfMovement)
  {
    if ms == [] then [] else [MoveRequest(ms[0], EndOfMovement)] + Requests(ms[1..])
  }

  /** `n` END events in a row, with the requests they make. Below a full
      buffer every END is inside the array. */
  function Ends(s: SequenceState, n: nat): (o: Outcome)
    requires Wf(s) && s.length < SEQUENCE_MAX_SIZE
    decreases n
    ensures Wf(o.state) && o.state.length == s.length && o.state.sequence == s.sequence
  {
    if n == 0 then Outcome(s, [])
    else
      var o := Next(s, EndOfCurrentMovement);
      var rest := Ends(o.state, n - 1);
      Outcome(rest.state, o.requests + rest.requests)
  }

  /** From read index `i`, `n` END events with `i + n <= length + 1` send
      the slots `i` to `i + n - 1` in order and advance the index by `n`. */
  lemma {:induction false} EndsReplay(s: SequenceState, n: nat)
    requires Wf(s) && s.length < SEQUENCE_MAX_SIZE && s.readIndex + n <= s.length + 1
    decreases n
    ensures Ends(s, n).requests == Requests(s.sequence[s.readIndex..s.readIndex + n])
    ensures Ends(s, n).state == s.(readIndex := s.readIndex + n)
  {
    var ms := s.sequence[s.readIndex..s.readIndex + n];
    if n > 0 {
      var o := Next(s, EndOfCurrentMovement);
      assert o.state == s.(readIndex := s.readIndex + 1);
      EndsReplay(o.state, n - 1);
      assert ms[1..] == o.state.sequence[o.state.readIndex..o.state.readIndex + (n - 1)];
    } else {
      assert ms == [];
    }
  }

  /** Playback as written: LAUNCH and then `length` END events send
      `length + 1` movements, the slots 0 to `length` included, so the slot
      just past the sequence is replayed; the next END wraps to 0. For a
      non-empty sequence below the buffer size. */
  lemma PlaybackAsWritten(s: SequenceState)
    requires Wf(s) && 0 < s.length < SEQUENCE_MAX_SIZE
    ensures var launched := Next(s, LaunchSequence);
      var played := Ends(launched.state, s.length);
      launched.requests + played.requests == Requests(s.sequence[..s.length + 1]) &&
      played.state.readIndex == s.length + 1 &&
      Next(played.state, EndOfCurrentMovement) == Outcome(played.state.(readIndex := 0), [])
  {
    var launched := Next(s, LaunchSequence);
    EndsReplay(launched.state, s.length);
    var ms := s.sequence[..s.length + 1];
    assert ms[1..] == launched.state.sequence[1..1 + s.length];
  }

  /** A removed movement is played anyway: record Forward and Backward,
      remove Backward, launch, and let Forward end; Backward is sent. */
  lemma RemovedMovementReplayed()
    ensures var s1 := Next(INITIAL_STATE, AddNewMovement(Forward)).state;
      var s2 := Next(s1, AddNewMovement(Backward)).state;
      var s3 := Next(s2, RemoveLastMovement).state;
      var launched := Next(s3, LaunchSequence);
      var ended := Next(launched.state, EndOfCurrentMovement);
      s3.length == 1 && launched.requests == [MoveRequest(Forward, EndOfMovement)] &&
      ended.requests == [MoveRequest(Backward, EndOfMovement)]
  {
    var s1 := Next(INITIAL_STATE, AddNewMovement(Forward)).state;
    var s2 := Next(s1, AddNewMovement(Backward)).state;
    assert s2.sequence[1] == Backward;
  }

  /** `ms` recorded by ADD events one after the other. */
  function AddAll(s: SequenceState, ms: seq<Movement>): (o: Outcome)
    requires Wf(s) && s.length + |ms| <= SEQUENCE_MAX_SIZE
    decreases |ms|
    ensures Wf(o.state)
  {
    if ms == [] then Outcome(s, [])
    else
      var o := Next(s, AddNewMovement(ms[0]));
      var rest := AddAll(o.state, ms[1..]);
      Outcome(rest.state, o.requests + rest.requests)
  }

  /** ADD events append their movements in order after the recorded ones,
      and send nothing. */
  lemma {:induction false} AddAllAppends(s: SequenceState, ms: seq<Movement>)
    requires Wf(s) && s.length + |ms| <= SEQUENCE_MAX_SIZE
    decreases |ms|
    ensures AddAll(s, ms).state.length == s.length + |ms|
    ensures AddAll(s, ms).state.sequence[..s.length + |ms|] == s.sequence[..s.length] + ms
    ensures AddAll(s, ms).state.readIndex == s.readIndex && AddAll(s, ms).requests == []
  {
    if ms != [] {
      var o := Next(s, AddNewMovement(ms[0]));
      AddAllAppends(o.state, ms[1..]);
      assert o.state.sequence[..o.state.length] == s.sequence[..s.length] + [ms[0]];
      assert s.sequence[..s.length] + [ms[0]] + ms[1..] == s.sequence[..s.length] + ms;
    }
  }

  /** The missing bounds check, as written: fifty ADD events fill the
      buffer, and the fifty-first would write `_sequence[50]`, outside the
      array. */
  lemma AddPastCapacity(ms: seq<Movement>, m: Movement)
    requires |ms| == SEQUENCE_MAX_SIZE
    ensures AddAll(INITIAL_STATE, ms).state.length == SEQUENCE_MAX_SIZE
    ensures !InBounds(AddAll(INITIAL_STATE, ms).state, AddNewMovement(m))
  {
    AddAllAppends(INITIAL_STATE, ms);
  }

  /** With a full buffer, the `<=` test makes playback read `_sequence[50]`
      once the read index reaches the length. */
  lemma EndPastFullBuffer(s: SequenceState)
    requires Wf(s) && s.length == SEQUENCE_MAX_SIZE && s.readIndex == SEQUENCE_MAX_SIZE
    ensures !InBounds(s, EndOfCurrentMovement)
  {
  }

  /** The switch as evidently intended: ADD is ignored when the buffer is
      full, and END stops at the last recorded slot. Defined on every
      well-formed state. */
  function NextIntended(s: SequenceState, ev: SequenceEvent): (o: Outcome)
    requires Wf(s)
    ensures Wf(o.state)
    ensures o.state.readIndex <= o.state.length || o.state.readIndex == s.readIndex
  {
    match ev
    case AddNewMovement(m) =>
      if s.length < SEQUENCE_MAX_SIZE then Outcome(s.(sequence := s.sequence[s.length := m], length := s.length + 1), [])
      else Outcome(s, [])
    case EndOfCurrentMovement =>
      if s.readIndex < s.length then
        Outcome(s.(readIndex := s.readIndex + 1), [MoveRequest(s.sequence[s.readIndex], EndOfMovement)])
      else
        Outcome(s.(readIndex := 0), [])
    case _ => Next(s, ev)
  }

  /** The corrected switch agrees with the code on every event the code
      handles correctly. */
  lemma IntendedAgrees(s: SequenceState, ev: SequenceEvent)
    requires Wf(s) && InBounds(s, ev)
    requires ev.EndOfCurrentMovement? ==> s.readIndex != s.length
    ensures NextIntended(s, ev) == Next(s, ev)
  {
  }

  /** An ADD to a full buffer changes nothing and sends nothing. */
  lemma IntendedAddWhenFull(s: SequenceState, m: Movement)
    requires Wf(s) && s.length == SEQUENCE_MAX_SIZE
    ensures NextIntended(s, AddNewMovement(m)) == Outcome(s, [])
  {
  }

  /** `n` END events of the corrected switch. */
  function EndsIntended(s: SequenceState, n: nat): (o: Outcome)
    requires Wf(s)
    decreases n
    ensures Wf(o.state) && o.state.length == s.length && o.state.sequence == s.sequence
  {
    if n == 0 then Outcome(s, [])
    else
      var o := NextIntended(s, EndOfCurrentMovement);
      var rest := EndsIntended(o.state, n - 1);
      Outcome(rest.state, o.requests + rest.requests)
  }

  lemma {:induction false} EndsIntendedReplay(s: SequenceState, n: nat)
    requires Wf(s) && s.readIndex + n <= s.length
    decreases n
    ensures EndsIntended(s, n).requests == Requests(s.sequence[s.readIndex..s.readIndex + n])
    ensures EndsIntended(s, n).state == s.(readIndex := s.readIndex + n)
  {
    var ms := s.sequence[s.readIndex..s.readIndex + n];
    if n > 0 {
      var o := NextIntended(s, EndOfCurrentMovement);
      assert o.state == s.(readIndex := s.readIndex + 1);
      EndsIntendedReplay(o.state, n - 1);
      assert ms[1..] == o.state.sequence[o.state.readIndex..o.state.readIndex + (n - 1)];
    } else {
      assert ms == [];
    }
  }

  /** Playback as intended: LAUNCH and `length - 1` END events send exactly
      the recorded movements in order, also with a full buffer, and the next
      END wraps to 0 and sends nothing. */
  lemma PlaybackIntended(s: SequenceState)
    requires Wf(s) && 0 < s.length
    ensures var launched := NextIntended(s, LaunchSequence);
      var played := EndsIntended(launched.state, s.length - 1);
      launched.requests + played.requests == Requests(s.sequence[..s.length]) &&
      played.state.readIndex == s.length &&
      NextIntended(played.state, EndOfCurrentMovement) == Outcome(played.state.(readIndex := 0), [])
  {
    var launched := NextIntended(s, LaunchSequence);
    EndsIntendedReplay(launched.state, s.length - 1);
    var ms := s.sequence[..s.length];
    assert ms[1..] == launched.state.sequence[1..1 + (s.length - 1)];
  }

  /** The scheduler task: its static buffer and counters, its input queue,
      and the moves it has requested from the executor. */
  class SequenceScheduler {
    const sequence: array<Movement>
    var length: nat
    var readIndex: nat
    var requests: seq<MoveRequest>
    const inbox: Mailbox<SequenceEvent>

    ghost function State(): SequenceState
      reads this, sequence
    {
      SequenceState(sequence[..], length, readIndex)
    }

    ghost predicate Valid()
      reads this, sequence, inbox
    {
      sequence.Length == SEQUENCE_MAX_SIZE && Wf(State()) && inbox.Valid() && inbox.capacity == SEQUENCE_QUEUE_SIZE
    }

    /** The static initialisers and the queue created by `vSEQMNGR_Process`. */
    constructor ()
      ensures Valid() && fresh(sequence) && fresh(inbox)
      ensures State() == INITIAL_STATE && requests == [] && inbox.items == []
    {
      sequence := new Movement[SEQUENCE_MAX_SIZE](_ => Stop);
      length, readIndex := 0, 0;
      requests := [];
      inbox := new Mailbox<SequenceEvent>(SEQUENCE_QUEUE_SIZE);
    }

    /** One event handled by the switch of `vSEQMNGR_Process`. */
    method Process(ev: SequenceEvent)
      requires Valid() && InBounds(State(), ev)
      modifies this, sequence
      ensures Valid()
      ensures State() == Next(old(State()), ev).state
      ensures requests == old(requests) + Next(old(State()), ev).requests
    {
      match ev {
        case AddNewMovement(m) =>
          sequence[length] := m;
          length := length + 1;
        case RemoveLastMovement =>
          if length > 0 {
            length := length - 1;
          }
        case AbortSequence =>
          requests := requests + [MoveRequest(Stop, NoCallback)];
          length := 0;
        case LaunchSequence =>
          readIndex := 0;
          if length > 0 {
            requests := requests + [MoveRequest(sequence[readIndex], EndOfMovement)];
            readIndex := readIndex + 1;
          }
        case EndOfCurrentMovement =>
          if readIndex <= length {
            requests := requests + [MoveRequest(sequence[readIndex], EndOfMovement)];
            readIndex := readIndex + 1;
          } else {
            readIndex := 0;
          }
      }
    }

    /** One iteration of the task loop: the oldest queued event, if any, is
        taken and handled. */
    method ProcessNext() returns (received: Option<SequenceEvent>)
      requires Valid()
      requires inbox.items != [] ==> InBounds(State(), inbox.items[0])
      modifies this, sequence, inbox
      ensures Valid()
      ensures old(inbox.items) == [] ==>
                received == None && inbox.items == [] && State() == old(State()) && requests == old(requests)
      ensures old(inbox.items) != [] ==>
                received == Some(old(inbox.items)[0]) && inbox.items == old(inbox.items)[1..] &&
                State() == Next(old(State()), received.value).state &&
                requests == old(requests) + Next(old(State()), received.value).requests
    {
      received := inbox.Receive();
      if received.Some? {
        Process(received.value);
      }
    }

    /** The enqueue wrappers `vSEQMNGR_AddNewMovement`,
        `vSEQMNGR_RemoveLastMovement`, `vSEQMNGR_LaunchSequence`,
        `vSEQMNGR_AbortSequence` and `endOfMovementCallback`: the event goes
        to the back of the scheduler's queue if there is room. */
    method Post(ev: SequenceEvent) returns (ok: bool)
      requires Valid()
      modifies inbox
      ensures Valid()
      ensures ok <==> |old(inbox.items)| < SEQUENCE_QUEUE_SIZE
      ensures inbox.items == if ok then old(inbox.items) + [ev] else old(inbox.items)
    {
      ok := inbox.Send(ev);
    }

    method AddNewMovementRequest(m: Movement) returns (ok: bool)
      requires Valid()
      modifies inbox
      ensures Valid()
      ensures inbox.items == if ok then old(inbox.items) + [AddNewMovement(m)] else old(inbox.items)
      ensures ok <==> |old(inbox.items)| < SEQUENCE_QUEUE_SIZE
    {
      ok := Post(AddNewMovement(m));
    }

    method RemoveLastMovementRequest() returns (ok: bool)
      requires Valid()
      modifies inbox
      ensures Valid()
      ensures inbox.items == if ok then old(inbox.items) + [RemoveLastMovement] else old(inbox.items)
      ensures ok <==> |old(inbox.items)| < SEQUENCE_QUEUE_SIZE
    {
      ok := Post(RemoveLastMovement);
    }

    method LaunchSequenceRequest() returns (ok: bool)
      requires Valid()
      modifies inbox
      ensures Valid()
      ensures inbox.items == if ok then old(inbox.items) + [LaunchSequence] else old(inbox.items)
      ensures ok <==> |old(inbox.items)| < SEQUENCE_QUEUE_SIZE
    {
      ok := Post(LaunchSequence);
    }

    method AbortSequenceRequest() returns (ok: bool)
      requires Valid()
      modifies inbox
      ensures Valid()
      ensures inbox.items == if ok then old(inbox.items) + [AbortSequence] else old(inbox.items)
      ensures ok <==> |old(inbox.items)| < SEQUENCE_QUEUE_SIZE
    {
      ok := Post(AbortSequence);
    }

    method EndOfMovementCallback() returns (ok: bool)
      requires Valid()
      modifies inbox
      ensures Valid()
      ensures inbox.items == if ok then old(inbox.items) + [EndOfCurrentMovement] else old(inbox.items)
      ensures ok <==> |old(inbox.items)| < SEQUENCE_QUEUE_SIZE
    {
      ok := Post(EndOfCurrentMovement);
    }
  }
}
