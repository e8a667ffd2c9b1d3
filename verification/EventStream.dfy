/** Durable event subscriptions: a replayed page, a pump task that polls the log
and fills a bounded channel, and a consumer that may be cut off and resume.

The log only grows; its events are numbered from 1. Every interleaving of log
appends, pump steps and consumer steps is a sequence of `Action`s. */
module EventStream {
  import opened Options

  datatype Event = Event(sequence: nat, body: string)

  predicate Numbered(log: seq<Event>) {
    forall i | 0 <= i < |log| :: log[i].sequence == i + 1
  }

  // ----------------------------------------------------------- the durable log

  /** The stored events after a cursor, in order. */
  function After(log: seq<Event>, cursor: nat): (r: seq<Event>) {
    if log == [] then []
    else After(log[..|log| - 1], cursor) + if log[|log| - 1].sequence > cursor then [log[|log| - 1]] else []
  }

  /** A page of at most `limit` events after a cursor, and where the next page
  starts if there is more. */
  function ListEvents(log: seq<Event>, cursor: nat, limit: nat): (r: (seq<Event>, Option<nat>))
    requires limit > 0
  {
    var rows := After(log, cursor);
    if |rows| > limit then (rows[..limit], Some(rows[limit - 1].sequence)) else (rows, None)
  }

  /** `frames` is the run of the log right after `start`. */
  predicate IsRun(log: seq<Event>, start: nat, frames: seq<Event>) {
    && (frames != [] ==> start + |frames| <= |log|)
    && forall i | 0 <= i < |frames| :: frames[i] == log[start + i]
  }

  lemma {:induction false} AfterIsSuffix(log: seq<Event>, cursor: nat)
    requires Numbered(log)
    ensures After(log, cursor) == if cursor <= |log| then log[cursor..] else []
  {
    if log != [] {
      var front := log[..|log| - 1];
      AfterIsSuffix(front, cursor);
      if cursor < |log| {
        assert log[cursor..] == front[cursor..] + [log[|log| - 1]];
      }
    }
  }

  lemma {:induction false} PageIsRun(log: seq<Event>, cursor: nat, limit: nat)
    requires Numbered(log) && limit > 0
    ensures var page := ListEvents(log, cursor, limit).0;
            && IsRun(log, cursor, page)
            && |page| <= limit
            && (page == [] <==> |log| <= cursor)
  {
    AfterIsSuffix(log, cursor);
  }

  // ------------------------------------------------------------- the protocol

  datatype Failure = StorageFailed | BadFrame | SlowConsumer

  /** The pump: about to poll, sending the rest of a page, returned but still
  holding its end of the channel, or gone. */
  datatype Pump = Polling | Sending(page: seq<Event>) | Closing | Closed

  const PUMP_PAGE_SIZE: nat := 64

  /** The last three fields are the consumer's history: the frames it was given,
  the faults it was given, and how often it was told the stream is over. */
  datatype State = State(
    log: seq<Event>,
    start: nat,               // cursor the subscription was opened at
    capacity: nat,
    replay: seq<Event>,
    channel: seq<Event>,
    pump: Pump,
    pumpCursor: nat,
    slot: Option<Failure>,    // worker error, taken at most once
    cause: Option<Failure>,   // why the pump stopped, kept for specification
    cursor: nat,
    dropped: bool,
    frames: seq<Event>,
    faults: seq<Failure>,
    ends: nat)

  datatype Action =
    | Append(body: string)
    | Poll(stored: bool)      // whether the store answered
    | Send(framable: bool)    // whether the event passed the frame checks
    | Close
    | Receive
    | Drop

  /** Opening a subscription: replay one page, then pump from its end. */
  function Subscribe(log: seq<Event>, cursor: nat, limit: nat, capacity: nat): (s: State)
    requires limit > 0
  {
    var (page, next) := ListEvents(log, cursor, limit);
    var from := if page != [] then page[|page| - 1].sequence else if next.Some? then next.value else cursor;
    State(log, cursor, capacity, page, [], Polling, from, None, None, cursor, false, [], [], 0)
  }

  function Stop(s: State, failure: Failure): State {
    s.(pump := Closing, slot := Some(failure), cause := Some(failure))
  }

  function PollStep(s: State, stored: bool): (r: Option<State>) {
    if !s.pump.Polling? then None
    else if s.dropped then Some(s.(pump := Closing))
    else if !stored then Some(Stop(s, StorageFailed))
    else
      var page := ListEvents(s.log, s.pumpCursor, PUMP_PAGE_SIZE).0;
      Some(if page == [] then s else s.(pump := Sending(page)))
  }

  function SendStep(s: State, framable: bool): (r: Option<State>) {
    if !s.pump.Sending? || s.pump.page == [] then None
    else if s.dropped then Some(s.(pump := Closing))
    else if !framable then Some(Stop(s, BadFrame))
    else
      var event, rest := s.pump.page[0], s.pump.page[1..];
      var moved := s.(pumpCursor := event.sequence);
      if |s.channel| >= s.capacity then Some(Stop(moved, SlowConsumer))
      else Some(moved.(channel := s.channel + [event], pump := if rest == [] then Polling else Sending(rest)))
  }

  function ReceiveStep(s: State): (r: Option<State>) {
    if s.dropped then None
    else if s.replay != [] then
      Some(s.(replay := s.replay[1..], cursor := s.replay[0].sequence, frames := s.frames + [s.replay[0]]))
    else if s.channel != [] then
      Some(s.(channel := s.channel[1..], cursor := s.channel[0].sequence, frames := s.frames + [s.channel[0]]))
    else if !s.pump.Closed? then None
    else if s.slot.Some? then Some(s.(slot := None, faults := s.faults + [s.slot.value]))
    else Some(s.(ends := s.ends + 1))
  }

  /** One atomic step, or none if the action is not enabled. */
  function Step(s: State, a: Action): (r: Option<State>) {
    match a
    case Append(body) => Some(s.(log := s.log + [Event(|s.log| + 1, body)]))
    case Poll(stored) => PollStep(s, stored)
    case Send(framable) => SendStep(s, framable)
    case Close => if s.pump.Closing? then Some(s.(pump := Closed)) else None
    case Receive => ReceiveStep(s)
    case Drop => if s.dropped then None else Some(s.(dropped := true))
  }

  function Run(s: State, actions: seq<Action>): (r: Option<State>)
    decreases |actions|
  {
    if actions == [] then Some(s)
    else match Step(s, actions[0])
      case Some(next) => Run(next, actions[1..])
      case None => None
  }

  // --------------------------------------------------------------- invariant

  function OptionSeq<T>(o: Option<T>): seq<T> {
    if o.Some? then [o.value] else []
  }

  predicate Live(s: State) {
    s.pump.Polling? || s.pump.Sending?
  }

  /** The stream has said something other than a frame. */
  predicate Finished(s: State) {
    s.faults != [] || s.ends > 0
  }

  /** Delivered, replayable, buffered and paged frames are consecutive runs. */
  predicate Delivery(s: State) {
    && Numbered(s.log)
    && |s.channel| <= s.capacity
    && IsRun(s.log, s.start, s.frames)
    && s.cursor == s.start + |s.frames|
    && IsRun(s.log, s.cursor, s.replay)
    && IsRun(s.log, s.cursor + |s.replay|, s.channel)
    && (Live(s) ==> s.pumpCursor == s.cursor + |s.replay| + |s.channel|)
    && (s.pump.Sending? ==> s.pump.page != [] && IsRun(s.log, s.pumpCursor, s.pump.page))
  }

  /** The pump's failure is in the slot or was surfaced, once, after everything
  buffered. */
  predicate Faulting(s: State) {
    && (s.slot.Some? ==> s.faults == [] && s.cause == s.slot)
    && (s.slot.None? ==> s.faults == OptionSeq(s.cause))
    && (Live(s) ==> s.cause.None?)
    && (Finished(s) ==> s.pump.Closed? && s.slot.None? && s.replay == [] && s.channel == [])
  }

  predicate Inv(s: State) {
    s.capacity > 0 && Delivery(s) && Faulting(s)
  }

  lemma {:induction false} RunHead(log: seq<Event>, at: nat, frames: seq<Event>)
    requires IsRun(log, at, frames) && frames != []
    ensures at < |log| && frames[0] == log[at] && IsRun(log, at + 1, frames[1..])
  {
  }

  lemma {:induction false} RunPush(log: seq<Event>, at: nat, frames: seq<Event>)
    requires IsRun(log, at, frames) && at + |frames| < |log|
    ensures IsRun(log, at, frames + [log[at + |frames|]])
  {
  }

  lemma {:induction false} RunGrows(log: seq<Event>, log': seq<Event>, at: nat, frames: seq<Event>)
    requires IsRun(log, at, frames) && log <= log'
    ensures IsRun(log', at, frames)
  {
  }

  lemma {:induction false} RunJoin(log: seq<Event>, at: nat, frames: seq<Event>, more: seq<Event>)
    requires IsRun(log, at, frames) && IsRun(log, at + |frames|, more)
    ensures IsRun(log, at, frames + more)
  {
  }

  lemma {:induction false} SubscribeEstablishes(log: seq<Event>, cursor: nat, limit: nat, capacity: nat)
    requires Numbered(log) && limit > 0 && capacity > 0
    ensures Inv(Subscribe(log, cursor, limit, capacity))
  {
    PageIsRun(log, cursor, limit);
    AfterIsSuffix(log, cursor);
  }

  lemma {:induction false} AppendKeepsInv(s: State, body: string)
    requires Inv(s)
    ensures Inv(s.(log := s.log + [Event(|s.log| + 1, body)]))
  {
  }

  lemma {:induction false} PollKeepsInv(s: State, stored: bool)
    requires Inv(s) && PollStep(s, stored).Some?
    ensures Inv(PollStep(s, stored).value)
  {
    PageIsRun(s.log, s.pumpCursor, PUMP_PAGE_SIZE);
  }

  lemma {:induction false} SendKeepsInv(s: State, framable: bool)
    requires Inv(s) && SendStep(s, framable).Some?
    ensures Inv(SendStep(s, framable).value)
  {
    RunHead(s.log, s.pumpCursor, s.pump.page);
    if |s.channel| < s.capacity {
      RunPush(s.log, s.cursor + |s.replay|, s.channel);
    }
  }

  lemma {:induction false} ReplayKeepsInv(s: State)
    requires Inv(s) && s.replay != []
    ensures Inv(s.(replay := s.replay[1..], cursor := s.replay[0].sequence, frames := s.frames + [s.replay[0]]))
  {
  }

  lemma {:induction false} ChannelKeepsInv(s: State)
    requires Inv(s) && s.replay == [] && s.channel != []
    ensures Inv(s.(channel := s.channel[1..], cursor := s.channel[0].sequence, frames := s.frames + [s.channel[0]]))
  {
  }

  lemma {:induction false} EndKeepsInv(s: State)
    requires Inv(s) && s.replay == [] && s.channel == [] && s.pump.Closed?
    ensures s.slot.Some? ==> Inv(s.(slot := None, faults := s.faults + [s.slot.value]))
    ensures s.slot.None? ==> Inv(s.(ends := s.ends + 1))
  {
  }

  lemma {:induction false} ReceiveKeepsInv(s: State)
    requires Inv(s) && ReceiveStep(s).Some?
    ensures Inv(ReceiveStep(s).value)
  {
    if s.replay != [] {
      ReplayKeepsInv(s);
    } else if s.channel != [] {
      ChannelKeepsInv(s);
    } else {
      EndKeepsInv(s);
    }
  }

  lemma {:induction false} StopKeepsInv(s: State)
    requires Inv(s)
    ensures s.pump.Closing? ==> Inv(s.(pump := Closed))
    ensures Inv(s.(dropped := true))
  {
  }

  /** Every step keeps the invariant. */
  lemma {:induction false} StepKeepsInv(s: State, a: Action)
    requires Inv(s) && Step(s, a).Some?
    ensures Inv(Step(s, a).value)
  {
    match a
    case Append(body) => AppendKeepsInv(s, body);
    case Poll(stored) => PollKeepsInv(s, stored);
    case Send(framable) => SendKeepsInv(s, framable);
    case Close => StopKeepsInv(s);
    case Receive => ReceiveKeepsInv(s);
    case Drop => StopKeepsInv(s);
  }

  /** A step only lengthens the log and the history, and once the stream is
  finished adds nothing to the history but ends. */
  lemma {:induction false} StepIsLater(s: State, a: Action)
    requires Faulting(s) && Step(s, a).Some?
    ensures Later(s, Step(s, a).value)
  {
  }

  predicate Later(s: State, t: State) {
    && s.log <= t.log && s.start == t.start
    && s.frames <= t.frames && s.faults <= t.faults && s.ends <= t.ends
    && (Finished(s) ==> s.frames == t.frames && s.cause == t.cause && Finished(t))
    && (s.ends > 0 ==> s.faults == t.faults)
  }

  lemma {:induction false} RunKeepsInv(s: State, actions: seq<Action>)
    requires Inv(s) && Run(s, actions).Some?
    ensures Inv(Run(s, actions).value) && Later(s, Run(s, actions).value)
    decreases |actions|
  {
    if actions != [] {
      var next := Step(s, actions[0]).value;
      StepKeepsInv(s, actions[0]);
      StepIsLater(s, actions[0]);
      RunKeepsInv(next, actions[1..]);
    }
  }

  // ---------------------------------------------------------------- theorems

  /** In every interleaving the frames a subscriber gets are a gap-free,
  duplicate-free, in-order run of the log right after its starting cursor, and
  its cursor names the last of them. */
  lemma {:induction false} DeliveryIsGapFree(log: seq<Event>, cursor: nat, limit: nat, capacity: nat,
                                             actions: seq<Action>)
    requires Numbered(log) && limit > 0 && capacity > 0
    requires Run(Subscribe(log, cursor, limit, capacity), actions).Some?
    ensures var s := Run(Subscribe(log, cursor, limit, capacity), actions).value;
            && (s.frames != [] ==> cursor + |s.frames| <= |s.log| && s.frames == s.log[cursor..cursor + |s.frames|])
            && s.cursor == (if s.frames == [] then cursor else s.frames[|s.frames| - 1].sequence)
  {
    SubscribeEstablishes(log, cursor, limit, capacity);
    RunKeepsInv(Subscribe(log, cursor, limit, capacity), actions);
  }

  /** An abnormal stop of the pump surfaces exactly once and after every frame:
  from the first thing that is not a frame on, nothing is buffered and no frame
  follows; no fault follows an end; and by the first end the fault that stopped
  the pump, if one did, has been shown. */
  lemma {:induction false} FaultSurfacesOnce(log: seq<Event>, cursor: nat, limit: nat, capacity: nat,
                          first: seq<Action>, second: seq<Action>)
    requires Numbered(log) && limit > 0 && capacity > 0
    requires Run(Subscribe(log, cursor, limit, capacity), first).Some?
    requires var s := Run(Subscribe(log, cursor, limit, capacity), first).value; Finished(s) && Run(s, second).Some?
    ensures var s := Run(Subscribe(log, cursor, limit, capacity), first).value;
            var t := Run(s, second).value;
            && s.replay == [] && s.channel == []
            && t.frames == s.frames
            && t.faults == OptionSeq(t.cause)
            && s.faults == OptionSeq(s.cause)
  {
    SubscribeEstablishes(log, cursor, limit, capacity);
    RunKeepsInv(Subscribe(log, cursor, limit, capacity), first);
    RunKeepsInv(Run(Subscribe(log, cursor, limit, capacity), first).value, second);
  }

  function Receives(n: nat): (actions: seq<Action>) {
    if n == 0 then [] else [Receive] + Receives(n - 1)
  }

  /** The pump is gone, its failure has not been shown, and these frames are still
  buffered. */
  predicate Drains(s: State, buffered: seq<Event>) {
    && s.pump.Closed? && !s.dropped && s.slot.Some? && s.slot == s.cause && s.faults == []
    && s.replay + s.channel == buffered
  }

  /** A receive then takes the first buffered frame, or the failure. */
  lemma {:induction false} DrainStep(s: State, buffered: seq<Event>)
    requires Drains(s, buffered)
    ensures ReceiveStep(s).Some?
    ensures var t := ReceiveStep(s).value;
            if buffered == [] then t.frames == s.frames && t.faults == [s.cause.value]
            else t.frames == s.frames + [buffered[0]] && t.cause == s.cause && Drains(t, buffered[1..])
  {
  }

  lemma {:induction false} RunReceives(s: State, n: nat)
    requires ReceiveStep(s).Some?
    ensures Run(s, Receives(n + 1)) == Run(ReceiveStep(s).value, Receives(n))
  {
    assert Receives(n + 1)[1..] == Receives(n);
  }

  lemma {:induction false} DrainSurfaces(s: State, buffered: seq<Event>)
    requires Drains(s, buffered)
    ensures Run(s, Receives(|buffered| + 1)).Some?
    ensures var t := Run(s, Receives(|buffered| + 1)).value;
            t.frames == s.frames + buffered && t.faults == [s.cause.value]
    decreases |buffered|
  {
    DrainStep(s, buffered);
    RunReceives(s, |buffered|);
    if buffered != [] {
      DrainSurfaces(ReceiveStep(s).value, buffered[1..]);
      assert s.frames + [buffered[0]] + buffered[1..] == s.frames + buffered;
    } else {
      assert Receives(0) == [];
    }
  }

  /** An abnormal stop does surface: in any reachable state in which the pump has
  stopped for a cause not shown yet, the pump's end going away and one receive per
  buffered frame and one more give the consumer every buffered frame and then that
  cause. */
  lemma {:induction false} AbnormalStopSurfaces(s: State) returns (actions: seq<Action>)
    requires Inv(s) && s.cause.Some? && s.faults == [] && !s.dropped
    ensures |actions| <= |s.replay| + |s.channel| + 2
    ensures Run(s, actions).Some?
    ensures var t := Run(s, actions).value;
            t.frames == s.frames + (s.replay + s.channel) && t.faults == [s.cause.value]
  {
    var buffered := s.replay + s.channel;
    ReceivesLength(|buffered| + 1);
    actions := Receives(|buffered| + 1);
    if s.pump.Closing? {
      DrainSurfaces(s.(pump := Closed), buffered);
      assert ([Close] + actions)[1..] == actions;
      actions := [Close] + actions;
    } else {
      DrainSurfaces(s, buffered);
    }
  }

  // ------------------------------------------------------ why the pump stops

  /** The action meets the failure: a poll the store does not answer, an event that
  cannot be framed, or one that can and meets a full channel. */
  predicate Strikes(s: State, a: Action, failure: Failure) {
    && !s.dropped
    && match failure
       case StorageFailed => s.pump.Polling? && a == Poll(false)
       case BadFrame => s.pump.Sending? && a == Send(false)
       case SlowConsumer => s.pump.Sending? && a == Send(true) && |s.channel| == s.capacity
  }

  /** Unless the consumer went away, a pump that stopped has a cause, and no stream
  ends without having shown it. */
  predicate Explained(s: State) {
    && (!Live(s) && !s.dropped ==> s.cause.Some?)
    && (s.ends > 0 ==> s.faults != [])
  }

  /** A live pump takes on exactly the failure that strikes, and a stopped one keeps
  what it has. */
  lemma {:induction false} StepCause(s: State, a: Action, failure: Failure)
    requires Inv(s) && Step(s, a).Some?
    ensures var t := Step(s, a).value;
            && (Live(s) ==> (t.cause == Some(failure) <==> Strikes(s, a, failure)))
            && (!Live(s) ==> !Live(t) && t.cause == s.cause)
  {
  }

  lemma {:induction false} StepExplained(s: State, a: Action)
    requires Inv(s) && Explained(s) && Step(s, a).Some?
    ensures Explained(Step(s, a).value)
  {
  }

  lemma {:induction false} RunExplained(s: State, actions: seq<Action>)
    requires Inv(s) && Explained(s) && Run(s, actions).Some?
    ensures Explained(Run(s, actions).value)
    decreases |actions|
  {
    if actions != [] {
      StepKeepsInv(s, actions[0]);
      StepExplained(s, actions[0]);
      RunExplained(Step(s, actions[0]).value, actions[1..]);
    }
  }

  /** The failure strikes at action `k` of a run. */
  predicate StruckAt(s: State, actions: seq<Action>, k: nat, failure: Failure)
    requires k < |actions|
  {
    var before := Run(s, actions[..k]);
    before.Some? && Strikes(before.value, actions[k], failure)
  }

  predicate Struck(s: State, actions: seq<Action>, failure: Failure) {
    exists k | 0 <= k < |actions| :: StruckAt(s, actions, k, failure)
  }

  lemma {:induction false} StruckLater(s: State, actions: seq<Action>, k: nat, failure: Failure)
    requires 0 < k < |actions| && Step(s, actions[0]).Some?
    ensures StruckAt(s, actions, k, failure)
       <==> StruckAt(Step(s, actions[0]).value, actions[1..], k - 1, failure)
  {
    assert actions[..k][1..] == actions[1..][..k - 1];
  }

  /** Nothing strikes a stopped pump. */
  lemma {:induction false} StoppedForGood(s: State, actions: seq<Action>)
    requires Inv(s) && !Live(s) && Run(s, actions).Some?
    ensures !Live(Run(s, actions).value) && Run(s, actions).value.cause == s.cause
    decreases |actions|
  {
    if actions != [] {
      StepKeepsInv(s, actions[0]);
      StepCause(s, actions[0], SlowConsumer);
      StoppedForGood(Step(s, actions[0]).value, actions[1..]);
    }
  }

  lemma {:induction false} RunPrefix(s: State, actions: seq<Action>, k: nat)
    requires k <= |actions| && Run(s, actions).Some?
    ensures Run(s, actions[..k]).Some?
    decreases |actions|
  {
    if k > 0 {
      assert actions[..k][1..] == actions[1..][..k - 1];
      RunPrefix(Step(s, actions[0]).value, actions[1..], k - 1);
    }
  }

  lemma {:induction false} NotStruckWhenStopped(s: State, actions: seq<Action>, failure: Failure)
    requires Inv(s) && !Live(s) && Run(s, actions).Some?
    ensures !Struck(s, actions, failure)
  {
    forall k | 0 <= k < |actions| ensures !StruckAt(s, actions, k, failure) {
      RunPrefix(s, actions, k);
      StoppedForGood(s, actions[..k]);
    }
  }

  /** The first action of a run strikes, or a later one does. */
  lemma {:induction false} StruckFirstOrLater(s: State, actions: seq<Action>, failure: Failure)
    requires actions != [] && Step(s, actions[0]).Some?
    ensures Struck(s, actions, failure)
       <==> Strikes(s, actions[0], failure) || Struck(Step(s, actions[0]).value, actions[1..], failure)
  {
    var next, rest := Step(s, actions[0]).value, actions[1..];
    assert actions[..0] == [] && (StruckAt(s, actions, 0, failure) <==> Strikes(s, actions[0], failure));
    if k :| 0 < k < |actions| && StruckAt(s, actions, k, failure) {
      StruckLater(s, actions, k, failure);
    }
    if k :| 0 <= k < |rest| && StruckAt(next, rest, k, failure) {
      StruckLater(s, actions, k + 1, failure);
    }
  }

  lemma {:induction false} CauseIsWhatStruck(s: State, actions: seq<Action>, failure: Failure)
    requires Inv(s) && Live(s) && Run(s, actions).Some?
    ensures Run(s, actions).value.cause == Some(failure) <==> Struck(s, actions, failure)
    decreases |actions|
  {
    if actions != [] {
      var next := Step(s, actions[0]).value;
      StepKeepsInv(s, actions[0]);
      StepCause(s, actions[0], failure);
      StruckFirstOrLater(s, actions, failure);
      if Live(next) {
        CauseIsWhatStruck(next, actions[1..], failure);
      } else {
        StoppedForGood(next, actions[1..]);
        NotStruckWhenStopped(next, actions[1..], failure);
      }
    }
  }

  /** In every interleaving the cause recorded is the failure that struck the pump;
  a pump that stopped has one unless the consumer went away; and a stream that has
  ended has shown it, so no cut-off looks like a plain end. */
  lemma {:induction false} StopsAreExplained(log: seq<Event>, cursor: nat, limit: nat, capacity: nat,
                                             actions: seq<Action>)
    requires Numbered(log) && limit > 0 && capacity > 0
    requires Run(Subscribe(log, cursor, limit, capacity), actions).Some?
    ensures var from := Subscribe(log, cursor, limit, capacity);
            var s := Run(from, actions).value;
            && (forall failure :: s.cause == Some(failure) <==> Struck(from, actions, failure))
            && (!s.dropped && (s.pump.Closing? || s.pump.Closed?) ==> s.cause.Some?)
            && (s.ends > 0 ==> exists failure :: s.faults == [failure] && Struck(from, actions, failure))
  {
    var from := Subscribe(log, cursor, limit, capacity);
    var s := Run(from, actions).value;
    SubscribeEstablishes(log, cursor, limit, capacity);
    RunKeepsInv(from, actions);
    RunExplained(from, actions);
    forall failure ensures s.cause == Some(failure) <==> Struck(from, actions, failure) {
      CauseIsWhatStruck(from, actions, failure);
    }
    if s.ends > 0 {
      assert s.faults == [s.cause.value];
    }
  }

  lemma {:induction false} ReceivesLength(n: nat)
    ensures |Receives(n)| == n
  {
    if n > 0 {
      ReceivesLength(n - 1);
    }
  }

  /** Subscribing again at the cursor, at any later time, continues with the very
  next event: the two deliveries together are one run. */
  lemma {:induction false} ResumeContinues(s: State, later: seq<Event>, limit: nat, capacity: nat, actions: seq<Action>)
    requires Inv(s) && limit > 0 && capacity > 0
    requires s.log <= later && Numbered(later)
    requires Run(Subscribe(later, s.cursor, limit, capacity), actions).Some?
    ensures var t := Run(Subscribe(later, s.cursor, limit, capacity), actions).value;
            IsRun(t.log, s.start, s.frames + t.frames)
  {
    SubscribeEstablishes(later, s.cursor, limit, capacity);
    RunKeepsInv(Subscribe(later, s.cursor, limit, capacity), actions);
    var t := Run(Subscribe(later, s.cursor, limit, capacity), actions).value;
    RunGrows(s.log, t.log, s.start, s.frames);
    RunJoin(t.log, s.start, s.frames, t.frames);
  }

  /** The next event is never out of reach: while the pump lives, at most a poll,
  a send and a receive bring the consumer the event after its cursor. */
  lemma {:induction false} NextEventReachable(s: State) returns (actions: seq<Action>)
    requires Inv(s) && Live(s) && !s.dropped && s.cursor < |s.log|
    ensures |actions| <= 3
    ensures Run(s, actions).Some? && Run(s, actions).value.frames == s.frames + [s.log[s.cursor]]
  {
    if s.replay != [] || s.channel != [] {
      actions := [Receive];
      BufferedIsNext(s);
      RunOne(s, Receive);
    } else {
      var t := s;
      if s.pump.Polling? {
        PageIsRun(s.log, s.pumpCursor, PUMP_PAGE_SIZE);
        t := PollStep(s, true).value;
        PollKeepsInv(s, true);
      }
      var u := SendStep(t, true).value;
      SendKeepsInv(t, true);
      BufferedIsNext(u);
      RunOne(u, Receive);
      actions := [Send(true), Receive];
      assert actions[1..] == [Receive];
      if s.pump.Polling? {
        assert ([Poll(true)] + actions)[1..] == actions;
        actions := [Poll(true)] + actions;
      }
    }
  }

  lemma {:induction false} BufferedIsNext(s: State)
    requires Inv(s) && !s.dropped && (s.replay != [] || s.channel != [])
    ensures s.cursor < |s.log| && ReceiveStep(s).Some?
    ensures ReceiveStep(s).value.frames == s.frames + [s.log[s.cursor]]
  {
  }

  lemma {:induction false} RunOne(s: State, a: Action)
    ensures Run(s, [a]) == Step(s, a)
  {
  }

  // ------------------------------------------------------- the running objects

  /** What asking for the next event gives without waiting. */
  datatype Polled = Frame(event: Event) | Fault(failure: Failure) | End | Pending

  /** A subscription with its pump: the shared channel, the worker's error slot
  and the two cursors, changed by one atomic section at a time. */
  class Subscription {
    var log: seq<Event>
    const start: nat
    const capacity: nat
    var replay: seq<Event>
    var channel: seq<Event>
    var pump: Pump
    var pumpCursor: nat
    var workerError: Option<Failure>
    ghost var cause: Option<Failure>
    var cursor: nat
    var dropped: bool
    ghost var frames: seq<Event>
    ghost var faults: seq<Failure>
    ghost var ends: nat

    ghost function View(): State
      reads this
    {
      State(log, start, capacity, replay, channel, pump, pumpCursor, workerError, cause, cursor, dropped,
            frames, faults, ends)
    }

    constructor (log: seq<Event>, cursor: nat, limit: nat, capacity: nat)
      requires Numbered(log) && limit > 0 && capacity > 0
      ensures View() == Subscribe(log, cursor, limit, capacity) && Inv(View())
    {
      var (page, next) := ListEvents(log, cursor, limit);
      this.log, this.start, this.capacity := log, cursor, capacity;
      this.replay, this.channel := page, [];
      this.pumpCursor :=
        if page != [] then page[|page| - 1].sequence else if next.Some? then next.value else cursor;
      this.pump, this.workerError, this.cause := Polling, None, None;
      this.cursor, this.dropped := cursor, false;
      this.frames, this.faults, this.ends := [], [], 0;
      SubscribeEstablishes(log, cursor, limit, capacity);
    }

    /** The consumer's call: buffered replay, then the channel, then the error. */
    method NextEvent() returns (r: Polled)
      requires Inv(View()) && !dropped
      modifies this
      ensures Inv(View())
      ensures r.Pending? <==> ReceiveStep(old(View())).None?
      ensures View() == if r.Pending? then old(View()) else ReceiveStep(old(View())).value
      ensures r.Frame? ==> frames == old(frames) + [r.event]
      ensures r.Fault? ==> faults == old(faults) + [r.failure]
      ensures r.End? ==> ends == old(ends) + 1
    {
      if ReceiveStep(View()).Some? { ReceiveKeepsInv(View()); }
      if replay != [] {
        r := Frame(replay[0]);
        cursor, frames, replay := replay[0].sequence, frames + [replay[0]], replay[1..];
      } else if channel != [] {
        r := Frame(channel[0]);
        cursor, frames, channel := channel[0].sequence, frames + [channel[0]], channel[1..];
      } else if !pump.Closed? {
        r := Pending;
      } else if workerError.Some? {
        r := Fault(workerError.value);
        faults, workerError := faults + [workerError.value], None;
      } else {
        r := End;
        ends := ends + 1;
      }
    }

    /** Stops the pump with a failure that will surface once. */
    method SetWorkerError(failure: Failure)
      modifies this`workerError, this`cause, this`pump
      ensures View() == Stop(old(View()), failure)
      ensures old(Inv(View()) && Live(View())) ==> Inv(View())
    {
      workerError, cause, pump := Some(failure), Some(failure), Closing;
    }

    /** The pump at the top of its loop. */
    method PollPage(stored: bool)
      requires Inv(View()) && pump.Polling?
      modifies this
      ensures Inv(View()) && PollStep(old(View()), stored) == Some(View())
      ensures workerError == if !stored && !dropped then Some(StorageFailed) else None
    {
      PollKeepsInv(View(), stored);
      if dropped {
        pump := Closing;
      } else if !stored {
        SetWorkerError(StorageFailed);
      } else {
        var page := ListEvents(log, pumpCursor, PUMP_PAGE_SIZE).0;
        if page != [] { pump := Sending(page); }
      }
    }

    /** The pump with an event of its page in hand. */
    method SendFrame(framable: bool)
      requires Inv(View()) && pump.Sending?
      modifies this
      ensures Inv(View()) && SendStep(old(View()), framable) == Some(View())
      ensures workerError == if dropped then None
                             else if !framable then Some(BadFrame)
                             else if old(|channel|) == capacity then Some(SlowConsumer)
                             else None
    {
      SendKeepsInv(View(), framable);
      if dropped {
        pump := Closing;
      } else if !framable {
        SetWorkerError(BadFrame);
      } else {
        var event, rest := pump.page[0], pump.page[1..];
        pumpCursor := event.sequence;
        if |channel| >= capacity {
          SetWorkerError(SlowConsumer);
        } else {
          channel := channel + [event];
          pump := if rest == [] then Polling else Sending(rest);
        }
      }
    }
  }
}
