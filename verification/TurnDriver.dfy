/**
 The turn driver of crates/machine-god-cli/src/ask.rs: it writes model text stop-and-wait to
 an output worker, cancels and drains the turn on a signal or a failure, flushes, and settles
 on an outcome.

 `AskOutcomes` holds signals, outcomes and exit codes. `TurnDriver` holds the driver as the
 state machine between its await points, the structured loops that refine it, and the system
 of driver, output worker and clock over which its guarantees are proved.
 */
module AskOutcomes {
  import opened Shared

  datatype Signal = Interrupt | Terminate | ControlFailed

  datatype PromptError = Missing | TooLong | Invalid | Read

  datatype Outcome =
    | Completed
    | OperationalFailure
    | OutputFailure
    | TerminalRequired
    | PromptInput(error: PromptError)
    | Interrupted
    | Terminated

  function ExitCode(outcome: Outcome): (code: nat)
    ensures code == 130 <==> outcome == Interrupted
    ensures code == 143 <==> outcome == Terminated
  {
    match outcome
    case Completed => 0
    case OperationalFailure | OutputFailure | TerminalRequired | PromptInput(Read) => 1
    case PromptInput(_) => 2
    case Interrupted => 130
    case Terminated => 143
  }

  function SignalOutcome(signal: Signal): (outcome: Outcome)
  {
    match signal
    case Interrupt => Interrupted
    case Terminate => Terminated
    case ControlFailed => OperationalFailure
  }

  function FinalOutcome(outputFailed: bool, requested: Option<Signal>, turnFailed: bool): (outcome: Outcome)
  {
    match requested
    case Some(signal) => SignalOutcome(signal)
    case None => if outputFailed then OutputFailure else if turnFailed then OperationalFailure else Completed
  }
}

module TurnDriver {
  import opened Shared
  import opened AskOutcomes

  type Text = seq<char>

  const SIGNAL_OUTPUT_GRACE: nat := 100

  datatype Event = TextDelta(text: Text) | OtherEvent | CompletedEvent | FailedEvent

  /** One item of the turn stream: an event, an error, or the end of the stream. */
  datatype Item = Next(event: Event) | StreamError | StreamEnd

  datatype Work = Write(text: Text) | Flush

  datatype Acknowledgement = Succeeded | Failed | Closed

  /** What an await point, a send or a clock reading of the driver resolves to. */
  datatype Observation =
    | SignalSeen(signal: Signal)
    | ItemSeen(item: Item)
    | Sent(accepted: bool)
    | AckSeen(ack: Acknowledgement)
    | Clock(now: nat)
    | Expired
    | NoSignal

  datatype Result = Result(outcome: Outcome, stalled: bool)

  datatype Pc =
    | Loop
    | SubmitWrite(text: Text)
    | AwaitWriteAck
    | Draining(thenGrace: bool)
    | GraceStart(flushing: bool)
    | GraceWait(flushing: bool)
    | SubmitFlush
    | AwaitFlushAck
    | LastLook
    | Done(result: Result)

  /** The driver's variables, followed by what it has done so far. */
  datatype Driver = Driver(
    pc: Pc,
    requested: Option<Signal>,
    deadline: Option<nat>,
    outputFailed: bool,
    turnFailed: bool,
    stalled: bool,
    // history
    firstSignal: Option<Signal>,
    consumed: seq<Text>,
    written: seq<Text>,
    flushes: nat,
    cancels: nat,
    settled: bool)

  const START: Driver := Driver(Loop, None, None, false, false, false, None, [], [], 0, 0, false)

  predicate Terminal(item: Item)
  {
    item != Next(OtherEvent) && !(item.Next? && item.event.TextDelta?)
  }

  /** The results the current await point can produce. */
  predicate Accepts(d: Driver, o: Observation)
  {
    match d.pc
    case Loop | Draining(_) => o.SignalSeen? || o.ItemSeen?
    case SubmitWrite(_) | SubmitFlush => o.Sent?
    case AwaitWriteAck | AwaitFlushAck => o.SignalSeen? || o.AckSeen?
    case GraceStart(_) => o.Clock?
    case GraceWait(_) => o.AckSeen? || o.Expired?
    case LastLook => o.SignalSeen? || o.NoSignal?
    case Done(_) => false
  }

  function Finish(d: Driver): (r: Driver)
  {
    d.(pc := Done(Result(FinalOutcome(d.outputFailed, d.requested, d.turnFailed), d.stalled)))
  }

  function EnterLastLook(d: Driver): (r: Driver)
  {
    if d.requested.Some? then Finish(d) else d.(pc := LastLook)
  }

  function EnterFlush(d: Driver): (r: Driver)
  {
    if d.stalled || d.outputFailed then EnterLastLook(d) else d.(pc := SubmitFlush)
  }

  /** Cancel the turn, then drain it. */
  function Cancel(d: Driver, thenGrace: bool): (r: Driver)
  {
    d.(pc := Draining(thenGrace), cancels := d.cancels + 1)
  }

  function Observe(d: Driver, signal: Signal): (r: Driver)
  {
    d.(requested := if d.requested.Some? then d.requested else Some(signal),
       firstSignal := if d.firstSignal.Some? then d.firstSignal else Some(signal))
  }

  function AfterLoopItem(d: Driver, item: Item): (r: Driver)
  {
    match item
    case Next(TextDelta(text)) => d.(pc := SubmitWrite(text), consumed := d.consumed + [text])
    case Next(OtherEvent) => d
    case Next(CompletedEvent) => EnterFlush(d.(settled := true))
    case Next(FailedEvent) => EnterFlush(d.(turnFailed := true, settled := true))
    case StreamError => Cancel(d.(turnFailed := true), false)
    case StreamEnd => EnterFlush(d.(turnFailed := true, settled := true))
  }

  function AfterGrace(d: Driver, flushing: bool): (r: Driver)
  {
    if flushing then EnterLastLook(d) else EnterFlush(d)
  }

  /** One resolved await point moves the driver to the next. */
  function Advance(d: Driver, o: Observation): (r: Driver)
    requires Accepts(d, o)
  {
    match d.pc
    case Loop =>
      if o.SignalSeen? then Cancel(Observe(d, o.signal), false) else AfterLoopItem(d, o.item)
    case SubmitWrite(text) =>
      if o.accepted then d.(pc := AwaitWriteAck, written := d.written + [text])
      else Cancel(d.(outputFailed := true), false)
    case AwaitWriteAck =>
      if o.SignalSeen? then Cancel(Observe(d, o.signal), true)
      else if o.ack.Succeeded? then d.(pc := Loop)
      else Cancel(d.(outputFailed := true), false)
    case Draining(thenGrace) =>
      if o.SignalSeen? then Observe(d, o.signal)
      else if !Terminal(o.item) then d
      else if thenGrace then d.(pc := GraceStart(false), settled := true)
      else EnterFlush(d.(settled := true))
    case GraceStart(flushing) =>
      d.(pc := GraceWait(flushing),
         deadline := if d.deadline.Some? then d.deadline else Some(o.now + SIGNAL_OUTPUT_GRACE))
    case GraceWait(flushing) =>
      if o.Expired? then AfterGrace(d.(stalled := true), flushing)
      else if o.ack.Succeeded? then AfterGrace(d, flushing)
      else AfterGrace(d.(outputFailed := true), flushing)
    case SubmitFlush =>
      if !o.accepted then EnterLastLook(d.(outputFailed := true))
      else d.(flushes := d.flushes + 1,
              pc := if d.requested.Some? then GraceStart(true) else AwaitFlushAck)
    case AwaitFlushAck =>
      if o.SignalSeen? then Observe(d, o.signal).(pc := GraceStart(true))
      else if o.ack.Succeeded? then EnterLastLook(d)
      else EnterLastLook(d.(outputFailed := true))
    case LastLook =>
      if o.SignalSeen? then Finish(Observe(d, o.signal)) else Finish(d)
    case Done(_) => d
  }

  // ----- the structured program refines the state machine -----

  /** Every observation up to position `i` is one the await point before it can produce. */
  predicate Plausible(d: Driver, script: seq<Observation>)
    decreases |script|
  {
    script == [] || (Accepts(d, script[0]) && Plausible(Advance(d, script[0]), script[1..]))
  }

  function Replay(d: Driver, script: seq<Observation>): (r: Driver)
    requires Plausible(d, script)
    decreases |script|
  {
    if script == [] then d else Replay(Advance(d, script[0]), script[1..])
  }

  ghost predicate At(script: seq<Observation>, i: nat, d: Driver)
  {
    && i <= |script|
    && Plausible(START, script)
    && Plausible(d, script[i..])
    && Replay(START, script) == Replay(d, script[i..])
  }

  lemma NextAt(script: seq<Observation>, i: nat, d: Driver)
    requires At(script, i, d) && i < |script|
    ensures Accepts(d, script[i]) && At(script, i + 1, Advance(d, script[i]))
  {
    assert script[i..][0] == script[i] && script[i..][1..] == script[i + 1..];
  }

  lemma EndAt(script: seq<Observation>, d: Driver)
    requires At(script, |script|, d)
    ensures Replay(START, script) == d
  {
    assert script[|script|..] == [];
  }

  /**
   The driver as written, with its loops, run against a finite record of what its await points
   produced. It stops early, suspended, when the record ends before the turn does.
   */
  method DriveTurn(script: seq<Observation>) returns (d: Driver)
    requires Plausible(START, script)
    ensures d == Replay(START, script)
  {
    d := START;
    var i := 0;
    assert script[0..] == script;
    while d.pc.Loop?
      invariant At(script, i, d)
      invariant d.pc.Loop? || d.pc.SubmitFlush? || d.pc.LastLook? || d.pc.Done? || i == |script|
      decreases |script| - i
    {
      if i == |script| { EndAt(script, d); return; }
      NextAt(script, i, d);
      match script[i] {
        case SignalSeen(signal) =>
          d, i := Cancel(Observe(d, signal), false), i + 1;
          d, i := DrainTurn(script, i, d);
        case ItemSeen(item) =>
          d, i := HandleItem(script, i + 1, AfterLoopItem(d, item));
      }
    }
    if d.pc.SubmitFlush? {
      d, i := FlushTerminalOutput(script, i, d);
    }
    d := LookForSignal(script, i, d);
  }

  /** What one item of the stream leads to: a write, a drain, the flush, or the next item. */
  method HandleItem(script: seq<Observation>, from: nat, start: Driver) returns (d: Driver, i: nat)
    requires At(script, from, start)
    requires start.pc.Loop? || start.pc.SubmitWrite? || start.pc == Draining(false) ||
             start.pc.SubmitFlush? || start.pc.LastLook? || start.pc.Done?
    ensures At(script, i, d) && from <= i
    ensures d.pc.Loop? || d.pc.SubmitFlush? || d.pc.LastLook? || d.pc.Done? || i == |script|
  {
    d, i := start, from;
    if d.pc.SubmitWrite? {
      d, i := WriteText(script, i, d);
    } else if d.pc.Draining? {
      d, i := DrainTurn(script, i, d);
    }
  }

  /** The drain loop: only a terminal item, an error or the end of the stream leaves it. */
  method DrainTurn(script: seq<Observation>, from: nat, start: Driver) returns (d: Driver, i: nat)
    requires At(script, from, start) && start.pc == Draining(false)
    ensures At(script, i, d) && from <= i
    ensures d.pc.SubmitFlush? || d.pc.LastLook? || d.pc.Done? || i == |script|
  {
    d, i := start, from;
    while i < |script|
      invariant from <= i && At(script, i, d) && d.pc == Draining(false)
    {
      NextAt(script, i, d);
      match script[i] {
        case SignalSeen(signal) =>
          d := Observe(d, signal);
        case ItemSeen(item) =>
          if Terminal(item) {
            d, i := EnterFlush(d.(settled := true)), i + 1;
            return;
          }
      }
      i := i + 1;
    }
  }

  /** Submit one piece of text and wait for its acknowledgement. */
  method WriteText(script: seq<Observation>, from: nat, start: Driver) returns (d: Driver, i: nat)
    requires At(script, from, start) && start.pc.SubmitWrite?
    ensures At(script, i, d) && from <= i
    ensures d.pc.Loop? || d.pc.SubmitFlush? || d.pc.LastLook? || d.pc.Done? || i == |script|
  {
    d, i := start, from;
    if i == |script| { return; }
    NextAt(script, i, d);
    if !script[i].accepted {
      d, i := Cancel(d.(outputFailed := true), false), i + 1;
      d, i := DrainTurn(script, i, d);
      return;
    }
    d, i := d.(pc := AwaitWriteAck, written := d.written + [d.pc.text]), i + 1;
    if i == |script| { return; }
    NextAt(script, i, d);
    match script[i] {
      case SignalSeen(signal) =>
        d, i := Cancel(Observe(d, signal), true), i + 1;
        d, i := DrainThenGrace(script, i, d);
      case AckSeen(ack) =>
        if ack.Succeeded? {
          d, i := d.(pc := Loop), i + 1;
        } else {
          d, i := Cancel(d.(outputFailed := true), false), i + 1;
          d, i := DrainTurn(script, i, d);
        }
    }
  }

  method DrainThenGrace(script: seq<Observation>, from: nat, start: Driver) returns (d: Driver, i: nat)
    requires At(script, from, start) && start.pc == Draining(true)
    ensures At(script, i, d) && from <= i
    ensures d.pc.SubmitFlush? || d.pc.LastLook? || d.pc.Done? || i == |script|
  {
    d, i := start, from;
    while i < |script| && d.pc.Draining?
      invariant from <= i && At(script, i, d) && (d.pc == Draining(true) || d.pc == GraceStart(false))
      decreases |script| - i
    {
      NextAt(script, i, d);
      match script[i] {
        case SignalSeen(signal) =>
          d := Observe(d, signal);
        case ItemSeen(item) =>
          if Terminal(item) { d := d.(pc := GraceStart(false), settled := true); }
      }
      i := i + 1;
    }
    if d.pc.GraceStart? {
      d, i := RecordSignalGrace(script, i, d);
    }
  }

  /** Wait for the outstanding acknowledgement up to the one grace deadline. */
  method RecordSignalGrace(script: seq<Observation>, from: nat, start: Driver) returns (d: Driver, i: nat)
    requires At(script, from, start) && start.pc.GraceStart?
    ensures At(script, i, d) && from <= i
    ensures i == |script| || d.pc.LastLook? || d.pc.Done? || (d.pc.SubmitFlush? && !start.pc.flushing)
  {
    d, i := start, from;
    if i == |script| { return; }
    NextAt(script, i, d);
    if d.deadline.None? {
      d := d.(deadline := Some(script[i].now + SIGNAL_OUTPUT_GRACE));
    }
    d, i := d.(pc := GraceWait(d.pc.flushing)), i + 1;
    d, i := AwaitWithinGrace(script, i, d);
  }

  method AwaitWithinGrace(script: seq<Observation>, from: nat, start: Driver) returns (d: Driver, i: nat)
    requires At(script, from, start) && start.pc.GraceWait?
    ensures At(script, i, d) && from <= i
    ensures i == |script| || d.pc.LastLook? || d.pc.Done? || (d.pc.SubmitFlush? && !start.pc.flushing)
  {
    d, i := start, from;
    if i == |script| { return; }
    NextAt(script, i, d);
    if script[i].Expired? {
      d := d.(stalled := true);
    } else if !script[i].ack.Succeeded? {
      d := d.(outputFailed := true);
    }
    d, i := AfterGrace(d, d.pc.flushing), i + 1;
  }

  method FlushTerminalOutput(script: seq<Observation>, from: nat, start: Driver) returns (d: Driver, i: nat)
    requires At(script, from, start) && start.pc.SubmitFlush?
    ensures At(script, i, d) && from <= i
    ensures d.pc.LastLook? || d.pc.Done? || i == |script|
  {
    d, i := start, from;
    if i == |script| { return; }
    NextAt(script, i, d);
    if !script[i].accepted {
      d, i := EnterLastLook(d.(outputFailed := true)), i + 1;
      return;
    }
    if d.requested.Some? {
      d, i := d.(flushes := d.flushes + 1, pc := GraceStart(true)), i + 1;
    } else {
      d, i := d.(flushes := d.flushes + 1, pc := AwaitFlushAck), i + 1;
      d, i := AwaitFlush(script, i, d);
    }
    if d.pc.GraceStart? {
      d, i := RecordSignalGrace(script, i, d);
    }
  }

  method AwaitFlush(script: seq<Observation>, from: nat, start: Driver) returns (d: Driver, i: nat)
    requires At(script, from, start) && start.pc.AwaitFlushAck?
    ensures At(script, i, d) && from <= i
    ensures d.pc.LastLook? || d.pc.Done? || d.pc == GraceStart(true) || i == |script|
  {
    d, i := start, from;
    if i == |script| { return; }
    NextAt(script, i, d);
    match script[i] {
      case SignalSeen(signal) => d := Observe(d, signal).(pc := GraceStart(true));
      case AckSeen(ack) => d := EnterLastLook(if ack.Succeeded? then d else d.(outputFailed := true));
    }
    i := i + 1;
  }

  /** `poll_signal_now`: one last look at the signals when none was requested. */
  method LookForSignal(script: seq<Observation>, from: nat, start: Driver) returns (d: Driver)
    requires At(script, from, start)
    requires start.pc.LastLook? || start.pc.Done? || from == |script|
    ensures d == Replay(START, script)
  {
    d := start;
    var i := from;
    if i < |script| && d.pc.LastLook? {
      NextAt(script, i, d);
      d, i := Finish(if script[i].SignalSeen? then Observe(d, script[i].signal) else d), i + 1;
    }
    if i < |script| {
      NextAt(script, i, d);
      assert false;
    }
    EndAt(script, d);
  }
}

/** The driver together with the output worker behind two capacity-1 channels, and a clock. */
module TurnSystem {
  import opened Shared
  import opened AskOutcomes
  import opened TurnDriver

  datatype Worker = Idle | Busy(work: Work) | Gone

  datatype Turn = Turn(
    d: Driver,
    queued: Option<Work>,              // the work channel
    worker: Worker,
    replied: Option<Acknowledgement>,  // the acknowledgement channel
    now: nat,
    finishedAt: Option<nat>)

  datatype Step =
    | Signalled(signal: Signal)
    | Streamed(item: Item)
    | Submitted
    | Acknowledged
    | ReadClock
    | Expiry
    | NothingPending
    | WorkerTakes
    | WorkerReplies(ack: Acknowledgement)
    | WorkerDies
    | Tick

  const START_TURN: Turn := Turn(START, None, Idle, None, 0, None)

  /** Work handed over and not yet acknowledged to the driver. */
  function Outstanding(t: Turn): (n: nat)
  {
    (if t.queued.Some? then 1 else 0) + (if t.worker.Busy? then 1 else 0) + (if t.replied.Some? then 1 else 0)
  }

  /** A capacity-1 send: full when the slot is taken, refused when the worker has gone. */
  predicate Full(t: Turn)
  {
    !t.worker.Gone? && t.queued.Some?
  }

  /** The acknowledgement channel has something to say: a reply, or that it is closed. */
  predicate AckReady(t: Turn)
  {
    t.replied.Some? || t.worker.Gone?
  }

  predicate Waiting(pc: Pc)
  {
    pc.Loop? || pc.AwaitWriteAck? || pc.Draining? || pc.GraceWait? || pc.AwaitFlushAck? || pc.Done?
  }

  predicate Enabled(t: Turn, step: Step)
  {
    match step
    case Signalled(signal) => Accepts(t.d, SignalSeen(signal))
    case Streamed(item) => Accepts(t.d, ItemSeen(item))
    case Submitted => t.d.pc.SubmitWrite? || t.d.pc.SubmitFlush?
    case Acknowledged => Accepts(t.d, AckSeen(Closed)) && AckReady(t)
    case ReadClock => t.d.pc.GraceStart?
    // The timer is polled after the acknowledgement channel.
    case Expiry => t.d.pc.GraceWait? && !AckReady(t) && t.d.deadline.Some? && t.d.deadline.value <= t.now
    case NothingPending => t.d.pc.LastLook?
    case WorkerTakes => t.worker.Idle? && t.queued.Some?
    case WorkerReplies(ack) => t.worker.Busy? && t.replied.None? && !ack.Closed?
    case WorkerDies => !t.worker.Gone?
    // Time passes only while the driver waits, and a due timer fires first.
    case Tick => Waiting(t.d.pc) && !(t.d.pc.GraceWait? && t.d.deadline.Some? && t.d.deadline.value <= t.now)
  }

  function Drive(t: Turn, o: Observation): (r: Turn)
    requires Accepts(t.d, o)
  {
    var d := Advance(t.d, o);
    t.(d := d, finishedAt := if d.pc.Done? then Some(t.now) else None)
  }

  function Submit(t: Turn, work: Work): (r: Turn)
    requires t.d.pc.SubmitWrite? || t.d.pc.SubmitFlush?
  {
    if t.worker.Gone? || t.queued.Some? then Drive(t, Sent(false))
    else Drive(t.(queued := Some(work)), Sent(true))
  }

  function Apply(t: Turn, step: Step): (r: Turn)
    requires Enabled(t, step)
  {
    match step
    case Signalled(signal) => Drive(t, SignalSeen(signal))
    case Streamed(item) => Drive(t, ItemSeen(item))
    case Submitted => Submit(t, if t.d.pc.SubmitWrite? then Write(t.d.pc.text) else Flush)
    case Acknowledged =>
      if t.replied.Some? then Drive(t.(replied := None), AckSeen(t.replied.value)) else Drive(t, AckSeen(Closed))
    case ReadClock => Drive(t, Clock(t.now))
    case Expiry => Drive(t, Observation.Expired)
    case NothingPending => Drive(t, NoSignal)
    case WorkerTakes => t.(queued := None, worker := Busy(t.queued.value))
    case WorkerReplies(ack) => t.(worker := Idle, replied := Some(ack))
    case WorkerDies => t.(queued := None, worker := Gone)
    case Tick => t.(now := t.now + 1)
  }

  // ----- what every step keeps -----

  /** The text written is the text consumed, in order, short of at most one refused piece. */
  ghost predicate WritesConsumed(d: Driver)
  {
    match d.pc
    case SubmitWrite(text) => d.consumed == d.written + [text]
    case _ => d.consumed == d.written || RefusedLast(d)
  }

  predicate RefusedLast(d: Driver)
  {
    d.outputFailed && d.cancels == 1 && d.flushes == 0 && d.consumed != [] && d.consumed[..|d.consumed| - 1] == d.written
  }

  predicate ChannelBusy(pc: Pc)
  {
    pc.AwaitWriteAck? || pc.AwaitFlushAck? || pc.GraceStart? || pc.GraceWait? || pc == Draining(true)
  }

  ghost predicate ChannelInv(t: Turn)
  {
    && Outstanding(t) <= 1
    && (Outstanding(t) == 1 ==> ChannelBusy(t.d.pc) || t.d.stalled)
    && (t.d.stalled ==> t.d.pc.LastLook? || t.d.pc.Done?)
    && (ChannelBusy(t.d.pc) && !t.worker.Gone? ==> Outstanding(t) == 1)
    && (t.replied.Some? ==> !t.replied.value.Closed?)
    && (t.worker.Gone? ==> t.queued.None?)
    && (!t.d.pc.SubmitWrite? && t.d.consumed != t.d.written ==> t.worker.Gone?)
  }

  /** Nothing has gone wrong and nothing has been asked for. */
  predicate Undisturbed(d: Driver)
  {
    && d.cancels == 0 && d.flushes == 0 && !d.settled && d.requested.None? && d.deadline.None?
    && !d.outputFailed && !d.turnFailed && !d.stalled
  }

  predicate Healthy(d: Driver)
  {
    !d.outputFailed && !d.stalled
  }

  predicate HistoryInv(d: Driver)
  {
    && d.firstSignal == d.requested && d.cancels <= 1 && d.flushes <= 1
    && (d.requested.None? ==> d.deadline.None? && !d.stalled)
    && match d.pc
       case Loop | SubmitWrite(_) | AwaitWriteAck => Undisturbed(d)
       case Draining(thenGrace) =>
         && d.cancels == 1 && d.flushes == 0 && !d.settled && d.deadline.None? && !d.stalled
         && (thenGrace ==> d.requested.Some? && Healthy(d))
       case GraceStart(flushing) =>
         && d.settled && d.requested.Some? && Healthy(d)
         && d.flushes == (if flushing then 1 else 0) && (!flushing ==> d.deadline.None?)
       case GraceWait(flushing) =>
         && d.settled && d.requested.Some? && Healthy(d) && d.deadline.Some?
         && d.flushes == (if flushing then 1 else 0)
       case SubmitFlush => d.settled && Healthy(d) && d.flushes == 0
       case AwaitFlushAck => d.settled && Healthy(d) && d.flushes == 1 && d.requested.None?
       case LastLook => d.settled && d.requested.None? && (d.flushes == 1 || d.outputFailed)
       case Done(result) =>
         && d.settled && (d.flushes == 1 || d.outputFailed || d.stalled)
         && result == Result(FinalOutcome(d.outputFailed, d.requested, d.turnFailed), d.stalled)
  }

  ghost predicate ClockInv(t: Turn)
  {
    && (t.finishedAt.Some? <==> t.d.pc.Done?)
    && (t.d.deadline.Some? ==>
          if t.d.pc.Done? then t.finishedAt.value <= t.d.deadline.value
          else t.now <= t.d.deadline.value <= t.now + SIGNAL_OUTPUT_GRACE)
  }

  ghost predicate Inv(t: Turn)
  {
    ChannelInv(t) && HistoryInv(t.d) && WritesConsumed(t.d) && ClockInv(t)
  }

  lemma HistoryKept(d: Driver, o: Observation)
    requires HistoryInv(d) && Accepts(d, o)
    ensures HistoryInv(Advance(d, o))
  {
  }

  lemma WritesKept(d: Driver, o: Observation)
    requires HistoryInv(d) && WritesConsumed(d) && Accepts(d, o)
    ensures WritesConsumed(Advance(d, o))
  {
  }

  lemma DriveKeepsInv(t: Turn, o: Observation)
    requires HistoryInv(t.d) && WritesConsumed(t.d) && ClockInv(t) && Accepts(t.d, o)
    requires t.d.pc.GraceStart? ==> o == Clock(t.now)
    ensures HistoryInv(Drive(t, o).d) && WritesConsumed(Drive(t, o).d) && ClockInv(Drive(t, o))
  {
    HistoryKept(t.d, o);
    WritesKept(t.d, o);
  }

  lemma DriverStepKeepsChannel(t: Turn, step: Step)
    requires Inv(t) && Enabled(t, step)
    requires !step.WorkerTakes? && !step.WorkerReplies? && !step.WorkerDies? && !step.Tick?
    ensures ChannelInv(Apply(t, step))
  {
  }

  lemma DriverStepKeepsRest(t: Turn, step: Step)
    requires Inv(t) && Enabled(t, step)
    requires !step.WorkerTakes? && !step.WorkerReplies? && !step.WorkerDies? && !step.Tick?
    ensures HistoryInv(Apply(t, step).d) && WritesConsumed(Apply(t, step).d) && ClockInv(Apply(t, step))
  {
    match step {
      case Signalled(signal) => DriveKeepsInv(t, SignalSeen(signal));
      case Streamed(item) => DriveKeepsInv(t, ItemSeen(item));
      case Submitted =>
        DriveKeepsInv(t, Sent(false));
        DriveKeepsInv(t.(queued := Some(if t.d.pc.SubmitWrite? then Write(t.d.pc.text) else Flush)), Sent(true));
      case Acknowledged =>
        if t.replied.Some? {
          DriveKeepsInv(t.(replied := None), AckSeen(t.replied.value));
        } else {
          DriveKeepsInv(t, AckSeen(Closed));
        }
      case ReadClock => DriveKeepsInv(t, Clock(t.now));
      case Expiry => DriveKeepsInv(t, Observation.Expired);
      case NothingPending => DriveKeepsInv(t, NoSignal);
    }
  }

  lemma StepKeepsInv(t: Turn, step: Step)
    requires Inv(t) && Enabled(t, step)
    ensures Inv(Apply(t, step))
  {
    if !step.WorkerTakes? && !step.WorkerReplies? && !step.WorkerDies? && !step.Tick? {
      DriverStepKeepsChannel(t, step);
      DriverStepKeepsRest(t, step);
    }
  }

  // ----- whole runs -----

  predicate ValidRun(t: Turn, run: seq<Step>)
    decreases |run|
  {
    run == [] || (Enabled(t, run[0]) && ValidRun(Apply(t, run[0]), run[1..]))
  }

  function Final(t: Turn, run: seq<Step>): (r: Turn)
    requires ValidRun(t, run)
    decreases |run|
  {
    if run == [] then t else Final(Apply(t, run[0]), run[1..])
  }

  lemma {:induction false} RunKeepsInv(t: Turn, run: seq<Step>)
    requires Inv(t) && ValidRun(t, run)
    ensures Inv(Final(t, run))
    decreases |run|
  {
    if run != [] {
      StepKeepsInv(t, run[0]);
      RunKeepsInv(Apply(t, run[0]), run[1..]);
    }
  }

  /**
   At most one work item is ever unacknowledged, so the capacity-1 send never finds its
   channel full: it is refused only when the worker has gone.
   */
  lemma SendNeverFindsChannelFull(run: seq<Step>)
    requires ValidRun(START_TURN, run)
    ensures var t := Final(START_TURN, run);
            && Outstanding(t) <= 1
            && (t.d.pc.SubmitWrite? || t.d.pc.SubmitFlush? ==>
                  && Outstanding(t) == 0 && !Full(t)
                  && (Apply(t, Submitted).d.outputFailed ==> t.worker.Gone?))
  {
    RunKeepsInv(START_TURN, run);
  }

  /**
   The writes are exactly the text deltas taken from the stream before the driver stopped
   reading, in order; only the last may be missing, and only because the worker had gone.
   */
  lemma WritesAreTheConsumedText(run: seq<Step>)
    requires ValidRun(START_TURN, run)
    ensures var t := Final(START_TURN, run);
            var d := t.d;
            || d.written == d.consumed
            || (&& d.consumed != [] && d.written == d.consumed[..|d.consumed| - 1]
                && (d.pc.SubmitWrite? || (d.outputFailed && t.worker.Gone?)))
  {
    RunKeepsInv(START_TURN, run);
    var d := Final(START_TURN, run).d;
    if d.pc.SubmitWrite? {
      assert d.consumed[..|d.consumed| - 1] == d.written;
    }
  }

  /**
   When the driver finishes, it has cancelled at most once and a terminal item has been read
   since; it has flushed once, unless a write failed or stalled, or the flush itself was
   refused; and the first signal any await point saw decides the outcome.
   */
  lemma FinishedTurnIsSettled(run: seq<Step>)
    requires ValidRun(START_TURN, run) && Final(START_TURN, run).d.pc.Done?
    ensures var d := Final(START_TURN, run).d;
            && d.cancels <= 1 && d.settled
            && d.flushes <= 1 && (d.flushes == 0 ==> d.outputFailed || d.stalled)
            && d.pc.result.outcome == FinalOutcome(d.outputFailed, d.firstSignal, d.turnFailed)
            && (d.pc.result.stalled ==> d.firstSignal.Some?)
  {
    RunKeepsInv(START_TURN, run);
  }

  /** A cancelled turn stays in the drain until a terminal item arrives. */
  lemma CancelDrainsToTerminalItem(run: seq<Step>, step: Step)
    requires ValidRun(START_TURN, run)
    requires Final(START_TURN, run).d.cancels == 1 && !Final(START_TURN, run).d.settled
    requires Enabled(Final(START_TURN, run), step)
    ensures var t := Final(START_TURN, run);
            && t.d.pc.Draining?
            && (Apply(t, step).d.settled <==> step.Streamed? && Terminal(step.item))
            && (!Apply(t, step).d.settled ==> Apply(t, step).d.pc == t.d.pc)
  {
    RunKeepsInv(START_TURN, run);
  }

  lemma LoopKeepsOutput(d: Driver, o: Observation)
    requires Accepts(d, o) && d.pc.Loop?
    ensures Advance(d, o).deadline == d.deadline && Advance(d, o).flushes == d.flushes
  {
  }

  lemma AdvanceFlushes(d: Driver, o: Observation)
    requires Accepts(d, o) && Advance(d, o).flushes != d.flushes
    ensures d.pc.SubmitFlush?
  {
    if d.pc.Loop? {
      LoopKeepsOutput(d, o);
    }
  }

  lemma DriveFlushes(t: Turn, o: Observation)
    requires Accepts(t.d, o)
    ensures Drive(t, o).d.flushes != t.d.flushes ==> t.d.pc.SubmitFlush?
  {
    if Drive(t, o).d.flushes != t.d.flushes {
      AdvanceFlushes(t.d, o);
    }
  }

  lemma OnlySubmitFlushes(t: Turn, step: Step)
    requires Enabled(t, step) && Apply(t, step).d.flushes != t.d.flushes
    ensures t.d.pc.SubmitFlush?
  {
    match step {
      case Signalled(signal) => DriveFlushes(t, SignalSeen(signal));
      case Streamed(item) => DriveFlushes(t, ItemSeen(item));
      case Submitted =>
      case Acknowledged =>
        if t.replied.Some? {
          DriveFlushes(t.(replied := None), AckSeen(t.replied.value));
        } else {
          DriveFlushes(t, AckSeen(Closed));
        }
      case ReadClock => DriveFlushes(t, Clock(t.now));
      case Expiry => DriveFlushes(t, Observation.Expired);
      case NothingPending => DriveFlushes(t, NoSignal);
      case _ =>
    }
  }

  /** A flush is requested only once, and only after every write succeeded in time. */
  lemma FlushFollowsHealthyWrites(run: seq<Step>, step: Step)
    requires ValidRun(START_TURN, run) && Enabled(Final(START_TURN, run), step)
    requires Apply(Final(START_TURN, run), step).d.flushes != Final(START_TURN, run).d.flushes
    ensures var t := Final(START_TURN, run);
            && t.d.flushes == 0 && Healthy(t.d) && t.d.settled && t.d.written == t.d.consumed
            && Outstanding(t) == 0
  {
    RunKeepsInv(START_TURN, run);
    OnlySubmitFlushes(Final(START_TURN, run), step);
  }

  lemma EarlyAdvanceKeepsDeadline(d: Driver, o: Observation)
    requires Accepts(d, o) && d.deadline.Some? && (d.pc.Loop? || d.pc.SubmitWrite? || d.pc.AwaitWriteAck? || d.pc.Draining?)
    ensures Advance(d, o).deadline == d.deadline
  {
    if d.pc.Loop? {
      LoopKeepsOutput(d, o);
    }
  }

  lemma AdvanceKeepsDeadline(d: Driver, o: Observation)
    requires Accepts(d, o) && d.deadline.Some?
    ensures Advance(d, o).deadline == d.deadline
  {
    if d.pc.Loop? || d.pc.SubmitWrite? || d.pc.AwaitWriteAck? || d.pc.Draining? {
      EarlyAdvanceKeepsDeadline(d, o);
    }
  }

  lemma StepKeepsDeadline(t: Turn, step: Step)
    requires Enabled(t, step) && t.d.deadline.Some?
    ensures Apply(t, step).d.deadline == t.d.deadline
  {
    forall o | Accepts(t.d, o) ensures Advance(t.d, o).deadline == t.d.deadline {
      AdvanceKeepsDeadline(t.d, o);
    }
  }

  /** One grace deadline covers the write and the flush: once set it never moves. */
  lemma {:induction false} DeadlineNeverMoves(t: Turn, run: seq<Step>)
    requires ValidRun(t, run) && t.d.deadline.Some?
    ensures Final(t, run).d.deadline == t.d.deadline
    decreases |run|
  {
    if run != [] {
      StepKeepsDeadline(t, run[0]);
      DeadlineNeverMoves(Apply(t, run[0]), run[1..]);
    }
  }

  /** After a signal made the driver wait for output, it finishes within the grace period. */
  lemma FinishesWithinGrace(run: seq<Step>)
    requires ValidRun(START_TURN, run) && Final(START_TURN, run).d.deadline.Some?
    ensures var t := Final(START_TURN, run);
            && t.d.firstSignal.Some?
            && (if t.d.pc.Done? then t.finishedAt.Some? && t.finishedAt.value <= t.d.deadline.value
                else t.now <= t.d.deadline.value <= t.now + SIGNAL_OUTPUT_GRACE)
  {
    RunKeepsInv(START_TURN, run);
  }
}
