/**
 One-shot prompt runs of crates/machine-god-cli/src/ask.rs: the signal guardian thread, its
 capacity-1 channel to the turn, and the run from setup to process exit.

 `SignalGuardian` is one poll of the guardian. `AskRun` composes guardian, channels, turn
 driver and settlement into one small-step system, and proves which signal decides the exit
 code of the process.
 */
module SignalGuardian {
  import opened Shared
  import opened AskOutcomes

  datatype Phase = SetupPhase | TurnPhase | FinalPhase

  datatype Control = EnterSetup | ActivateTurn | EnterFinal | FinishWith(code: nat)

  /** What one poll finds on the control channel; `heard` is whether the sender awaits the reply. */
  datatype ControlPoll = NoControl | Received(control: Control, heard: bool) | ControlClosed

  datatype ListenerPoll = Quiet | Raised | ListenerClosed

  datatype GuardianResult = StillPending | Exit(code: nat) | ControlLost

  datatype Guardian = Guardian(phase: Phase, finishing: Option<nat>, latched: bool)

  datatype Channel = Channel(queued: Option<Signal>, open: bool)

  function OnControl(g: Guardian, c: Control): (r: Guardian)
  {
    match c
    case EnterSetup => if g.latched then g else g.(phase := SetupPhase)
    case ActivateTurn => Guardian(TurnPhase, g.finishing, g.latched && g.phase == TurnPhase)
    case EnterFinal => g.(phase := FinalPhase)
    case FinishWith(code) => g.(phase := FinalPhase, finishing := Some(code))
  }

  /** Route one operating-system signal: ignore it, forward it to the turn, or exit. */
  function OnSignal(g: Guardian, ch: Channel, signal: Signal): (r: (Guardian, Channel, Option<nat>))
  {
    if g.latched then (g, ch, None)
    else if g.phase == TurnPhase then
      if !ch.open then (g, ch, Some(1))
      else (g.(latched := true), if ch.queued.Some? then ch else ch.(queued := Some(signal)), None)
    else (g, ch, Some(ExitCode(SignalOutcome(signal))))
  }

  function ListenerSignal(interrupt: ListenerPoll, terminate: ListenerPoll): (r: Option<Signal>)
  {
    if interrupt.Raised? then Some(Interrupt)
    else if interrupt.Quiet? && terminate.Raised? then Some(Terminate)
    else None
  }

  class SignalChannel {
    var queued: Option<Signal>
    var open: bool

    function Value(): (ch: Channel)
      reads this
    {
      Channel(queued, open)
    }

    /** True unless the receiving end is gone; a full channel keeps the signal it holds. */
    method TrySend(signal: Signal) returns (open': bool)
      modifies this`queued
      ensures open' == open
      ensures queued == if open && old(queued).None? then Some(signal) else old(queued)
    {
      open' := open;
      if open && queued.None? {
        queued := Some(signal);
      }
    }
  }

  /** The turn's end of the channel, with the first signal it ever reported. */
  class AskSignals {
    const receiver: SignalChannel
    var firstObserved: Option<Signal>

    constructor (receiver: SignalChannel)
      ensures this.receiver == receiver && firstObserved.None?
    {
      this.receiver, firstObserved := receiver, None;
    }

    /** Takes the queued signal, or reports a closed channel; only the first report is remembered. */
    method PollSignal(closed: bool) returns (r: Option<Signal>)
      modifies this`firstObserved, receiver`queued
      ensures r == if old(receiver.queued).Some? then old(receiver.queued) else if closed then Some(ControlFailed) else None
      ensures receiver.queued.None?
      ensures firstObserved == if old(firstObserved).Some? then old(firstObserved) else r
    {
      r := receiver.queued;
      receiver.queued := None;
      if r.None? && closed {
        r := Some(ControlFailed);
      }
      if r.Some? && firstObserved.None? {
        firstObserved := r;
      }
    }
  }

  class GuardianState {
    var phase: Phase
    var finishing: Option<nat>
    var latched: bool

    constructor ()
      ensures Value() == Guardian(SetupPhase, None, false)
    {
      phase, finishing, latched := SetupPhase, None, false;
    }

    function Value(): (g: Guardian)
      reads this
    {
      Guardian(phase, finishing, latched)
    }

    /** One poll: a control message first, then at most one signal, then the finishing timer. */
    method Poll(control: ControlPoll, interrupt: ListenerPoll, terminate: ListenerPoll, timer: bool, channel: SignalChannel)
      returns (r: GuardianResult)
      modifies this, channel
      ensures channel.open == old(channel.open)
      ensures (Value(), channel.Value(), r) ==
              PollSteps(old(Value()), old(channel.Value()), control, interrupt, terminate, timer)
    {
      var lost := false;
      match control {
        case Received(EnterSetup, heard) =>
          if !latched {
            phase := SetupPhase;
          }
          lost := !heard;
        case Received(ActivateTurn, heard) =>
          if phase != TurnPhase {
            latched := false;
          }
          phase := TurnPhase;
          lost := !heard;
        case Received(EnterFinal, heard) =>
          phase := FinalPhase;
          lost := !heard;
        case Received(FinishWith(code), _) =>
          phase := FinalPhase;
          finishing := Some(code);
        case ControlClosed =>
          lost := true;
        case NoControl =>
      }
      var signal: Option<Signal> := None;
      match interrupt {
        case Raised => signal := Some(Interrupt);
        case ListenerClosed => return Exit(1);
        case Quiet =>
          match terminate {
            case Raised => signal := Some(Terminate);
            case ListenerClosed => return Exit(1);
            case Quiet =>
          }
      }
      if signal.Some? {
        if latched {
        } else if phase == TurnPhase {
          var open := channel.TrySend(signal.value);
          if !open {
            return Exit(1);
          }
          latched := true;
        } else {
          return Exit(ExitCode(SignalOutcome(signal.value)));
        }
      }
      if finishing.Some? && timer {
        return Exit(finishing.value);
      }
      r := if lost then ControlLost else StillPending;
    }
  }

  /** A poll in terms of the guardian's atomic steps. */
  function PollSteps(g: Guardian, ch: Channel, control: ControlPoll, interrupt: ListenerPoll, terminate: ListenerPoll, timer: bool)
    : (r: (Guardian, Channel, GuardianResult))
  {
    var g1 := if control.Received? then OnControl(g, control.control) else g;
    if interrupt.ListenerClosed? || (interrupt.Quiet? && terminate.ListenerClosed?) then (g1, ch, Exit(1))
    else
      var (g2, ch2, exit) :=
        match ListenerSignal(interrupt, terminate)
        case None => (g1, ch, None)
        case Some(signal) => OnSignal(g1, ch, signal);
      if exit.Some? then (g2, ch2, Exit(exit.value))
      else if g2.finishing.Some? && timer then (g2, ch2, Exit(g2.finishing.value))
      else if control.ControlClosed? || (control.Received? && !control.control.FinishWith? && !control.heard) then
        (g2, ch2, ControlLost)
      else (g2, ch2, StillPending)
  }
}

module AskRun {
  import opened Shared
  import opened AskOutcomes
  import opened SignalGuardian
  import TD = TurnDriver

  /** Where the one-shot run stands; `Wait` stages await the guardian's reply. */
  datatype Main =
    // a prompt piped on standard input
    | ReadStart
    | ReadActivating
    | Reading
    | ReadSettingUp
    | ReadLook(failure: Option<Outcome>)
    | ReadFailed(outcome: Outcome)
    | ReadFailedWait(outcome: Outcome)
    // host preparation
    | Setup
    | Activating
    | Preparing
    | SetupFailed
    | SetupFailedWait
    | Unwound
    | UnwoundWait
    // the operation, inside the unwind boundary
    | Opening
    | Reactivating
    | Driving(driver: TD.Driver, signalled: bool)
    | Closing(result: TD.Result)
    // settlement
    | Ended(returned: Option<TD.Result>)
    | EndedWait(returned: Option<TD.Result>)
    | Finishing(outcome: Outcome)
    | Finished(outcome: Outcome)

  datatype State = State(
    g: Guardian,
    ch: Channel,
    control: Option<Control>,
    observed: Option<Signal>,   // AskSignals::first_observed
    main: Main,
    exit: Option<nat>,
    // history
    first: Option<Signal>,      // the first signal the guardian observed
    firstPhase: Phase,          // its phase at that moment
    firstLate: bool,            // the run had already failed to read its prompt
    unwound: bool)              // an unwind escaped host preparation or settlement

  datatype Step =
    | Raise(signal: Signal)
    | TakeControl
    | TimerFires
    | Continue
    | Fail(outcome: Outcome)
    | Unwind
    | PollSignal
    | Succeed(result: TD.Result)
    | Drive(o: TD.Observation)

  predicate Initial(s: State)
  {
    && s.g == Guardian(SetupPhase, None, false) && s.ch == Channel(None, true)
    && s.control.None? && s.observed.None? && s.exit.None?
    && s.first.None? && !s.firstLate && !s.unwound
    && (s.main == ReadStart || s.main == Setup || s.main == ReadFailed(OperationalFailure))
  }

  predicate SignalledOutcome(outcome: Outcome)
  {
    outcome.Interrupted? || outcome.Terminated?
  }

  /** A signal the run knows of or can still receive. */
  function Known(s: State): (r: Option<Signal>)
  {
    if s.observed.Some? then s.observed else s.ch.queued
  }

  /** The result of opening the session when it ends the operation without a turn. */
  function UnopenedResult(s: State): (r: TD.Result)
  {
    TD.Result(match s.observed case Some(signal) => SignalOutcome(signal) case None => OperationalFailure, false)
  }

  /** The signals the driver's source may report: one observed, one queued, or a failed owner. */
  predicate SourceOffers(s: State, signalled: bool, signal: Signal)
  {
    !signalled && (Known(s) == Some(signal) || signal == ControlFailed)
  }

  predicate Enabled(s: State, step: Step)
  {
    && s.exit.None?
    && match step
       case Raise(signal) => signal != ControlFailed
       case TakeControl => s.control.Some?
       case TimerFires => s.g.finishing.Some?
       case Continue =>
         && s.control.None?
         && !s.main.Finished? && !s.main.Driving? && !s.main.Closing?
       case Fail(outcome) =>
         || (s.main.ReadStart? && !SignalledOutcome(outcome))
         || (s.main.Reading? && !SignalledOutcome(outcome))
         || s.main.Setup? || s.main.Preparing? || s.main.Opening? || s.main.Driving? || s.main.Closing?
       case Unwind => s.main.Setup? || s.main.Preparing? || s.main.Reading? || s.main.Closing? || s.main.Ended?
       case PollSignal => s.ch.queued.Some? && (s.main.Reading? || s.main.Opening? || s.main.Closing?)
       case Succeed(result) => (s.main.Opening? && result == UnopenedResult(s)) || (s.main.Closing? && result == s.main.result)
       case Drive(o) =>
         && s.main.Driving?
         && TD.Accepts(s.main.driver, o)
         && (o.SignalSeen? ==> SourceOffers(s, s.main.signalled, o.signal))
  }

  function Send(s: State, c: Control, main: Main): (r: State)
  {
    s.(control := Some(c), main := main)
  }

  /** Receive whatever the channel holds into `observed`. */
  function Receive(s: State): (r: State)
  {
    s.(observed := Known(s), ch := if s.observed.Some? then s.ch else s.ch.(queued := None))
  }

  function Settle(s: State, returned: Option<TD.Result>): (r: State)
  {
    var base := match returned case Some(result) => result case None => TD.Result(OperationalFailure, false);
    var known := Known(s);
    var outcome := if !SignalledOutcome(base.outcome) && known.Some? then SignalOutcome(known.value) else base.outcome;
    var dropped := s.(ch := Channel(None, false));
    if base.stalled || (returned.None? && SignalledOutcome(outcome))
    then Send(dropped, FinishWith(ExitCode(outcome)), Finishing(outcome))
    else dropped.(main := Finishing(outcome))
  }

  function ContinueMain(s: State): (r: State)
  {
    match s.main
    case ReadStart => Send(s, ActivateTurn, ReadActivating)
    case ReadActivating => s.(main := Reading)
    case Reading =>
      // collect_and_settle: a signal, already received or still queued, replaces the prompt
      if Known(s).Some? then Receive(s).(main := ReadLook(Some(SignalOutcome(Known(s).value))))
      else Send(s, EnterSetup, ReadSettingUp)
    case ReadSettingUp => s.(main := ReadLook(None))
    case ReadLook(failure) =>
      (match Known(s)
       case Some(signal) => Receive(s).(observed := s.observed, main := ReadFailed(SignalOutcome(signal)))
       case None => s.(main := match failure case None => Setup case Some(outcome) => ReadFailed(outcome)))
    case ReadFailed(outcome) => Send(s, EnterFinal, ReadFailedWait(outcome))
    case ReadFailedWait(outcome) => s.(main := Finishing(outcome))
    case Setup => Send(s, ActivateTurn, Activating)
    case Activating => s.(main := Preparing)
    case Preparing => s.(main := Opening)
    case SetupFailed => Send(s, EnterFinal, SetupFailedWait)
    case SetupFailedWait =>
      s.(ch := Channel(None, false),
         main := Finishing(match Known(s) case Some(signal) => SignalOutcome(signal) case None => OperationalFailure))
    case Unwound => Send(s, EnterFinal, UnwoundWait)
    case UnwoundWait => s.(main := Finishing(OperationalFailure))
    case Opening => Send(s, ActivateTurn, Reactivating)
    case Reactivating => s.(main := Driving(TD.START, false))
    case Driving(_, _) | Closing(_) | Finished(_) => s
    case Ended(returned) => Send(s, EnterFinal, EndedWait(returned))
    case EndedWait(returned) => Settle(s, returned)
    case Finishing(outcome) => Send(s, FinishWith(ExitCode(outcome)), Finished(outcome))
  }

  function FailMain(s: State, outcome: Outcome): (r: State)
  {
    match s.main
    case ReadStart => s.(main := ReadLook(Some(outcome)))
    case Reading =>
      Receive(s).(main := ReadLook(Some(match Known(s) case Some(signal) => SignalOutcome(signal) case None => outcome)))
    case Setup | Preparing => s.(main := SetupFailed)
    case Opening | Driving(_, _) | Closing(_) => s.(main := Ended(None))
    case _ => s
  }

  function DriveMain(s: State, o: TD.Observation): (r: State)
    requires s.main.Driving? && TD.Accepts(s.main.driver, o)
  {
    var s' := if o.SignalSeen? && Known(s) == Some(o.signal) then Receive(s) else s;
    var d := TD.Advance(s.main.driver, o);
    if d.pc.Done? then s'.(main := Closing(d.pc.result))
    else s'.(main := Driving(d, s.main.signalled || o.SignalSeen?))
  }

  function Apply(s: State, step: Step): (r: State)
    requires Enabled(s, step)
  {
    match step
    case Raise(signal) =>
      var (g, ch, exit) := OnSignal(s.g, s.ch, signal);
      var t := s.(g := g, ch := ch, exit := exit);
      if s.first.Some? then t
      else t.(first := Some(signal), firstPhase := s.g.phase,
              firstLate := s.main.ReadFailed? || s.main.ReadFailedWait?)
    case TakeControl => s.(g := OnControl(s.g, s.control.value), control := None)
    case TimerFires => s.(exit := s.g.finishing)
    case Continue => ContinueMain(s)
    case Fail(outcome) => FailMain(s, outcome)
    case Unwind =>
      if s.main.Reading? then s.(main := ReadLook(Some(OperationalFailure)))
      else s.(main := Unwound, ch := Channel(None, false), unwound := true)
    case PollSignal => Receive(s)
    case Succeed(result) => s.(main := Ended(Some(result)))
    case Drive(o) => DriveMain(s, o)
  }

  // ----- invariant -----

  /** The phase the guardian is in, given where the run stands and what it has just sent. */
  predicate PhaseFits(s: State)
  {
    var setup := s.g.phase == SetupPhase && !s.g.latched;
    var turn := s.g.phase == TurnPhase;
    var final := s.g.phase == FinalPhase;
    match s.main
    case ReadStart | Setup => setup && s.control.None?
    case ReadActivating | Activating => (s.control == Some(ActivateTurn) && setup) || (s.control.None? && turn)
    case Reading | Preparing | Opening | Driving(_, _) | Closing(_) | Ended(_) => turn && s.control.None?
    case Reactivating => turn && (s.control.None? || s.control == Some(ActivateTurn))
    case ReadSettingUp =>
      (s.control == Some(EnterSetup) && turn) || (s.control.None? && (setup || (turn && s.g.latched)))
    case ReadLook(failure) => s.control.None? && (setup || (turn && (failure.None? ==> s.g.latched)))
    case ReadFailed(_) | SetupFailed | Unwound => s.control.None? && (setup || turn)
    case ReadFailedWait(_) | SetupFailedWait | UnwoundWait | EndedWait(_) =>
      (s.control == Some(EnterFinal) && (setup || turn)) || (s.control.None? && final)
    case Finishing(_) | Finished(_) =>
      final && (s.control.None? || s.control == Some(FinishWith(ExitCode(s.main.outcome))))
  }

  /** The outcome the run has committed to, if it has. */
  function Committed(main: Main): (r: Option<Outcome>)
  {
    match main
    case ReadFailed(outcome) => Some(outcome)
    case ReadFailedWait(outcome) => Some(outcome)
    case Finishing(outcome) => Some(outcome)
    case Finished(outcome) => Some(outcome)
    case _ => None
  }

  /** Nothing can read the forwarded signal any more. */
  predicate Lost(s: State)
  {
    s.first.Some? && s.firstPhase == TurnPhase && (s.unwound || s.firstLate)
  }

  predicate ResultFits(result: TD.Result, observed: Option<Signal>)
  {
    SignalledOutcome(result.outcome) ==> observed.Some? && result.outcome == SignalOutcome(observed.value)
  }

  predicate MainFits(s: State)
  {
    match s.main
    case Driving(driver, _) =>
      && !driver.pc.Done?
      && (driver.requested.Some? && driver.requested.value != ControlFailed ==> driver.requested == s.observed)
    case Closing(result) => ResultFits(result, s.observed)
    case Ended(returned) => returned.Some? ==> ResultFits(returned.value, s.observed)
    case EndedWait(returned) => returned.Some? ==> ResultFits(returned.value, s.observed)
    case ReadLook(failure) => failure.Some? && SignalledOutcome(failure.value) ==> s.observed.Some?
    case _ => true
  }

  predicate Unwinding(main: Main)
  {
    main.Unwound? || main.UnwoundWait? || main == Finishing(OperationalFailure) || main == Finished(OperationalFailure)
  }

  /** The first signal is where the run will find it. */
  predicate SignalHeld(s: State)
  {
    match s.first
    case None => s.observed.None? && s.ch.queued.None? && (Committed(s.main).Some? ==> !SignalledOutcome(Committed(s.main).value))
    case Some(signal) =>
      && (s.observed.Some? ==> s.observed == s.first)
      && (s.ch.queued.Some? ==> s.ch.queued == s.first)
      && (Committed(s.main).Some? ==>
            if Lost(s) then !SignalledOutcome(Committed(s.main).value)
            else Committed(s.main).value == SignalOutcome(signal))
      && (Committed(s.main).None? && !s.unwound ==> Known(s).Some?)
  }

  predicate Inv(s: State)
  {
    && (s.first.Some? ==> s.first.value != ControlFailed)
    && match s.exit
       case Some(code) =>
         (match s.first
          case None => code != 130 && code != 143
          case Some(signal) => (code == ExitCode(SignalOutcome(signal)) <==> !Lost(s)))
       case None =>
         && PhaseFits(s) && MainFits(s) && SignalHeld(s)
         && (s.g.latched <==> s.first.Some?)
         && (s.first.Some? ==> s.firstPhase == TurnPhase)
         && (s.firstLate ==> s.first.Some? && (Committed(s.main).Some? || s.unwound))
         && (s.unwound ==> Unwinding(s.main) && !s.ch.open && s.ch.queued.None?)
         && (s.main.Unwound? || s.main.UnwoundWait? ==> s.unwound)
         && (s.unwound || s.main.Finishing? || s.main.Finished? || s.ch.open)
         && (s.g.finishing.Some? ==>
               (s.main.Finishing? || s.main.Finished?) && s.g.finishing.value == ExitCode(s.main.outcome))
  }

  lemma InitialInv(s: State)
    requires Initial(s)
    ensures Inv(s)
  {
  }

  lemma RaiseKeepsInv(s: State, signal: Signal)
    requires Inv(s) && Enabled(s, Raise(signal))
    ensures Inv(Apply(s, Raise(signal)))
  {
  }

  lemma GuardianKeepsInv(s: State, step: Step)
    requires Inv(s) && Enabled(s, step) && (step.TakeControl? || step.TimerFires?)
    ensures Inv(Apply(s, step))
  {
  }

  lemma ReadKeepsInv(s: State)
    requires Inv(s) && Enabled(s, Continue)
    requires s.main.ReadStart? || s.main.ReadActivating? || s.main.Reading? || s.main.ReadSettingUp?
             || s.main.ReadLook? || s.main.ReadFailed? || s.main.ReadFailedWait?
    ensures Inv(ContinueMain(s))
  {
  }

  lemma SetupKeepsInv(s: State)
    requires Inv(s) && Enabled(s, Continue)
    requires s.main.Setup? || s.main.Activating? || s.main.Preparing? || s.main.SetupFailed? || s.main.SetupFailedWait?
             || s.main.Unwound? || s.main.UnwoundWait? || s.main.Opening? || s.main.Reactivating?
    ensures Inv(ContinueMain(s))
  {
  }

  lemma SettlementKeepsInv(s: State)
    requires Inv(s) && Enabled(s, Continue)
    requires s.main.Ended? || s.main.EndedWait? || s.main.Finishing?
    ensures Inv(ContinueMain(s))
  {
  }

  lemma ContinueKeepsInv(s: State)
    requires Inv(s) && Enabled(s, Continue)
    ensures Inv(ContinueMain(s))
  {
    if s.main.Ended? || s.main.EndedWait? || s.main.Finishing? {
      SettlementKeepsInv(s);
    } else if s.main.ReadStart? || s.main.ReadActivating? || s.main.Reading? || s.main.ReadSettingUp?
              || s.main.ReadLook? || s.main.ReadFailed? || s.main.ReadFailedWait? {
      ReadKeepsInv(s);
    } else {
      SetupKeepsInv(s);
    }
  }

  /** The driver requests the first signal it is shown, and its outcome follows from that request. */
  predicate FollowsRequest(d: TD.Driver, o: TD.Observation, r: TD.Driver)
  {
    && r.requested == (if o.SignalSeen? && d.requested.None? then Some(o.signal) else d.requested)
    && (r.pc.Done? ==> r.pc.result.outcome == FinalOutcome(r.outputFailed, r.requested, r.turnFailed))
  }

  lemma EarlyDriverFollowsRequest(d: TD.Driver, o: TD.Observation)
    requires TD.Accepts(d, o) && (d.pc.Loop? || d.pc.SubmitWrite? || d.pc.AwaitWriteAck? || d.pc.Draining?)
    ensures FollowsRequest(d, o, TD.Advance(d, o))
  {
  }

  lemma GraceFollowsRequest(d: TD.Driver, o: TD.Observation)
    requires TD.Accepts(d, o) && (d.pc.GraceStart? || d.pc.GraceWait?)
    ensures FollowsRequest(d, o, TD.Advance(d, o))
  {
  }

  lemma LateDriverFollowsRequest(d: TD.Driver, o: TD.Observation)
    requires TD.Accepts(d, o) && !(d.pc.Loop? || d.pc.SubmitWrite? || d.pc.AwaitWriteAck? || d.pc.Draining?)
    ensures FollowsRequest(d, o, TD.Advance(d, o))
  {
    if d.pc.GraceStart? || d.pc.GraceWait? {
      GraceFollowsRequest(d, o);
    }
  }

  lemma DrivenKeepsInv(s: State, t: State, received: State, d: TD.Driver, signalled: bool)
    requires Inv(s) && s.exit.None? && s.main.Driving?
    requires received == s || received == Receive(s)
    requires d.requested.Some? && d.requested.value != ControlFailed ==> d.requested == received.observed
    requires d.pc.Done? ==> d.pc.result.outcome == FinalOutcome(d.outputFailed, d.requested, d.turnFailed)
    requires t == received.(main := if d.pc.Done? then Closing(d.pc.result) else Driving(d, signalled))
    ensures Inv(t)
  {
  }

  lemma DriveKeepsInv(s: State, o: TD.Observation)
    requires Inv(s) && Enabled(s, Drive(o))
    ensures Inv(DriveMain(s, o))
  {
    var d := TD.Advance(s.main.driver, o);
    var pc := s.main.driver.pc;
    if pc.Loop? || pc.SubmitWrite? || pc.AwaitWriteAck? || pc.Draining? {
      EarlyDriverFollowsRequest(s.main.driver, o);
    } else {
      LateDriverFollowsRequest(s.main.driver, o);
    }
    var received := if o.SignalSeen? && Known(s) == Some(o.signal) then Receive(s) else s;
    DrivenKeepsInv(s, DriveMain(s, o), received, d, s.main.signalled || o.SignalSeen?);
  }

  lemma StepKeepsInv(s: State, step: Step)
    requires Inv(s) && Enabled(s, step)
    ensures Inv(Apply(s, step))
  {
    match step {
      case Raise(signal) => RaiseKeepsInv(s, signal);
      case TakeControl => GuardianKeepsInv(s, step);
      case TimerFires => GuardianKeepsInv(s, step);
      case Continue => ContinueKeepsInv(s);
      case Drive(o) => DriveKeepsInv(s, o);
      case Fail(_) =>
      case Unwind =>
      case PollSignal =>
      case Succeed(_) =>
    }
  }

  // ----- whole runs -----

  predicate ValidRun(s: State, run: seq<Step>)
    decreases |run|
  {
    run == [] || (Enabled(s, run[0]) && ValidRun(Apply(s, run[0]), run[1..]))
  }

  function Final(s: State, run: seq<Step>): (r: State)
    requires ValidRun(s, run)
    decreases |run|
  {
    if run == [] then s else Final(Apply(s, run[0]), run[1..])
  }

  lemma {:induction false} RunKeepsInv(s: State, run: seq<Step>)
    requires Inv(s) && ValidRun(s, run)
    ensures Inv(Final(s, run))
    decreases |run|
  {
    if run != [] {
      StepKeepsInv(s, run[0]);
      RunKeepsInv(Apply(s, run[0]), run[1..]);
    }
  }

  /** A latched guardian is past setup, and an unlatched one has forwarded nothing. */
  lemma LatchMeansForwarded(s: State, run: seq<Step>)
    requires Initial(s) && ValidRun(s, run) && Final(s, run).exit.None?
    ensures var t := Final(s, run);
            && (t.g.latched ==> t.g.phase != SetupPhase && t.first.Some?)
            && (!t.g.latched ==> t.first.None? && t.ch.queued.None? && t.observed.None?)
  {
    InitialInv(s);
    RunKeepsInv(s, run);
  }

  /**
   Exactly when the first signal decides. A process that exits without having observed a
   signal never reports one. Otherwise its exit code is that of the first signal observed, in
   every interleaving, unless that signal was forwarded to a turn that could no longer take
   it: an unwind escaped host preparation or settlement and took the receiver with it, or reading
   the piped prompt had already failed.
   */
  lemma FirstSignalDecidesExitCode(s: State, run: seq<Step>)
    requires Initial(s) && ValidRun(s, run) && Final(s, run).exit.Some?
    ensures var t := Final(s, run);
            match t.first
            case None => t.exit.value != 130 && t.exit.value != 143
            case Some(signal) =>
              t.exit.value == ExitCode(SignalOutcome(signal)) <==>
                !(t.firstPhase == TurnPhase && (t.unwound || t.firstLate))
  {
    InitialInv(s);
    RunKeepsInv(s, run);
  }

  predicate ReadStage(main: Main)
  {
    main.ReadStart? || main.ReadActivating? || main.Reading? || main.ReadSettingUp? || main.ReadLook?
    || main.ReadFailed? || main.ReadFailedWait?
  }

  /** No unwind escapes host preparation or settlement; one while reading the prompt is caught. */
  predicate NoEscapedUnwind(s: State, run: seq<Step>)
    requires ValidRun(s, run)
    decreases |run|
  {
    run == [] || (!(run[0].Unwind? && !s.main.Reading?) && NoEscapedUnwind(Apply(s, run[0]), run[1..]))
  }

  lemma {:induction false} ArgumentRunsAreNeverLate(s: State, run: seq<Step>)
    requires ValidRun(s, run) && !ReadStage(s.main) && !s.firstLate && !s.unwound && NoEscapedUnwind(s, run)
    ensures !Final(s, run).firstLate && !Final(s, run).unwound
    decreases |run|
  {
    if run != [] {
      ArgumentRunsAreNeverLate(Apply(s, run[0]), run[1..]);
    }
  }

  /**
   A prompt given as an argument: whatever fails, unwinds inside the operation, stalls or
   arrives later, the process exits with the code of the first signal it observed, unless an
   unwind escapes host preparation or settlement.
   */
  lemma ArgumentRunExitsWithFirstSignal(s: State, run: seq<Step>)
    requires Initial(s) && s.main == Setup && ValidRun(s, run) && NoEscapedUnwind(s, run)
    requires Final(s, run).exit.Some? && Final(s, run).first.Some?
    ensures Final(s, run).exit.value == ExitCode(SignalOutcome(Final(s, run).first.value))
  {
    ArgumentRunsAreNeverLate(s, run);
    FirstSignalDecidesExitCode(s, run);
  }

  lemma {:induction false} Then(s0: State, run: seq<Step>, s: State, step: Step) returns (more: seq<Step>, t: State)
    requires ValidRun(s0, run) && Final(s0, run) == s && Enabled(s, step)
    ensures more == run + [step] && t == Apply(s, step) && ValidRun(s0, more) && Final(s0, more) == t
    decreases |run|
  {
    more, t := run + [step], Apply(s, step);
    if run == [] {
      assert more[1..] == [];
    } else {
      var rest, u := Then(Apply(s0, run[0]), run[1..], s, step);
      assert more[1..] == rest;
    }
  }

  /** From `Finishing` on, three quiet steps end the process. */
  lemma FinishingExits(s0: State, run: seq<Step>, s: State) returns (r: seq<Step>, t: State)
    requires ValidRun(s0, run) && Final(s0, run) == s
    requires s.main.Finishing? && s.control.None? && s.exit.None?
    ensures ValidRun(s0, r) && Final(s0, r) == t && t.exit == Some(ExitCode(s.main.outcome))
    ensures t.first == s.first && t.firstLate == s.firstLate && t.unwound == s.unwound
  {
    r, t := Then(s0, run, s, Continue);
    r, t := Then(s0, r, t, TakeControl);
    r, t := Then(s0, r, t, TimerFires);
  }

  /** From a committed failure, three quiet steps lead through the final phase to `Finishing`. */
  lemma FailureFinishes(s0: State, run: seq<Step>, s: State) returns (r: seq<Step>, t: State)
    requires ValidRun(s0, run) && Final(s0, run) == s
    requires (s.main.ReadFailed? || s.main.Unwound?) && s.control.None? && s.exit.None?
    ensures ValidRun(s0, r) && Final(s0, r) == t && t.control.None? && t.exit.None?
    ensures t.main == Finishing(if s.main.ReadFailed? then s.main.outcome else OperationalFailure)
    ensures t.first == s.first && t.firstLate == s.firstLate && t.unwound == s.unwound
  {
    r, t := Then(s0, run, s, Continue);
    r, t := Then(s0, r, t, TakeControl);
    r, t := Then(s0, r, t, Continue);
  }

  const IDLE: State := State(Guardian(SetupPhase, None, false), Channel(None, true), None, None, Setup, None, None, SetupPhase, false, false)

  lemma ReadBegins() returns (r: seq<Step>, s: State)
    ensures ValidRun(IDLE.(main := ReadStart), r) && Final(IDLE.(main := ReadStart), r) == s
    ensures s == IDLE.(main := Reading, g := Guardian(TurnPhase, None, false))
  {
    var i := IDLE.(main := ReadStart);
    r, s := Then(i, [], i, Continue);
    r, s := Then(i, r, s, TakeControl);
    r, s := Then(i, r, s, Continue);
  }

  lemma ReadFails() returns (r: seq<Step>, s: State)
    ensures ValidRun(IDLE.(main := ReadStart), r) && Final(IDLE.(main := ReadStart), r) == s
    ensures s == IDLE.(main := ReadFailed(PromptInput(Missing)), g := Guardian(TurnPhase, None, false))
  {
    var i := IDLE.(main := ReadStart);
    r, s := ReadBegins();
    r, s := Then(i, r, s, Fail(PromptInput(Missing)));
    r, s := Then(i, r, s, Continue);
  }

  /**
   The gap on the piped-prompt path: the failed read looks at the channel before it asks the
   guardian to stop forwarding, so an interrupt between the two is forwarded and never read.
   The process reports a missing prompt instead of the interrupt.
   */
  lemma InterruptAfterFailedReadIsLost() returns (r: seq<Step>)
    ensures ValidRun(IDLE.(main := ReadStart), r)
    ensures var t := Final(IDLE.(main := ReadStart), r);
            t.first == Some(Interrupt) && t.firstLate && t.exit == Some(2)
  {
    var i := IDLE.(main := ReadStart);
    var s;
    r, s := ReadFails();
    r, s := Then(i, r, s, Raise(Interrupt));
    r, s := FailureFinishes(i, r, s);
    r, s := FinishingExits(i, r, s);
  }

  /** The second gap: unwinding out of host preparation drops the receiver with the signal in it. */
  lemma InterruptBeforeSetupUnwindIsLost() returns (r: seq<Step>)
    ensures ValidRun(IDLE, r)
    ensures var t := Final(IDLE, r);
            t.first == Some(Interrupt) && t.unwound && t.exit == Some(1)
  {
    var s;
    r, s := Then(IDLE, [], IDLE, Continue);
    r, s := Then(IDLE, r, s, TakeControl);
    r, s := Then(IDLE, r, s, Continue);
    r, s := Then(IDLE, r, s, Raise(Interrupt));
    r, s := Then(IDLE, r, s, Unwind);
    r, s := FailureFinishes(IDLE, r, s);
    r, s := FinishingExits(IDLE, r, s);
  }

  lemma InterruptIsObserved() returns (r: seq<Step>, s: State)
    ensures ValidRun(IDLE, r) && Final(IDLE, r) == s
    ensures s == State(Guardian(TurnPhase, None, true), Channel(None, true), None, Some(Interrupt), Opening, None,
                       Some(Interrupt), TurnPhase, false, false)
  {
    r, s := Then(IDLE, [], IDLE, Continue);
    r, s := Then(IDLE, r, s, TakeControl);
    r, s := Then(IDLE, r, s, Continue);
    r, s := Then(IDLE, r, s, Continue);
    r, s := Then(IDLE, r, s, Raise(Interrupt));
    r, s := Then(IDLE, r, s, PollSignal);
  }

  /**
   The third gap: dropping the host and joining its workers happens outside the unwind
   boundaries. An unwind there loses a signal that the operation had already observed.
   */
  lemma InterruptBeforeSettlementUnwindIsLost() returns (r: seq<Step>)
    ensures ValidRun(IDLE, r)
    ensures var t := Final(IDLE, r);
            t.first == Some(Interrupt) && t.unwound && t.exit == Some(1)
  {
    var s;
    r, s := InterruptIsObserved();
    r, s := Then(IDLE, r, s, Succeed(TD.Result(Interrupted, false)));
    r, s := Then(IDLE, r, s, Unwind);
    r, s := FailureFinishes(IDLE, r, s);
    r, s := FinishingExits(IDLE, r, s);
  }
}
