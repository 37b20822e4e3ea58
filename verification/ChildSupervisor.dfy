/**
 The process-group supervisor of benchmarks/with_zig.py.

 A run starts an anchor process whose unreaped existence reserves the numeric process group,
 joins a child to that group, and finally kills the group and reaps both. A signal handler may
 run between any two statements of the run, and between any two statements of another
 handler. Each handler or run statement that reads or writes the supervisor's fields, signals
 the group or reaps the anchor is one step.
 */
module ChildSupervisor {
  import opened Shared

  datatype Anchor = Absent | Unreaped | Reaped

  /** A handler between two of its statements. */
  datatype HandlerPc = HCheck | HSet | HDecide | HForwardCheck | HForward | HForwardDone | HEnd

  datatype Frame = Frame(pc: HandlerPc, signum: nat)

  datatype Stage = ForwardCheck | Forward | ForwardDone

  /** What its exception handler was entered with. */
  datatype Cause = Signalled | TimedOut | Other

  /** `run` between two of its statements; `handling` marks its exception handler. */
  datatype Main =
    | Idle
    | Enter
    | Spawning
    | AnchorUp
    | LeaderSet
    | AnchorReady
    | ChildUp
    | ChildJoined
    | Forwarding(stage: Stage, handling: bool)
    | SpawnDone(failed: bool)
    | Check
    | Communicating
    // terminate_and_reap and terminate_anchor
    | Begin(terminate: bool, handling: bool)
    | Initial(terminate: bool, handling: bool)
    | Kill(attempt: nat, handling: bool)
    | Fallback(handling: bool)
    | CloseAuthority(handling: bool)
    | Reap(handling: bool)
    | Restore(handling: bool)
    // the verdict, the exception handler and the final resets
    | Verdict
    | Handling(cause: Cause)
    | Leaving(reset: nat)

  /** The supervisor's fields; `leader` is whether `group_leader` is set to this run's anchor. */
  datatype Fields = Fields(
    leader: bool,
    caught: Option<nat>,
    forwarded: bool,
    spawning: bool,
    cleaning: bool,
    ready: bool,
    joined: bool)

  /** The anchor, and the group signals sent so far. */
  datatype Group = Group(
    anchor: Anchor,
    forwards: nat,      // on behalf of a caught signal
    stray: bool)        // when the anchor no longer reserved the group

  datatype State = State(
    f: Fields,
    g: Group,
    main: Main,
    childUp: bool,
    frames: seq<Frame>)   // interrupted handlers below, the running one last

  datatype Step =
    | Raise(signum: nat)
    | HandlerStep
    | Proceed
    | Fail
    | Timeout           // the child does not finish in time
    | ReapInKill        // killing through the process handle reaps the anchor

  const INIT: State :=
    State(Fields(false, None, false, false, false, false, false), Group(Absent, 0, false), Idle, false, [])

  /** One `killpg` on the anchor's group. */
  function KillGroup(g: Group): (r: Group)
  {
    Group(g.anchor, g.forwards, g.stray || !g.anchor.Unreaped?)
  }

  /** `forward`: signal the group while authority is open. */
  function ForwardSignal(f: Fields, g: Group): (r: Group)
  {
    if f.leader then Group(g.anchor, g.forwards + 1, g.stray || !g.anchor.Unreaped?) else g
  }

  function Top(s: State): (frame: Frame)
    requires s.frames != []
  {
    s.frames[|s.frames| - 1]
  }

  function Below(s: State): (frames: seq<Frame>)
    requires s.frames != []
  {
    s.frames[..|s.frames| - 1]
  }

  /** The running handler moves to its next statement. */
  function Next(s: State, pc: HandlerPc): (frames: seq<Frame>)
    requires s.frames != []
  {
    Below(s) + [Frame(pc, Top(s).signum)]
  }

  /** Where an exception raised by a handler takes the run. */
  function RaiseTarget(main: Main): (r: Main)
  {
    match main
    case Idle => Idle
    case Forwarding(_, handling) => if handling then Leaving(0) else Handling(Signalled)
    case Begin(_, handling) => if handling then Leaving(0) else Handling(Signalled)
    case Handling(_) => Leaving(0)
    case Leaving(_) => Idle
    case _ => Handling(Signalled)
  }

  /** One statement of the running handler. */
  function StepHandler(s: State): (r: State)
    requires s.frames != []
  {
    match Top(s).pc
    case HCheck =>
      if s.f.caught.Some? then s.(frames := Below(s)) else s.(frames := Next(s, HSet))
    case HSet => s.(f := s.f.(caught := Some(Top(s).signum)), frames := Next(s, HDecide))
    case HDecide => s.(frames := Next(s, if s.f.ready && s.f.joined then HForwardCheck else HEnd))
    case HForwardCheck => s.(frames := Next(s, if s.f.forwarded then HEnd else HForward))
    case HForward => s.(g := ForwardSignal(s.f, s.g), frames := Next(s, HForwardDone))
    case HForwardDone => s.(f := s.f.(forwarded := true), frames := Next(s, HEnd))
    case HEnd =>
      if s.f.spawning || s.f.cleaning then s.(frames := Below(s))
      else s.(frames := [], main := RaiseTarget(s.main))
  }

  function AfterForward(handling: bool): (r: Main)
  {
    if handling then Begin(false, true) else SpawnDone(false)
  }

  /** The next statement of `run`, as it changes the fields. */
  function NextFields(main: Main, f: Fields): (r: Fields)
  {
    match main
    case Enter => f.(spawning := true)
    case AnchorUp => f.(leader := true)
    case LeaderSet => f.(ready := true)
    case ChildUp => f.(joined := true)
    case Forwarding(stage, _) => if stage.ForwardDone? then f.(forwarded := true) else f
    case SpawnDone(_) => f.(spawning := false)
    case Begin(_, _) => f.(cleaning := true)
    case CloseAuthority(_) => f.(leader := false)
    case Restore(_) => f.(cleaning := false)
    case Leaving(reset) =>
      if reset == 1 then f.(leader := false)
      else if reset == 2 then f.(ready := false)
      else if reset == 3 then f.(joined := false)
      else f
    case _ => f
  }

  /** ... as it signals the group or reaps the anchor. */
  function NextGroup(main: Main, f: Fields, g: Group): (r: Group)
  {
    match main
    case Idle => g.(anchor := Absent)
    case Spawning => g.(anchor := Unreaped)
    case Forwarding(stage, _) => if stage.Forward? then ForwardSignal(f, g) else g
    case Initial(terminate, _) => if terminate then KillGroup(g) else g
    case Kill(_, _) => KillGroup(g)
    case Reap(_) => g.(anchor := Reaped)
    case _ => g
  }

  /** ... and where it leads. */
  function NextMain(main: Main, f: Fields, childUp: bool): (r: Main)
  {
    match main
    case Idle => Enter
    case Enter => Spawning
    case Spawning => AnchorUp
    case AnchorUp => LeaderSet
    case LeaderSet => AnchorReady
    case AnchorReady => ChildUp
    case ChildUp => ChildJoined
    case ChildJoined => if f.caught.Some? then Forwarding(ForwardCheck, false) else SpawnDone(false)
    case Forwarding(stage, handling) =>
      (match stage
       case ForwardCheck => if f.forwarded then AfterForward(handling) else Forwarding(Forward, handling)
       case Forward => Forwarding(ForwardDone, handling)
       case ForwardDone => AfterForward(handling))
    case SpawnDone(failed) => if failed then Handling(Other) else Check
    case Check => if f.caught.Some? then Handling(Signalled) else Communicating
    case Communicating => Begin(false, false)
    case Begin(terminate, handling) => Initial(terminate, handling)
    case Initial(_, handling) => Kill(0, handling)
    case Kill(_, handling) => CloseAuthority(handling)
    case Fallback(handling) => CloseAuthority(handling)
    case CloseAuthority(handling) => Reap(handling)
    case Reap(handling) => Restore(handling)
    case Restore(handling) => if handling then Leaving(0) else Verdict
    case Verdict => if f.caught.Some? then Handling(Signalled) else Leaving(0)
    case Handling(cause) =>
      if !f.leader then Leaving(0)
      else if childUp && cause.Signalled? then Forwarding(ForwardCheck, true)
      else Begin(childUp && cause.Other?, true)
    case Leaving(reset) => if reset < 3 then Leaving(reset + 1) else Idle
  }

  predicate MayFail(main: Main)
  {
    main.Spawning? || main.AnchorUp? || main.LeaderSet? || main.AnchorReady? || main.Communicating?
    || main.Verdict? || main.Kill? || main.Reap?
  }

  /** A statement that raises, or a kill or reap that does not succeed. */
  function AfterFailure(main: Main): (r: Main)
  {
    match main
    case Kill(attempt, handling) => if attempt < 2 then Kill(attempt + 1, handling) else Fallback(handling)
    case Reap(handling) => Restore(handling)
    case Communicating | Verdict => Handling(Other)
    case _ => SpawnDone(true)
  }

  predicate Enabled(s: State, step: Step, killReaps: bool)
  {
    match step
    case Raise(_) => true
    case HandlerStep => s.frames != []
    case Proceed => s.frames == [] && (s.main.Idle? ==> !s.f.leader && s.f.caught.None?)
    case Fail => s.frames == [] && MayFail(s.main)
    case Timeout => s.frames == [] && s.main.Communicating?
    case ReapInKill => s.frames == [] && s.main.Fallback? && killReaps
  }

  function Apply(s: State, step: Step): (r: State)
    requires Enabled(s, step, true)
  {
    match step
    case Raise(signum) => s.(frames := s.frames + [Frame(HCheck, signum)])
    case HandlerStep => StepHandler(s)
    case Proceed =>
      State(NextFields(s.main, s.f), NextGroup(s.main, s.f, s.g), NextMain(s.main, s.f, s.childUp),
            if s.main.Idle? then false else s.childUp || s.main.AnchorReady?, [])
    case Fail => s.(main := AfterFailure(s.main), g := if s.main.Kill? then KillGroup(s.g) else s.g)
    case Timeout => s.(main := Handling(TimedOut))
    case ReapInKill => s.(main := CloseAuthority(s.main.handling), g := s.g.(anchor := Reaped))
  }

  // ----- invariant -----

  /** What the fields say at each point of the run. */
  predicate MainFits(main: Main, f: Fields, anchor: Anchor)
  {
    match main
    case Idle => !f.spawning && !f.cleaning && (f.caught.None? ==> !f.leader && !f.ready && !f.joined)
    case Enter => !f.spawning && !f.cleaning && !f.leader && !f.ready && !f.joined
    case Spawning => f.spawning && !f.cleaning && !f.leader && !f.ready && !f.joined
    case AnchorUp => f.spawning && !f.cleaning && !f.leader && !f.ready && !f.joined && anchor.Unreaped?
    case LeaderSet | AnchorReady | ChildUp | ChildJoined => f.spawning && !f.cleaning && f.leader
    case Forwarding(_, handling) => f.spawning == !handling && !f.cleaning && f.leader && f.caught.Some?
    case SpawnDone(failed) => f.spawning && !f.cleaning && (!failed ==> f.leader)
    case Check | Communicating | Begin(_, _) => !f.spawning && !f.cleaning && f.leader
    case Initial(_, _) | Kill(_, _) | Fallback(_) | CloseAuthority(_) => !f.spawning && f.cleaning && f.leader
    case Reap(_) | Restore(_) => !f.spawning && f.cleaning && !f.leader
    case Verdict => !f.spawning && !f.cleaning
    case Handling(cause) => !f.spawning && !f.cleaning && (cause.Signalled? ==> f.caught.Some?)
    case Leaving(reset) =>
      !f.spawning && !f.cleaning && reset <= 3 && (reset >= 2 ==> !f.leader) && (reset >= 3 ==> !f.ready)
  }

  /** Open authority means the anchor still reserves the group. */
  predicate AuthorityFits(main: Main, f: Fields, g: Group)
  {
    MainFits(main, f, g.anchor) && (f.leader ==> g.anchor.Unreaped?) && !g.stray
  }

  predicate PastSet(pc: HandlerPc)
  {
    !pc.HCheck? && !pc.HSet?
  }

  predicate Sends(pc: HandlerPc)
  {
    pc.HForward? || pc.HForwardDone?
  }

  predicate MainSends(main: Main)
  {
    main.Forwarding? && !main.stage.ForwardCheck?
  }

  /** Handlers above one that has recorded its signal find it recorded and return at once. */
  ghost predicate FramesFit(frames: seq<Frame>, main: Main, f: Fields)
  {
    && (forall i :: 0 <= i < |frames| && PastSet(frames[i].pc) ==> f.caught.Some?)
    && (forall i, j :: 0 <= i < j < |frames| && PastSet(frames[i].pc) ==> frames[j].pc.HCheck?)
    && (main.Forwarding? ==> forall i :: 0 <= i < |frames| ==> frames[i].pc.HCheck?)
  }

  ghost predicate NobodySends(frames: seq<Frame>, main: Main)
  {
    !MainSends(main) && forall i :: 0 <= i < |frames| ==> !Sends(frames[i].pc)
  }

  /** The group is signalled at most once, by whoever sets the flag next. */
  ghost predicate CountFits(frames: seq<Frame>, main: Main, f: Fields, g: Group)
  {
    && g.forwards <= 1
    && (main.Forwarding? && main.stage.Forward? ==> g.forwards == 0)
    && (forall i :: 0 <= i < |frames| && frames[i].pc.HForward? ==> g.forwards == 0)
    && (!NobodySends(frames, main) ==> !f.forwarded)
    && (NobodySends(frames, main) && !f.forwarded ==> g.forwards == 0)
  }

  ghost predicate Inv(s: State)
  {
    && AuthorityFits(s.main, s.f, s.g)
    && FramesFit(s.frames, s.main, s.f)
    && CountFits(s.frames, s.main, s.f, s.g)
  }

  // ----- every step keeps it -----

  lemma RunKeepsAuthority(main: Main, f: Fields, g: Group, childUp: bool)
    requires AuthorityFits(main, f, g) && (main.Idle? ==> f.caught.None?)
    ensures AuthorityFits(NextMain(main, f, childUp), NextFields(main, f), NextGroup(main, f, g))
  {
  }

  lemma RunKeepsCount(main: Main, f: Fields, g: Group, childUp: bool)
    requires MainFits(main, f, g.anchor) && CountFits([], main, f, g)
    ensures CountFits([], NextMain(main, f, childUp), NextFields(main, f), NextGroup(main, f, g))
  {
  }

  lemma RaiseKeepsAuthority(main: Main, f: Fields, g: Group)
    requires AuthorityFits(main, f, g) && !f.spawning && !f.cleaning && f.caught.Some?
    ensures AuthorityFits(RaiseTarget(main), f, g)
  {
  }

  /** With the running handler past its first check, no interrupted one has recorded a signal. */
  lemma OnlyTopIsPastSet(frames: seq<Frame>, main: Main, f: Fields)
    requires FramesFit(frames, main, f) && frames != [] && !frames[|frames| - 1].pc.HCheck?
    ensures forall i :: 0 <= i < |frames| - 1 ==> !PastSet(frames[i].pc)
    ensures !main.Forwarding?
  {
  }

  /** The running handler moves to `pc`, recording its signal on the way if it had not. */
  lemma HandlerKeepsFrames(s: State, f: Fields, pc: HandlerPc)
    requires FramesFit(s.frames, s.main, s.f) && s.frames != [] && (s.main.Forwarding? ==> s.f.caught.Some?)
    requires s.f.caught.Some? ==> f.caught.Some?
    requires PastSet(pc) ==> f.caught.Some? && !Top(s).pc.HCheck?
    requires Top(s).pc.HCheck? ==> s.f.caught.None?
    ensures FramesFit(Next(s, pc), s.main, f)
  {
    var top := |s.frames| - 1;
    assert s.frames[top] == Top(s);
    if !Top(s).pc.HCheck? {
      OnlyTopIsPastSet(s.frames, s.main, s.f);
    }
  }

  lemma PopKeepsFrames(s: State)
    requires FramesFit(s.frames, s.main, s.f) && s.frames != []
    ensures FramesFit(Below(s), s.main, s.f)
  {
  }

  lemma HandlerKeepsInvFrames(s: State)
    requires Inv(s) && s.frames != []
    ensures var t := StepHandler(s); FramesFit(t.frames, t.main, t.f)
  {
    var f := s.f;
    assert s.frames[|s.frames| - 1] == Top(s);
    match Top(s).pc {
      case HCheck => if f.caught.Some? { PopKeepsFrames(s); } else { HandlerKeepsFrames(s, f, HSet); }
      case HSet => HandlerKeepsFrames(s, f.(caught := Some(Top(s).signum)), HDecide);
      case HDecide => HandlerKeepsFrames(s, f, if f.ready && f.joined then HForwardCheck else HEnd);
      case HForwardCheck => HandlerKeepsFrames(s, f, if f.forwarded then HEnd else HForward);
      case HForward => HandlerKeepsFrames(s, f, HForwardDone);
      case HForwardDone => HandlerKeepsFrames(s, f.(forwarded := true), HEnd);
      case HEnd => PopKeepsFrames(s);
    }
  }

  lemma HandlerKeepsAuthority(s: State)
    requires Inv(s) && s.frames != []
    ensures var t := StepHandler(s); AuthorityFits(t.main, t.f, t.g)
  {
    assert s.frames[|s.frames| - 1] == Top(s);
    if Top(s).pc.HEnd? && !s.f.spawning && !s.f.cleaning {
      RaiseKeepsAuthority(s.main, s.f, s.g);
    }
  }

  /** Only the running handler can be sending once it is past its first check. */
  lemma SenderIsTop(frames: seq<Frame>, main: Main, f: Fields)
    requires FramesFit(frames, main, f) && frames != [] && !frames[|frames| - 1].pc.HCheck?
    ensures NobodySends(frames, main) <==> !Sends(frames[|frames| - 1].pc)
    ensures NobodySends(frames[..|frames| - 1], main)
  {
    OnlyTopIsPastSet(frames, main, f);
  }

  lemma HandlerKeepsCount(s: State)
    requires Inv(s) && s.frames != []
    ensures var t := StepHandler(s); CountFits(t.frames, t.main, t.f, t.g)
  {
    var top := |s.frames| - 1;
    var t := StepHandler(s);
    assert s.frames[top] == Top(s);
    HandlerKeepsInvFrames(s);
    if Top(s).pc.HCheck? {
      CheckKeepsCount(s);
    } else {
      SenderIsTop(s.frames, s.main, s.f);
      MovedKeepsCount(s, t);
    }
  }

  lemma CheckKeepsCount(s: State)
    requires Inv(s) && s.frames != [] && Top(s).pc.HCheck?
    ensures var t := StepHandler(s); CountFits(t.frames, t.main, t.f, t.g)
  {
    var top := |s.frames| - 1;
    var t := StepHandler(s);
    assert s.frames[top] == Top(s);
    assert forall i :: 0 <= i < |t.frames| && i < top ==> t.frames[i] == s.frames[i];
    assert |t.frames| > top ==> t.frames[top].pc.HSet?;
    assert NobodySends(t.frames, t.main) <==> NobodySends(s.frames, s.main);
  }

  lemma MovedKeepsCount(s: State, t: State)
    requires Inv(s) && s.frames != [] && !Top(s).pc.HCheck? && t == StepHandler(s)
    requires NobodySends(s.frames, s.main) <==> !Sends(Top(s).pc)
    requires NobodySends(Below(s), s.main)
    ensures CountFits(t.frames, t.main, t.f, t.g)
  {
    var top := |s.frames| - 1;
    assert s.frames[top] == Top(s);
    OnlyTopIsPastSet(s.frames, s.main, s.f);
    if t.frames != [] && t.frames != Below(s) {
      assert t.frames == Below(s) + [t.frames[top]];
      assert NobodySends(t.frames, t.main) <==> !Sends(t.frames[top].pc);
      assert forall i :: 0 <= i < top ==> t.frames[i] == s.frames[i];
    }
  }

  lemma PushKeepsCount(s: State, frame: Frame)
    requires Inv(s) && frame.pc.HCheck?
    ensures FramesFit(s.frames + [frame], s.main, s.f) && CountFits(s.frames + [frame], s.main, s.f, s.g)
  {
    var frames := s.frames + [frame];
    assert forall i :: 0 <= i < |s.frames| ==> frames[i] == s.frames[i];
    assert NobodySends(frames, s.main) <==> NobodySends(s.frames, s.main) by {
      if NobodySends(frames, s.main) {
        forall i | 0 <= i < |s.frames| ensures !Sends(s.frames[i].pc) {
          assert frames[i] == s.frames[i];
        }
      }
    }
  }

  lemma StepKeepsInv(s: State, step: Step)
    requires Inv(s) && Enabled(s, step, false)
    ensures Inv(Apply(s, step))
  {
    match step {
      case Raise(signum) =>
        PushKeepsCount(s, Frame(HCheck, signum));
      case HandlerStep =>
        HandlerKeepsAuthority(s);
        HandlerKeepsInvFrames(s);
        HandlerKeepsCount(s);
      case Proceed =>
        RunKeepsAuthority(s.main, s.f, s.g, s.childUp);
        RunKeepsCount(s.main, s.f, s.g, s.childUp);
      case Fail =>
      case Timeout =>
    }
  }

  // ----- forwarded exactly once -----

  predicate Early(main: Main)
  {
    main.Enter? || main.Spawning? || main.AnchorUp? || main.LeaderSet? || main.AnchorReady? || main.ChildUp?
  }

  /** A handler that has recorded its signal and not yet dealt with it. */
  predicate Deciding(pc: HandlerPc)
  {
    pc.HDecide? || pc.HForwardCheck? || Sends(pc)
  }

  ghost predicate SomeoneDecides(frames: seq<Frame>)
  {
    exists i :: 0 <= i < |frames| && Deciding(frames[i].pc)
  }

  predicate FieldsFit(main: Main, f: Fields, g: Group)
  {
    && (f.caught.None? ==> !f.forwarded)
    && (Early(main) ==> !f.joined && !f.forwarded)
    && (main.AnchorReady? || main.ChildUp? ==> f.ready)
    && (f.leader && f.joined ==> f.ready)
    && (f.leader && f.forwarded ==> g.forwards == 1)
    && (main.Forwarding? && main.stage.ForwardDone? ==> g.forwards == 1)
  }

  ghost predicate HandlersFit(frames: seq<Frame>, f: Fields, g: Group)
  {
    && (forall i :: 0 <= i < |frames| && frames[i].pc.HForwardDone? && f.leader ==> g.forwards == 1)
    && (forall i :: 0 <= i < |frames| && (frames[i].pc.HForwardCheck? || Sends(frames[i].pc)) ==> f.joined)
  }

  /** A caught signal that should have reached the group has, or is on its way. */
  ghost predicate OnItsWay(frames: seq<Frame>, main: Main, f: Fields)
  {
    f.caught.Some? && f.joined && f.leader && !f.forwarded ==>
      main.ChildJoined? || main.Forwarding? || SomeoneDecides(frames)
  }

  ghost predicate OnceInv(s: State)
  {
    Inv(s) && FieldsFit(s.main, s.f, s.g) && HandlersFit(s.frames, s.f, s.g) && OnItsWay(s.frames, s.main, s.f)
  }

  lemma RunKeepsOnce(main: Main, f: Fields, g: Group, childUp: bool)
    requires AuthorityFits(main, f, g) && CountFits([], main, f, g) && (main.Idle? ==> f.caught.None?)
    requires FieldsFit(main, f, g) && OnItsWay([], main, f)
    ensures FieldsFit(NextMain(main, f, childUp), NextFields(main, f), NextGroup(main, f, g))
    ensures OnItsWay([], NextMain(main, f, childUp), NextFields(main, f))
  {
    assert !SomeoneDecides([]);
  }

  lemma HandlerKeepsFields(s: State)
    requires OnceInv(s) && s.frames != []
    ensures var t := StepHandler(s); FieldsFit(t.main, t.f, t.g)
  {
    assert s.frames[|s.frames| - 1] == Top(s);
  }

  lemma HandlerKeepsHandlers(s: State)
    requires OnceInv(s) && s.frames != []
    ensures var t := StepHandler(s); HandlersFit(t.frames, t.f, t.g)
  {
    var top := |s.frames| - 1;
    assert s.frames[top] == Top(s);
    if !Top(s).pc.HCheck? {
      OnlyTopIsPastSet(s.frames, s.main, s.f);
    }
  }

  lemma HandlerKeepsOnItsWay(s: State)
    requires OnceInv(s) && s.frames != []
    ensures var t := StepHandler(s); OnItsWay(t.frames, t.main, t.f)
  {
    var top := |s.frames| - 1;
    var t := StepHandler(s);
    assert s.frames[top] == Top(s);
    if Top(s).pc.HCheck? {
      if SomeoneDecides(s.frames) {
        var i :| 0 <= i < |s.frames| && Deciding(s.frames[i].pc);
        assert i < top && t.frames[i] == s.frames[i];
      }
    } else {
      OnlyTopIsPastSet(s.frames, s.main, s.f);
      assert SomeoneDecides(s.frames) ==> Deciding(Top(s).pc);
      if t.frames != [] && |t.frames| == |s.frames| {
        assert Deciding(t.frames[top].pc) ==> SomeoneDecides(t.frames);
      }
    }
  }

  lemma StepKeepsOnce(s: State, step: Step)
    requires OnceInv(s) && Enabled(s, step, false)
    ensures OnceInv(Apply(s, step))
  {
    StepKeepsInv(s, step);
    match step {
      case Raise(signum) =>
        var frames := s.frames + [Frame(HCheck, signum)];
        if SomeoneDecides(s.frames) {
          var i :| 0 <= i < |s.frames| && Deciding(s.frames[i].pc);
          assert frames[i] == s.frames[i];
        }
      case HandlerStep =>
        HandlerKeepsFields(s);
        HandlerKeepsHandlers(s);
        HandlerKeepsOnItsWay(s);
      case Proceed => RunKeepsOnce(s.main, s.f, s.g, s.childUp);
      case Fail =>
      case Timeout =>
    }
  }

  // ----- whole runs -----

  predicate ValidRun(s: State, run: seq<Step>, killReaps: bool)
    decreases |run|
  {
    run == [] || (Enabled(s, run[0], killReaps) && ValidRun(Apply(s, run[0]), run[1..], killReaps))
  }

  function Final(s: State, run: seq<Step>, killReaps: bool): (r: State)
    requires ValidRun(s, run, killReaps)
    decreases |run|
  {
    if run == [] then s else Final(Apply(s, run[0]), run[1..], killReaps)
  }

  // ----- a fallback kill that reaps changes nothing but the reservation -----

  function PlainStep(step: Step): Step { if step.ReapInKill? then Proceed else step }

  /** The same run with a fallback kill that leaves the anchor unreaped. */
  function Plain(run: seq<Step>): (r: seq<Step>)
    ensures |r| == |run|
  {
    seq(|run|, i requires 0 <= i < |run| => PlainStep(run[i]))
  }

  /** The states differ at most in the anchor, and in whether a signal went astray. */
  predicate Alike(s: State, t: State)
  {
    s.f == t.f && s.g.forwards == t.g.forwards && s.main == t.main && s.childUp == t.childUp && s.frames == t.frames
  }

  /** Open authority means a reserved group, except between a reaping fallback and its closing. */
  predicate Reserved(s: State)
  {
    s.f.leader || s.main.AnchorUp? ==> s.g.anchor.Unreaped? || s.main.CloseAuthority?
  }

  /** A run `s` beside the plain run `t`. */
  ghost predicate Follows(s: State, t: State)
  {
    Alike(s, t) && OnceInv(t) && Reserved(s)
  }

  lemma HandlerAlike(s: State, g: Group)
    requires g.forwards == s.g.forwards && s.frames != []
    ensures Alike(StepHandler(s), StepHandler(s.(g := g)))
  {
    var t := s.(g := g);
    assert Top(t) == Top(s) && Below(t) == Below(s);
    assert forall pc :: Next(t, pc) == Next(s, pc);
  }

  lemma HandlerKeepsReserved(s: State, anchor: Anchor)
    requires Reserved(s) && MainFits(s.main, s.f, anchor) && s.frames != []
    ensures Reserved(StepHandler(s))
  {
    if Top(s).pc.HEnd? && !s.f.spawning && !s.f.cleaning {
      assert !s.main.CloseAuthority? && !RaiseTarget(s.main).AnchorUp?;
    }
  }

  lemma ProceedAlike(s: State, t: State)
    requires Alike(s, t) && Reserved(s) && AuthorityFits(t.main, t.f, t.g) && Enabled(s, Proceed, true)
    ensures Alike(Apply(s, Proceed), Apply(t, Proceed)) && Reserved(Apply(s, Proceed))
  {
  }

  lemma StepAlike(s: State, t: State, step: Step)
    requires Follows(s, t) && Enabled(s, step, true)
    ensures Enabled(t, PlainStep(step), false) && Follows(Apply(s, step), Apply(t, PlainStep(step)))
  {
    StepKeepsOnce(t, PlainStep(step));
    match step {
      case Raise(_) =>
      case HandlerStep =>
        assert t == s.(g := t.g);
        HandlerAlike(s, t.g);
        HandlerKeepsReserved(s, t.g.anchor);
      case Proceed => ProceedAlike(s, t);
      case Fail =>
      case Timeout =>
      case ReapInKill =>
    }
  }

  lemma {:induction false} RunAlike(s: State, t: State, run: seq<Step>, killReaps: bool)
    requires Follows(s, t) && ValidRun(s, run, killReaps)
    ensures ValidRun(t, Plain(run), false) && Follows(Final(s, run, killReaps), Final(t, Plain(run), false))
    decreases |run|
  {
    if run != [] {
      StepAlike(s, t, run[0]);
      assert Plain(run)[1..] == Plain(run[1..]);
      RunAlike(Apply(s, run[0]), Apply(t, PlainStep(run[0])), run[1..], killReaps);
    }
  }

  /**
   A caught signal is forwarded at most once; and exactly once as soon as the child has joined
   the group, authority is open, and neither a handler nor the run's own catch-up is at it.
   */
  lemma CaughtSignalIsForwardedExactlyOnce(run: seq<Step>, killReaps: bool)
    requires ValidRun(INIT, run, killReaps)
    ensures var s := Final(INIT, run, killReaps);
            && s.g.forwards <= 1
            && (s.f.caught.None? ==> s.g.forwards == 0)
            && (&& s.f.caught.Some? && s.f.joined && s.f.leader
                && s.frames == [] && !s.main.ChildJoined? && !s.main.Forwarding?
                ==> s.g.forwards == 1)
  {
    RunAlike(INIT, INIT, run, killReaps);
    var s := Final(INIT, Plain(run), false);
    assert s.frames == [] ==> !SomeoneDecides(s.frames);
    if s.f.caught.None? {
      assert forall i :: 0 <= i < |s.frames| ==> !PastSet(s.frames[i].pc);
      assert NobodySends(s.frames, s.main);
    }
  }

  // ----- when the group is signalled without a reservation -----

  /** The fallback may now reap with the child joined and no signal caught yet. */
  predicate Open(s: State)
  {
    s.frames == [] && s.main.Fallback? && s.f.joined && s.f.caught.None?
  }

  /** A signal arrives right after such a fallback. */
  predicate Exposed(s: State, run: seq<Step>, killReaps: bool)
    requires ValidRun(s, run, killReaps)
    decreases |run|
  {
    run != [] &&
    (|| (run[0].ReapInKill? && Open(s) && |run| > 1 && run[1].Raise?)
     || Exposed(Apply(s, run[0]), run[1..], killReaps))
  }

  predicate Forwards(pc: HandlerPc)
  {
    pc.HForwardCheck? || Sends(pc)
  }

  /** Between a reaping fallback and the closing of authority, no handler forwards. */
  ghost predicate Quiet(s: State)
  {
    s.main.CloseAuthority? && !s.g.anchor.Unreaped? ==>
      && (forall i :: 0 <= i < |s.frames| ==> !Forwards(s.frames[i].pc))
      && (s.f.joined ==> s.f.caught.Some? && forall i :: 0 <= i < |s.frames| ==> s.frames[i].pc.HCheck?)
  }

  lemma HandlerStaysQuiet(s: State, t: State)
    requires Follows(s, t) && Quiet(s) && !s.g.stray && s.frames != []
    ensures Quiet(StepHandler(s)) && !StepHandler(s).g.stray
  {
    assert s.frames[|s.frames| - 1] == Top(s);
  }

  lemma StepStaysQuiet(s: State, t: State, step: Step)
    requires Follows(s, t) && Quiet(s) && !s.g.stray && Enabled(s, step, true)
    requires !(step.ReapInKill? && Open(s))
    ensures Quiet(Apply(s, step)) && !Apply(s, step).g.stray
  {
    match step {
      case Raise(_) =>
      case HandlerStep => HandlerStaysQuiet(s, t);
      case Proceed =>
      case Fail =>
      case Timeout =>
      case ReapInKill =>
    }
  }

  /** With no signal in between, authority is closed right after a fallback that reaps. */
  lemma ClosedAtOnce(s: State, t: State, step: Step)
    requires Follows(s, t) && Open(s) && !s.g.stray
    requires Enabled(Apply(s, ReapInKill), step, true) && !step.Raise?
    ensures step.Proceed? && Quiet(Apply(Apply(s, ReapInKill), step)) && !Apply(Apply(s, ReapInKill), step).g.stray
  {
  }

  lemma {:induction false} UnexposedRunsAreQuiet(s: State, t: State, run: seq<Step>, killReaps: bool)
    requires Follows(s, t) && Quiet(s) && !s.g.stray
    requires ValidRun(s, run, killReaps) && !Exposed(s, run, killReaps)
    ensures !Final(s, run, killReaps).g.stray
    decreases |run|
  {
    if run != [] {
      var u, v, rest := Apply(s, run[0]), Apply(t, PlainStep(run[0])), run[1..];
      StepAlike(s, t, run[0]);
      if !run[0].ReapInKill? || !Open(s) {
        StepStaysQuiet(s, t, run[0]);
        UnexposedRunsAreQuiet(u, v, rest, killReaps);
      } else if rest != [] {
        assert run[1] == rest[0];
        ClosedAtOnce(s, t, rest[0]);
        StepAlike(u, v, rest[0]);
        UnexposedRunsAreQuiet(Apply(u, rest[0]), Apply(v, PlainStep(rest[0])), rest[1..], killReaps);
      }
    }
  }

  /**
   Wherever handlers interrupt the run or one another, and whether or not the fallback kill may
   reap: the group is signalled only while the unreaped anchor reserves its number, unless a
   signal arrives right after a fallback that reaped the anchor of a joined child with no signal
   caught before. Open authority means an unreaped anchor everywhere else.
   */
  lemma GroupIsSignalledOnlyWhileReserved(run: seq<Step>, killReaps: bool)
    requires ValidRun(INIT, run, killReaps)
    ensures var s := Final(INIT, run, killReaps);
            && (s.g.stray ==> killReaps && Exposed(INIT, run, killReaps))
            && (s.f.leader ==> s.g.anchor.Unreaped? || (killReaps && s.main.CloseAuthority?))
  {
    RunAlike(INIT, INIT, run, killReaps);
    if !Exposed(INIT, run, killReaps) {
      UnexposedRunsAreQuiet(INIT, INIT, run, killReaps);
    }
    if !killReaps {
      UnreapingIsPlain(INIT, run);
    }
  }

  lemma {:induction false} UnreapingIsPlain(s: State, run: seq<Step>)
    requires ValidRun(s, run, false)
    ensures Plain(run) == run && !Exposed(s, run, false)
    decreases |run|
  {
    if run != [] {
      UnreapingIsPlain(Apply(s, run[0]), run[1..]);
      assert Plain(run) == [run[0]] + Plain(run[1..]);
    }
  }

  // ----- a run in which the fallback breaks the reservation -----

  lemma {:induction false} Then(s0: State, run: seq<Step>, s: State, step: Step) returns (more: seq<Step>, t: State)
    requires ValidRun(s0, run, true) && Final(s0, run, true) == s && Enabled(s, step, true)
    ensures more == run + [step] && t == Apply(s, step) && ValidRun(s0, more, true) && Final(s0, more, true) == t
    decreases |run|
  {
    more, t := run + [step], Apply(s, step);
    if run == [] {
      assert more[1..] == [];
    } else {
      var rest, u := Then(Apply(s0, run[0]), run[1..], s, step);
      assert more[1..] == rest;
    }
  }

  lemma AnchorComesUp() returns (r: seq<Step>, s: State)
    ensures ValidRun(INIT, r, true) && Final(INIT, r, true) == s
    ensures s == State(Fields(true, None, false, true, false, true, false), Group(Unreaped, 0, false), AnchorReady, false, [])
  {
    r, s := Then(INIT, [], INIT, Proceed);
    r, s := Then(INIT, r, s, Proceed);
    r, s := Then(INIT, r, s, Proceed);
    r, s := Then(INIT, r, s, Proceed);
    r, s := Then(INIT, r, s, Proceed);
  }

  lemma ChildCommunicates() returns (r: seq<Step>, s: State)
    ensures ValidRun(INIT, r, true) && Final(INIT, r, true) == s
    ensures s == State(Fields(true, None, false, false, false, true, true), Group(Unreaped, 0, false), Communicating, true, [])
  {
    r, s := AnchorComesUp();
    r, s := Then(INIT, r, s, Proceed);
    r, s := Then(INIT, r, s, Proceed);
    r, s := Then(INIT, r, s, Proceed);
    r, s := Then(INIT, r, s, Proceed);
    r, s := Then(INIT, r, s, Proceed);
  }

  lemma GroupKillBegins() returns (r: seq<Step>, s: State)
    ensures ValidRun(INIT, r, true) && Final(INIT, r, true) == s
    ensures s == State(Fields(true, None, false, false, true, true, true), Group(Unreaped, 0, false), Kill(0, false), true, [])
  {
    r, s := ChildCommunicates();
    r, s := Then(INIT, r, s, Proceed);
    r, s := Then(INIT, r, s, Proceed);
    r, s := Then(INIT, r, s, Proceed);
  }

  lemma FallbackIsReached() returns (r: seq<Step>, s: State)
    ensures ValidRun(INIT, r, true) && Final(INIT, r, true) == s && Open(s)
  {
    r, s := GroupKillBegins();
    r, s := Then(INIT, r, s, Fail);
    r, s := Then(INIT, r, s, Fail);
    r, s := Then(INIT, r, s, Fail);
  }

  /**
   The exception is exact: after every run that stands open before the fallback, a fallback that
   reaps and a signal before the next statement end with a signal to a group number that may
   belong to someone else.
   */
  lemma EveryExposureCanStray(run: seq<Step>, signum: nat) returns (r: seq<Step>)
    requires ValidRun(INIT, run, true) && Open(Final(INIT, run, true))
    ensures run + [ReapInKill, Raise(signum)] <= r
    ensures ValidRun(INIT, r, true) && Final(INIT, r, true).g.stray
  {
    RunAlike(INIT, INIT, run, true);
    var s := Final(INIT, run, true);
    r, s := Then(INIT, run, s, ReapInKill);
    r, s := Then(INIT, r, s, Raise(signum));
    r, s := RecordedByHandler(r, s, signum);
    r, s := ForwardedByHandler(r, s, signum);
  }

  lemma RecordedByHandler(run: seq<Step>, s0: State, signum: nat) returns (r: seq<Step>, s: State)
    requires ValidRun(INIT, run, true) && Final(INIT, run, true) == s0 && s0.frames == [Frame(HCheck, signum)]
    requires s0.f.caught.None?
    ensures run <= r && ValidRun(INIT, r, true) && Final(INIT, r, true) == s
    ensures s == s0.(f := s0.f.(caught := Some(signum)), frames := [Frame(HDecide, signum)])
  {
    r, s := Then(INIT, run, s0, HandlerStep);
    assert s == s0.(frames := [Frame(HSet, signum)]);
    r, s := Then(INIT, r, s, HandlerStep);
  }

  lemma ForwardedByHandler(run: seq<Step>, s0: State, signum: nat) returns (r: seq<Step>, s: State)
    requires ValidRun(INIT, run, true) && Final(INIT, run, true) == s0 && s0.frames == [Frame(HDecide, signum)]
    requires !s0.f.forwarded && s0.f.ready && s0.f.joined && s0.f.leader && !s0.g.anchor.Unreaped?
    ensures run <= r && ValidRun(INIT, r, true) && Final(INIT, r, true) == s && s.g.stray
  {
    r, s := Then(INIT, run, s0, HandlerStep);
    assert s == s0.(frames := [Frame(HForwardCheck, signum)]);
    r, s := Then(INIT, r, s, HandlerStep);
    assert s == s0.(frames := [Frame(HForward, signum)]);
    r, s := Then(INIT, r, s, HandlerStep);
  }

  /** Such a run exists: every group kill fails, and the fallback reaps. */
  lemma ReapingFallbackBreaksReservation() returns (r: seq<Step>)
    ensures ValidRun(INIT, r, true) && Final(INIT, r, true).g.stray
  {
    var s;
    r, s := FallbackIsReached();
    r := EveryExposureCanStray(r, 15);
  }
}
