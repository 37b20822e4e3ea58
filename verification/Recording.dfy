/**
 The streaming recording modifier: an iterator adapter hides `--record` from the command parser
 while it reads, and the outcome equals a declarative reading of the whole argument list.
 */
module Recording {
  import opened Shared

  /** A process argument; not every one is valid Unicode. */
  datatype OsString = Unicode(text: string) | Other(bytes: seq<nat>)

  const RECORD := Unicode("--record")

  datatype Command<T> = Interactive(selection: T) | Noninteractive(command: T)

  /**
   Any command parser that pulls its arguments one at a time: in a state it either has a verdict
   or asks for the next argument, and it stops asking some time after the arguments have ended.
   */
  datatype Parser<!S, T> = Parser(
    start: S,
    verdict: S -> Option<Option<Command<T>>>,
    next: (S, Option<OsString>) -> S,
    rank: S -> nat)

  ghost predicate Stops<S(!new), T>(p: Parser<S, T>)
  {
    forall s :: p.verdict(s).None? ==> p.rank(p.next(s, None)) < p.rank(s)
  }

  /** The parser over a plain argument list: its verdict, and what it leaves unread. */
  ghost function Run<S(!new), T>(p: Parser<S, T>, s: S, arguments: seq<OsString>): (Option<Command<T>>, seq<OsString>)
    requires Stops(p)
    decreases |arguments|, p.rank(s)
  {
    if p.verdict(s).Some? then (p.verdict(s).value, arguments)
    else if arguments == [] then Run(p, p.next(s, None), [])
    else Run(p, p.next(s, Some(arguments[0])), arguments[1..])
  }

  ghost predicate Accepts<S(!new), T>(p: Parser<S, T>, arguments: seq<OsString>, command: Command<T>)
    requires Stops(p)
  {
    Run(p, p.start, arguments) == (Some(command), [])
  }

  /** The modifier stands once, at the very end. */
  ghost predicate Recorded(arguments: seq<OsString>, base: seq<OsString>)
  {
    RECORD !in base && arguments == base + [RECORD]
  }

  // ---------------------------------------------------------------- the adapter

  datatype Adapter = Adapter(inner: seq<OsString>, requested: bool, invalid: bool)

  /** What one pull returns and leaves behind. */
  function Pulled(a: Adapter): (r: (Option<OsString>, Adapter))
    ensures r.0.None? ==> r.1.inner == []
    ensures r.0.Some? ==> |r.1.inner| < |a.inner|
    ensures |r.1.inner| <= |a.inner|
    decreases |a.inner|
  {
    if a.inner == [] then (None, a)
    else
      var b := Adapter(a.inner[1..], a.requested || a.inner[0] == RECORD, a.invalid || a.requested);
      if a.inner[0] == RECORD then Pulled(b) else (Some(a.inner[0]), b)
  }

  class RecordingArguments {
    var inner: seq<OsString>
    var requested: bool
    var invalid: bool

    constructor (arguments: seq<OsString>)
      ensures Value() == Adapter(arguments, false, false)
    {
      inner, requested, invalid := arguments, false, false;
    }

    function Value(): Adapter
      reads this
    {
      Adapter(inner, requested, invalid)
    }

    method Next() returns (r: Option<OsString>)
      modifies this
      ensures (r, Value()) == Pulled(old(Value()))
    {
      while inner != []
        invariant Pulled(Value()) == Pulled(old(Value()))
        decreases |inner|
      {
        var argument := inner[0];
        inner := inner[1..];
        if argument == RECORD {
          invalid := invalid || requested;
          requested := true;
        } else {
          invalid := invalid || requested;
          return Some(argument);
        }
      }
      return None;
    }
  }

  lemma {:induction false} InvalidStays(a: Adapter)
    ensures a.invalid ==> Pulled(a).1.invalid
    ensures a.requested ==> Pulled(a).1.requested && (Pulled(a).1.invalid || a.inner == [])
    decreases |a.inner|
  {
    if a.inner != [] && a.inner[0] == RECORD {
      InvalidStays(Adapter(a.inner[1..], true, a.invalid || a.requested));
    }
  }

  /** What is known of the arguments while the parser is at `s` and the adapter at `a`. */
  ghost predicate Follows<S(!new), T>(p: Parser<S, T>, arguments: seq<OsString>, s: S, a: Adapter)
    requires Stops(p)
  {
    if a.invalid then a.requested && RECORD in arguments && forall base :: !Recorded(arguments, base)
    else if a.requested then
      && a.inner == [] && arguments != [] && Recorded(arguments, arguments[..|arguments| - 1])
      && Run(p, p.start, arguments[..|arguments| - 1]) == Run(p, s, [])
    else
      && |a.inner| <= |arguments|
      && var read := |arguments| - |a.inner|;
         && a.inner == arguments[read..] && RECORD !in arguments[..read]
         && (forall end :: read <= end <= |arguments| ==> Run(p, p.start, arguments[..end]) == Run(p, s, arguments[read..end]))
  }

  lemma NotRecorded(arguments: seq<OsString>, i: nat)
    requires i + 1 < |arguments| && arguments[i] == RECORD
    ensures forall base :: !Recorded(arguments, base)
  {
    forall base ensures !Recorded(arguments, base) {
      assert i < |base| && arguments == base + [RECORD] ==> base[i] == arguments[i];
    }
  }

  lemma Starts<S(!new), T>(p: Parser<S, T>, arguments: seq<OsString>)
    requires Stops(p)
    ensures Follows(p, arguments, p.start, Adapter(arguments, false, false))
  {
    assert arguments[0..] == arguments;
    forall end | 0 <= end <= |arguments| ensures arguments[0..end] == arguments[..end] {
    }
  }

  lemma PullFollows<S(!new), T>(p: Parser<S, T>, arguments: seq<OsString>, s: S, a: Adapter)
    requires Stops(p) && Follows(p, arguments, s, a) && p.verdict(s).None?
    ensures Follows(p, arguments, p.next(s, Pulled(a).0), Pulled(a).1)
  {
    if a.invalid || a.requested {
      InvalidStays(a);
    } else if a.inner == [] {
      PlainEnd(p, arguments, s, a);
    } else if a.inner[0] == RECORD {
      ModifierRead(p, arguments, s, a);
    } else {
      PlainRead(p, arguments, s, a);
    }
  }

  lemma PlainEnd<S(!new), T>(p: Parser<S, T>, arguments: seq<OsString>, s: S, a: Adapter)
    requires Stops(p) && Follows(p, arguments, s, a) && p.verdict(s).None?
    requires !a.invalid && !a.requested && a.inner == []
    ensures Follows(p, arguments, p.next(s, None), a)
  {
    var n := |arguments|;
    assert arguments[n..n] == [];
    assert Run(p, p.start, arguments[..n]) == Run(p, s, arguments[n..n]);
  }

  lemma PlainRead<S(!new), T>(p: Parser<S, T>, arguments: seq<OsString>, s: S, a: Adapter)
    requires Stops(p) && Follows(p, arguments, s, a) && p.verdict(s).None?
    requires !a.invalid && !a.requested && a.inner != [] && a.inner[0] != RECORD
    ensures Follows(p, arguments, p.next(s, Some(a.inner[0])), Adapter(a.inner[1..], false, false))
  {
    var read := |arguments| - |a.inner|;
    assert arguments[read] == a.inner[0];
    assert arguments[..read + 1] == arguments[..read] + [arguments[read]];
    forall end | read + 1 <= end <= |arguments|
      ensures Run(p, p.start, arguments[..end]) == Run(p, p.next(s, Some(a.inner[0])), arguments[read + 1..end])
    {
      assert arguments[read..end][1..] == arguments[read + 1..end];
      assert Run(p, p.start, arguments[..end]) == Run(p, s, arguments[read..end]);
    }
  }

  lemma ModifierRead<S(!new), T>(p: Parser<S, T>, arguments: seq<OsString>, s: S, a: Adapter)
    requires Stops(p) && Follows(p, arguments, s, a) && p.verdict(s).None?
    requires !a.invalid && !a.requested && a.inner != [] && a.inner[0] == RECORD
    ensures Follows(p, arguments, p.next(s, Pulled(a).0), Pulled(a).1)
  {
    var read := |arguments| - |a.inner|;
    assert arguments[read] == a.inner[0] == RECORD;
    var b := Adapter(a.inner[1..], true, false);
    assert Pulled(a) == Pulled(b);
    InvalidStays(b);
    if b.inner == [] {
      assert read == |arguments| - 1;
      assert arguments == arguments[..read] + [RECORD];
      assert arguments[read..read] == [];
      assert Run(p, p.start, arguments[..read]) == Run(p, s, arguments[read..read]);
    } else {
      NotRecorded(arguments, read);
    }
  }

  // ---------------------------------------------------------------- the parse

  /** The verdict after the parser has stopped: nothing may be left, and recording needs an interactive command. */
  ghost function Outcome<T>(command: Option<Command<T>>, a: Adapter): Option<(Command<T>, bool)>
  {
    var (rest, b) := Pulled(a);
    if command.None? || rest.Some? || b.invalid || (b.requested && !command.value.Interactive?) then None
    else Some((command.value, b.requested))
  }

  lemma RecordedOnce(arguments: seq<OsString>, base: seq<OsString>)
    requires Recorded(arguments, base)
    ensures base == arguments[..|arguments| - 1] && RECORD in arguments
  {
    assert arguments[|arguments| - 1] == RECORD;
  }

  /** Everything the arguments can mean, for every parser. */
  ghost function Meaning<S(!new), T>(p: Parser<S, T>, arguments: seq<OsString>): Option<(Command<T>, bool)>
    requires Stops(p)
  {
    if RECORD !in arguments then
      var (command, unread) := Run(p, p.start, arguments);
      if command.Some? && unread == [] then Some((command.value, false)) else None
    else
      var base := arguments[..|arguments| - 1];
      var (command, unread) := Run(p, p.start, base);
      if Recorded(arguments, base) && command.Some? && unread == [] && command.value.Interactive? then
        Some((command.value, true))
      else None
  }

  lemma OutcomeIsMeaning<S(!new), T>(p: Parser<S, T>, arguments: seq<OsString>, s: S, a: Adapter)
    requires Stops(p) && Follows(p, arguments, s, a) && p.verdict(s).Some?
    ensures Outcome(p.verdict(s).value, a) == Meaning(p, arguments)
  {
    InvalidStays(a);
    if a.invalid {
      assert !Recorded(arguments, arguments[..|arguments| - 1]);
    } else if a.requested {
      RecordedOnce(arguments, arguments[..|arguments| - 1]);
    } else if a.inner == [] {
      PlainOutcome(p, arguments, s, a, |arguments|);
    } else if a.inner[0] == RECORD {
      StoppedBeforeModifier(p, arguments, s, a);
    } else {
      StoppedEarly(p, arguments, s, a);
    }
  }

  /** A parser that stopped has the same verdict on every extension of what it read, with the rest unread. */
  lemma PlainOutcome<S(!new), T>(p: Parser<S, T>, arguments: seq<OsString>, s: S, a: Adapter, end: nat)
    requires Stops(p) && Follows(p, arguments, s, a) && p.verdict(s).Some?
    requires !a.invalid && !a.requested
    requires |arguments| - |a.inner| <= end <= |arguments|
    ensures Run(p, p.start, arguments[..end]) == (p.verdict(s).value, arguments[|arguments| - |a.inner|..end])
    ensures a.inner == [] ==> RECORD !in arguments
    ensures arguments[..|arguments|] == arguments
  {
    assert arguments[..|arguments|] == arguments;
  }

  lemma StoppedBeforeModifier<S(!new), T>(p: Parser<S, T>, arguments: seq<OsString>, s: S, a: Adapter)
    requires Stops(p) && Follows(p, arguments, s, a) && p.verdict(s).Some?
    requires !a.invalid && !a.requested && a.inner != [] && a.inner[0] == RECORD
    ensures Outcome(p.verdict(s).value, a) == Meaning(p, arguments)
  {
    var read := |arguments| - |a.inner|;
    assert arguments[read] == RECORD;
    var b := Adapter(a.inner[1..], true, false);
    assert Pulled(a) == Pulled(b);
    InvalidStays(b);
    if b.inner == [] {
      PlainOutcome(p, arguments, s, a, read);
      assert arguments == arguments[..read] + [RECORD];
      assert arguments[read..read] == [];
    } else {
      NotRecorded(arguments, read);
      assert !Recorded(arguments, arguments[..|arguments| - 1]);
    }
  }

  lemma StoppedEarly<S(!new), T>(p: Parser<S, T>, arguments: seq<OsString>, s: S, a: Adapter)
    requires Stops(p) && Follows(p, arguments, s, a) && p.verdict(s).Some?
    requires !a.invalid && !a.requested && a.inner != [] && a.inner[0] != RECORD
    ensures Outcome(p.verdict(s).value, a) == Meaning(p, arguments)
  {
    var read, n := |arguments| - |a.inner|, |arguments|;
    PlainOutcome(p, arguments, s, a, n);
    PlainOutcome(p, arguments, s, a, n - 1);
    assert arguments[read] == a.inner[0];
    if Recorded(arguments, arguments[..n - 1]) {
      assert arguments[n - 1] == RECORD;
      assert |arguments[read..n - 1]| > 0;
    }
  }

  /** The streaming parse computes the declarative meaning. */
  method Parse<S(!new), T>(p: Parser<S, T>, arguments: seq<OsString>) returns (r: Option<(Command<T>, bool)>)
    requires Stops(p)
    ensures r == Meaning(p, arguments)
  {
    var adapter := new RecordingArguments(arguments);
    var s := p.start;
    Starts(p, arguments);
    while p.verdict(s).None?
      invariant Follows(p, arguments, s, adapter.Value())
      decreases |adapter.inner|, p.rank(s)
    {
      PullFollows(p, arguments, s, adapter.Value());
      var argument := adapter.Next();
      s := p.next(s, argument);
    }
    OutcomeIsMeaning(p, arguments, s, adapter.Value());
    var command := p.verdict(s).value;
    if command.None? {
      return None;
    }
    var rest := adapter.Next();
    if rest.Some? || adapter.invalid || (adapter.requested && !command.value.Interactive?) {
      return None;
    }
    return Some((command.value, adapter.requested));
  }

  /**
   A recorded launch is exactly an interactive command followed by one final modifier, and an
   unrecorded one exactly a command without the modifier; both with nothing left unread.
   */
  lemma MeaningIsExact<S(!new), T>(p: Parser<S, T>, arguments: seq<OsString>, command: Command<T>)
    requires Stops(p)
    ensures Meaning(p, arguments) == Some((command, true)) <==>
            command.Interactive? && exists base :: Recorded(arguments, base) && Accepts(p, base, command)
    ensures Meaning(p, arguments) == Some((command, false)) <==> RECORD !in arguments && Accepts(p, arguments, command)
  {
    if base :| Recorded(arguments, base) && Accepts(p, base, command) {
      RecordedOnce(arguments, base);
    }
  }
}
