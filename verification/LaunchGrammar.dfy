/**
 The command line of the launcher as a pulling parser: which argument lists are interactive
 launches, and so which of them can be recorded.
 */
module LaunchGrammar {
  import opened Shared
  import opened Recording
  import opened SessionIds

  /** What a launch asks for. */
  datatype Choice =
    | Fresh | Picker | Latest | Exact(id: string)
    | Help | Identity | Acp
    | Models(json: bool) | Permissions(json: bool) | Doctor(json: bool) | Inspect(id: string, json: bool)
    | Listed(owner: Owner, arguments: seq<OsString>)

  /** Commands whose own parsers read every remaining argument. */
  datatype Owner = Ask | Sessions | Workspace | Cleanup | Migrate | Recover | ResumeWith(id: string)

  datatype Flagged = ForModels | ForPermissions | ForDoctor | ForSession(id: string)

  /** Where the parser stands; every state but `Done` asks for the next argument. */
  datatype State =
    | Start
    | Flag(flagged: Flagged)
    | ResumeOption
    | Session
    | ResumeCommand(allowPrompt: bool)
    | ResumeLast
    | ResumeId
    | AfterId(id: string, allowPrompt: bool)
    | Collect(owner: Owner, parts: seq<OsString>)
    | ExpectEnd(command: Command<Choice>)
    | Done(result: Option<Command<Choice>>)

  /** Whether the commands that read their own arguments accept them. */
  type Tails = (Owner, seq<OsString>) -> bool

  predicate IsBlank(c: char) { c == ' ' || c == '\t' || c == '\r' || c == '\n' }

  function TrimLeft(s: string): string { if s != [] && IsBlank(s[0]) then TrimLeft(s[1..]) else s }

  function TrimRight(s: string): string
  {
    if s != [] && IsBlank(s[|s| - 1]) then TrimRight(s[..|s| - 1]) else s
  }

  function Trim(s: string): string { TrimRight(TrimLeft(s)) }

  predicate Dashed(s: string) { s != [] && s[0] == '-' }

  /** An identifier after `resume --id` or in `--resume-<id>`. */
  function ExactId(argument: OsString): Option<string>
  {
    if !argument.Unicode? || Dashed(Trim(argument.text)) || !ValidId(Trim(argument.text)) then None
    else Some(Trim(argument.text))
  }

  /** A target of `resume` or `--resume`: the latest session or an identifier. */
  function Target(argument: OsString): Option<Choice>
  {
    if argument.Unicode? && Trim(argument.text) == "last" then Some(Latest)
    else
      match ExactId(argument)
      case Some(id) => Some(Exact(id))
      case None => None
  }

  /** An identifier to inspect is taken as it stands. */
  function InspectedId(argument: OsString): Option<string>
  {
    if !argument.Unicode? || argument.text in ["last", "--id", "--json"] || !ValidId(argument.text) then None
    else Some(argument.text)
  }

  function FlaggedCommand(flagged: Flagged, json: bool): Command<Choice>
  {
    match flagged
    case ForModels => Noninteractive(Models(json))
    case ForPermissions => Noninteractive(Permissions(json))
    case ForDoctor => Noninteractive(Doctor(json))
    case ForSession(id) => Noninteractive(Inspect(id, json))
  }

  const FAILED: State := Done(None)

  const RESUME_PREFIX := "--resume-"

  function OrFail(choice: Option<Choice>): State
  {
    match choice
    case Some(c) => ExpectEnd(Interactive(c))
    case None => FAILED
  }

  function ExactOrFail(id: Option<string>): State
  {
    match id
    case Some(i) => ExpectEnd(Interactive(Exact(i)))
    case None => FAILED
  }

  /** The first word. */
  function First(word: string): State
  {
    if word in ["help", "--help", "-h"] then Done(Some(Noninteractive(Help)))
    else if word in ["--version", "-V"] then ExpectEnd(Noninteractive(Identity))
    else if word == "acp" then ExpectEnd(Noninteractive(Acp))
    else if word == "ask" then Collect(Ask, [])
    else if word == "doctor" then Flag(ForDoctor)
    else if word == "models" then Flag(ForModels)
    else if word == "permissions" then Flag(ForPermissions)
    else if word == "-r" then ExpectEnd(Interactive(Picker))
    else if word in ["--resume-last", "--continue", "-c"] then ExpectEnd(Interactive(Latest))
    else if word == "--resume" then ResumeOption
    else if word == "resume" then ResumeCommand(true)
    else if word == "session" then Session
    else if word == "sessions" then Collect(Sessions, [])
    else if word == "workspace" then Collect(Workspace, [])
    else if RESUME_PREFIX <= word then ExactOrFail(ExactId(Unicode(word[|RESUME_PREFIX|..])))
    else FAILED
  }

  function Next(accepts: Tails, s: State, argument: Option<OsString>): State
  {
    match argument
    case None => AtEnd(accepts, s)
    case Some(a) => Reading(s, a)
  }

  /** The arguments have ended. */
  function AtEnd(accepts: Tails, s: State): State
  {
    match s
    case Start => Done(Some(Interactive(Fresh)))
    case Flag(flagged) => ExpectEnd(FlaggedCommand(flagged, false))
    case ResumeOption => ExpectEnd(Interactive(Latest))
    case Session => FAILED
    case ResumeCommand(_) => Done(Some(Interactive(Latest)))
    case ResumeLast => FAILED
    case ResumeId => FAILED
    case AfterId(id, _) => Done(Some(Interactive(Exact(id))))
    case Collect(owner, parts) =>
      if accepts(owner, parts) then ExpectEnd(Noninteractive(Listed(owner, parts))) else FAILED
    case ExpectEnd(command) => Done(Some(command))
    case Done(_) => s
  }

  function Reading(s: State, a: OsString): State
  {
    match s
    case Start => if a.Unicode? then First(a.text) else FAILED
    case Flag(flagged) =>
      if flagged.ForDoctor? && a == Unicode("cleanup") then Collect(Cleanup, [])
      else if a == Unicode("--json") then ExpectEnd(FlaggedCommand(flagged, true))
      else FAILED
    case ResumeOption => OrFail(Target(a))
    case Session =>
      if a == Unicode("resume") then ResumeCommand(false)
      else if a == Unicode("migrate") then Collect(Migrate, [])
      else if a == Unicode("recover") then Collect(Recover, [])
      else
        (match InspectedId(a)
         case Some(id) => Flag(ForSession(id))
         case None => FAILED)
    case ResumeCommand(allowPrompt) =>
      if a == Unicode("--resume") then ResumeLast
      else if a == Unicode("--id") then ResumeId
      else
        (match Target(a)
         case Some(Exact(id)) => AfterId(id, allowPrompt)
         case Some(c) => ExpectEnd(Interactive(c))
         case None => FAILED)
    case ResumeLast => if a == Unicode("--last") then ExpectEnd(Interactive(Latest)) else FAILED
    case ResumeId => ExactOrFail(ExactId(a))
    case AfterId(id, allowPrompt) => if allowPrompt then Collect(ResumeWith(id), [a]) else FAILED
    case Collect(owner, parts) => Collect(owner, parts + [a])
    case ExpectEnd(_) => FAILED
    case Done(_) => s
  }

  function Verdict(s: State): Option<Option<Command<Choice>>> { if s.Done? then Some(s.result) else None }

  function Rank(s: State): nat { if s.Done? then 0 else if s.ExpectEnd? then 1 else 2 }

  function Grammar(accepts: Tails): Parser<State, Choice>
  {
    Parser(Start, Verdict, (s, a) => Next(accepts, s, a), Rank)
  }

  /** The launcher's parser stops asking once the arguments have ended. */
  lemma GrammarStops(accepts: Tails)
    ensures Stops(Grammar(accepts))
  {
    var p := Grammar(accepts);
    forall s | p.verdict(s).None? ensures p.rank(p.next(s, None)) < p.rank(s) {
      assert p.next(s, None) == AtEnd(accepts, s);
    }
  }

  // ---------------------------------------------------------------- what the grammar means

  /** The interactive launches, word by word. */
  function InteractiveForm(words: seq<OsString>): Option<Choice>
  {
    if words == [] then Some(Fresh)
    else if !words[0].Unicode? then None
    else if words[0].text == "resume" then ResumeForm(words[1..])
    else if words[0].text == "session" then
      if |words| >= 2 && words[1] == Unicode("resume") then ResumeForm(words[2..]) else None
    else if words[0].text == "--resume" && |words| == 2 then Target(words[1])
    else if |words| == 1 then SingleForm(words[0].text)
    else None
  }

  function SingleForm(word: string): Option<Choice>
  {
    if word == "-r" then Some(Picker)
    else if word in ["--resume-last", "--continue", "-c", "--resume"] then Some(Latest)
    else if RESUME_PREFIX <= word then
      match ExactId(Unicode(word[|RESUME_PREFIX|..]))
      case Some(id) => Some(Exact(id))
      case None => None
    else None
  }

  function ResumeForm(words: seq<OsString>): Option<Choice>
  {
    if words == [] then Some(Latest)
    else if |words| == 1 then Target(words[0])
    else if words == [Unicode("--resume"), Unicode("--last")] then Some(Latest)
    else if |words| == 2 && words[0] == Unicode("--id") then
      match ExactId(words[1])
      case Some(id) => Some(Exact(id))
      case None => None
    else None
  }

  /** The parser from state `s` reads exactly these words as the interactive choice. */
  ghost predicate Reads(accepts: Tails, s: State, words: seq<OsString>, choice: Choice)
  {
    GrammarStops(accepts);
    Run(Grammar(accepts), s, words) == (Some(Interactive(choice)), [])
  }

  lemma ReadsStep(accepts: Tails, s: State, words: seq<OsString>, choice: Choice)
    requires !s.Done?
    ensures words == [] ==> (Reads(accepts, s, words, choice) <==> Reads(accepts, AtEnd(accepts, s), [], choice))
    ensures words != [] ==> (Reads(accepts, s, words, choice) <==> Reads(accepts, Reading(s, words[0]), words[1..], choice))
  {
    GrammarStops(accepts);
  }

  lemma ReadsDone(accepts: Tails, s: State, words: seq<OsString>, choice: Choice)
    requires s.Done?
    ensures Reads(accepts, s, words, choice) <==> words == [] && s.result == Some(Interactive(choice))
  {
    GrammarStops(accepts);
  }

  lemma ReadsEnd(accepts: Tails, command: Command<Choice>, words: seq<OsString>, choice: Choice)
    ensures Reads(accepts, ExpectEnd(command), words, choice) <==> words == [] && command == Interactive(choice)
  {
    var s := ExpectEnd(command);
    ReadsStep(accepts, s, words, choice);
    if words == [] {
      ReadsDone(accepts, AtEnd(accepts, s), [], choice);
    } else {
      ReadsDone(accepts, FAILED, words[1..], choice);
    }
  }

  /** A command with its own arguments is never interactive. */
  lemma {:induction false} ReadsCollect(accepts: Tails, owner: Owner, parts: seq<OsString>, words: seq<OsString>, choice: Choice)
    ensures !Reads(accepts, Collect(owner, parts), words, choice)
    decreases |words|
  {
    var s := Collect(owner, parts);
    ReadsStep(accepts, s, words, choice);
    if words != [] {
      ReadsCollect(accepts, owner, parts + [words[0]], words[1..], choice);
    } else if accepts(owner, parts) {
      ReadsEnd(accepts, Noninteractive(Listed(owner, parts)), [], choice);
    } else {
      ReadsDone(accepts, FAILED, [], choice);
    }
  }

  lemma ReadsFailed(accepts: Tails, words: seq<OsString>, choice: Choice)
    ensures !Reads(accepts, FAILED, words, choice)
  {
    ReadsDone(accepts, FAILED, words, choice);
  }

  lemma ReadsFlag(accepts: Tails, flagged: Flagged, words: seq<OsString>, choice: Choice)
    ensures !Reads(accepts, Flag(flagged), words, choice)
  {
    ReadsStep(accepts, Flag(flagged), words, choice);
    if words == [] {
      ReadsEnd(accepts, FlaggedCommand(flagged, false), [], choice);
    } else {
      ReadsCollect(accepts, Cleanup, [], words[1..], choice);
      ReadsEnd(accepts, FlaggedCommand(flagged, true), words[1..], choice);
      ReadsFailed(accepts, words[1..], choice);
    }
  }

  lemma ReadsOrFail(accepts: Tails, s: State, chosen: Option<Choice>, words: seq<OsString>, choice: Choice)
    requires s == OrFail(chosen)
    ensures Reads(accepts, s, words, choice) <==> words == [] && chosen == Some(choice)
  {
    match chosen
    case Some(c) => ReadsEnd(accepts, Interactive(c), words, choice);
    case None => ReadsFailed(accepts, words, choice);
  }

  lemma ReadsExact(accepts: Tails, id: Option<string>, words: seq<OsString>, choice: Choice)
    ensures Reads(accepts, ExactOrFail(id), words, choice) <==> words == [] && id.Some? && choice == Exact(id.value)
  {
    match id
    case Some(i) => ReadsEnd(accepts, Interactive(Exact(i)), words, choice);
    case None => ReadsFailed(accepts, words, choice);
  }

  lemma ReadsAfterId(accepts: Tails, id: string, allowPrompt: bool, words: seq<OsString>, choice: Choice)
    ensures Reads(accepts, AfterId(id, allowPrompt), words, choice) <==> words == [] && choice == Exact(id)
  {
    var s := AfterId(id, allowPrompt);
    ReadsStep(accepts, s, words, choice);
    if words == [] {
      ReadsDone(accepts, AtEnd(accepts, s), [], choice);
    } else {
      ReadsCollect(accepts, ResumeWith(id), [words[0]], words[1..], choice);
      ReadsFailed(accepts, words[1..], choice);
    }
  }

  lemma ReadsResumeLast(accepts: Tails, words: seq<OsString>, choice: Choice)
    ensures Reads(accepts, ResumeLast, words, choice) <==> words == [Unicode("--last")] && choice == Latest
  {
    ReadsStep(accepts, ResumeLast, words, choice);
    if words == [] {
      ReadsFailed(accepts, [], choice);
    } else {
      ReadsEnd(accepts, Interactive(Latest), words[1..], choice);
      ReadsFailed(accepts, words[1..], choice);
      assert words == [words[0]] + words[1..];
    }
  }

  lemma ReadsResumeId(accepts: Tails, words: seq<OsString>, choice: Choice)
    ensures Reads(accepts, ResumeId, words, choice) <==>
            |words| == 1 && ExactId(words[0]).Some? && choice == Exact(ExactId(words[0]).value)
  {
    ReadsStep(accepts, ResumeId, words, choice);
    if words == [] {
      ReadsFailed(accepts, [], choice);
    } else {
      ReadsExact(accepts, ExactId(words[0]), words[1..], choice);
    }
  }

  lemma DashedTargets()
    ensures Target(Unicode("--resume")).None? && Target(Unicode("--id")).None?
  {
    assert Trim("--resume") == "--resume" && Trim("--id") == "--id";
  }

  lemma ReadsResume(accepts: Tails, allowPrompt: bool, words: seq<OsString>, choice: Choice)
    ensures Reads(accepts, ResumeCommand(allowPrompt), words, choice) <==> ResumeForm(words) == Some(choice)
  {
    var s := ResumeCommand(allowPrompt);
    ReadsStep(accepts, s, words, choice);
    DashedTargets();
    if words == [] {
      ReadsDone(accepts, AtEnd(accepts, s), [], choice);
    } else {
      ReadsResumeWord(accepts, allowPrompt, words[0], words[1..], choice);
      assert words == [words[0]] + words[1..];
    }
  }

  lemma ReadsTarget(accepts: Tails, allowPrompt: bool, word: OsString, rest: seq<OsString>, choice: Choice)
    requires word != Unicode("--resume") && word != Unicode("--id")
    ensures Reads(accepts, Reading(ResumeCommand(allowPrompt), word), rest, choice) <==> rest == [] && Target(word) == Some(choice)
  {
    match Target(word)
    case Some(Exact(id)) => ReadsAfterId(accepts, id, allowPrompt, rest, choice);
    case Some(c) => ReadsEnd(accepts, Interactive(c), rest, choice);
    case None => ReadsFailed(accepts, rest, choice);
  }

  /** The forms of `resume` by their first word. */
  lemma ResumeForms(word: OsString, rest: seq<OsString>)
    ensures var words := [word] + rest;
            && (word == Unicode("--resume") ==> ResumeForm(words) == if rest == [Unicode("--last")] then Some(Latest) else None)
            && (word == Unicode("--id") ==>
                  ResumeForm(words) == if |rest| == 1 && ExactId(rest[0]).Some? then Some(Exact(ExactId(rest[0]).value)) else None)
            && (word != Unicode("--resume") && word != Unicode("--id") ==>
                  ResumeForm(words) == if rest == [] then Target(word) else None)
  {
    var words := [word] + rest;
    DashedTargets();
    assert words[0] == word && words[1..] == rest;
    assert words == [Unicode("--resume"), Unicode("--last")] ==> words[0] == Unicode("--resume") && rest == [Unicode("--last")];
  }

  lemma ReadsResumeWord(accepts: Tails, allowPrompt: bool, word: OsString, rest: seq<OsString>, choice: Choice)
    ensures Reads(accepts, Reading(ResumeCommand(allowPrompt), word), rest, choice) <==> ResumeForm([word] + rest) == Some(choice)
  {
    ResumeForms(word, rest);
    if word == Unicode("--resume") {
      ReadsResumeLast(accepts, rest, choice);
    } else if word == Unicode("--id") {
      ReadsResumeId(accepts, rest, choice);
    } else {
      ReadsTarget(accepts, allowPrompt, word, rest, choice);
    }
  }

  lemma ReadsSession(accepts: Tails, words: seq<OsString>, choice: Choice)
    ensures Reads(accepts, Session, words, choice) <==>
            words != [] && words[0] == Unicode("resume") && ResumeForm(words[1..]) == Some(choice)
  {
    ReadsStep(accepts, Session, words, choice);
    if words == [] {
      ReadsFailed(accepts, [], choice);
    } else {
      var rest := words[1..];
      ReadsResume(accepts, false, rest, choice);
      ReadsCollect(accepts, Migrate, [], rest, choice);
      ReadsCollect(accepts, Recover, [], rest, choice);
      ReadsFailed(accepts, rest, choice);
      if InspectedId(words[0]).Some? {
        ReadsFlag(accepts, ForSession(InspectedId(words[0]).value), rest, choice);
      }
    }
  }

  lemma ReadsResumeOption(accepts: Tails, words: seq<OsString>, choice: Choice)
    ensures Reads(accepts, ResumeOption, words, choice) <==>
            (words == [] && choice == Latest) || (|words| == 1 && Target(words[0]) == Some(choice))
  {
    ReadsStep(accepts, ResumeOption, words, choice);
    if words == [] {
      ReadsEnd(accepts, Interactive(Latest), [], choice);
    } else {
      ReadsOrFail(accepts, Reading(ResumeOption, words[0]), Target(words[0]), words[1..], choice);
    }
  }

  /** What the other words lead to, and which of them are forms on their own. */
  lemma SingleWords(word: string)
    requires word !in ["resume", "session", "--resume"]
    ensures var s := First(word);
            && (s.Done? || s.Collect? || s.Flag? || s.ExpectEnd?)
            && (s.Done? ==> s.result in [None, Some(Noninteractive(Help))])
            && SingleForm(word) == if s.ExpectEnd? && s.command.Interactive? then Some(s.command.selection) else None
  {
    assert RESUME_PREFIX <= word ==> word[0] == RESUME_PREFIX[0] == '-';
    assert First(word).Flag? ==> word[0] != '-';
  }

  /** Words after which nothing more may come. */
  lemma ReadsSingle(accepts: Tails, word: string, rest: seq<OsString>, choice: Choice)
    requires word !in ["resume", "session", "--resume"]
    ensures Reads(accepts, First(word), rest, choice) <==> rest == [] && SingleForm(word) == Some(choice)
  {
    SingleWords(word);
    ReadsOther(accepts, First(word), rest, choice);
  }

  lemma ReadsOther(accepts: Tails, s: State, words: seq<OsString>, choice: Choice)
    requires s.Collect? || s.Flag? || s.ExpectEnd? || (s.Done? && s.result in [None, Some(Noninteractive(Help))])
    ensures Reads(accepts, s, words, choice) <==> words == [] && s.ExpectEnd? && s.command == Interactive(choice)
  {
    match s
    case Done(_) => ReadsDone(accepts, s, words, choice);
    case Collect(owner, parts) => ReadsCollect(accepts, owner, parts, words, choice);
    case Flag(flagged) => ReadsFlag(accepts, flagged, words, choice);
    case ExpectEnd(command) => ReadsEnd(accepts, command, words, choice);
  }

  /** The interactive forms by their first word. */
  lemma FormsByWord(word: string, rest: seq<OsString>)
    ensures InteractiveForm([Unicode(word)] + rest) ==
            if word == "resume" then ResumeForm(rest)
            else if word == "session" then
              if rest != [] && rest[0] == Unicode("resume") then ResumeForm(rest[1..]) else None
            else if word == "--resume" then
              if rest == [] then Some(Latest) else if |rest| == 1 then Target(rest[0]) else None
            else if rest == [] then SingleForm(word)
            else None
  {
    var words := [Unicode(word)] + rest;
    assert words[0] == Unicode(word) && words[1..] == rest;
    assert rest != [] ==> words[1] == rest[0] && rest[1..] == words[2..];
  }

  lemma FirstWords()
    ensures First("resume") == ResumeCommand(true) && First("session") == Session && First("--resume") == ResumeOption
  {
  }

  lemma ReadsFirst(accepts: Tails, word: string, rest: seq<OsString>, choice: Choice)
    ensures Reads(accepts, First(word), rest, choice) <==> InteractiveForm([Unicode(word)] + rest) == Some(choice)
  {
    FormsByWord(word, rest);
    FirstWords();
    if word == "resume" {
      ReadsResume(accepts, true, rest, choice);
    } else if word == "session" {
      ReadsSession(accepts, rest, choice);
    } else if word == "--resume" {
      ReadsResumeOption(accepts, rest, choice);
    } else {
      ReadsSingle(accepts, word, rest, choice);
    }
  }

  /** The parser reads a list as an interactive launch exactly when it has one of the listed forms. */
  lemma InteractiveForms(accepts: Tails, words: seq<OsString>, choice: Choice)
    ensures Reads(accepts, Start, words, choice) <==> InteractiveForm(words) == Some(choice)
  {
    ReadsStep(accepts, Start, words, choice);
    if words == [] {
      ReadsDone(accepts, AtEnd(accepts, Start), [], choice);
    } else if !words[0].Unicode? {
      ReadsFailed(accepts, words[1..], choice);
    } else {
      ReadsFirst(accepts, words[0].text, words[1..], choice);
      assert words == [words[0]] + words[1..];
    }
  }

  /**
   The recorded launches of this command line are exactly the interactive forms followed by one
   final modifier; the modifier among the words of the form is never one.
   */
  lemma RecordedLaunches(accepts: Tails, arguments: seq<OsString>, choice: Choice)
    requires Stops(Grammar(accepts))
    ensures Meaning(Grammar(accepts), arguments) == Some((Interactive(choice), true)) <==>
            exists base :: Recorded(arguments, base) && InteractiveForm(base) == Some(choice)
    ensures Meaning(Grammar(accepts), arguments) == Some((Interactive(choice), false)) <==>
            RECORD !in arguments && InteractiveForm(arguments) == Some(choice)
  {
    var p := Grammar(accepts);
    MeaningIsExact(p, arguments, Interactive(choice));
    InteractiveForms(accepts, arguments, choice);
    forall base ensures Accepts(p, base, Interactive(choice)) <==> InteractiveForm(base) == Some(choice) {
      InteractiveForms(accepts, base, choice);
    }
  }

  /** The launch of the program: nothing is assumed of the arguments. */
  method Launch(accepts: Tails, arguments: seq<OsString>) returns (r: Option<(Command<Choice>, bool)>)
    ensures r.Some? && r.value.1 ==>
              exists base :: Recorded(arguments, base) && r.value.0.Interactive? && InteractiveForm(base) == Some(r.value.0.selection)
    ensures r.None? || !r.value.1 ==>
              !exists base :: Recorded(arguments, base) && InteractiveForm(base).Some?
  {
    GrammarStops(accepts);
    var p := Grammar(accepts);
    r := Parse(p, arguments);
    if r.Some? && r.value.1 {
      RecordedLaunches(accepts, arguments, r.value.0.selection);
    } else {
      forall base | Recorded(arguments, base) ensures InteractiveForm(base).None? {
        if InteractiveForm(base).Some? {
          RecordedLaunches(accepts, arguments, InteractiveForm(base).value);
        }
      }
    }
  }
}
