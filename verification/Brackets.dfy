/**
 Structural depths and brace matching over masked source text.

 The depth map keeps a stack of the three bracket kinds.  The brace matcher only counts braces.
 `Stack` is the reference both are measured against: the offsets of the brackets still open.
 */
module Brackets {
  import opened Shared

  datatype Error =
    | Unbalanced
    | NotABrace
    | Unterminated
    | UnsupportedEntry
    | EntryEscaped
    | EntryNotTerminated
    | NoEntries
    | NotTopLevel
    | SeveralDeclarations
    | Undeclared
    | NoInitializer
    | InitializerEscaped

  datatype Result<T> = Ok(value: T) | Err(error: Error)

  predicate IsOpener(c: char) { c == '{' || c == '[' || c == '(' }

  predicate IsCloser(c: char) { c == '}' || c == ']' || c == ')' }

  function Opener(closer: char): char
  {
    if closer == '}' then '{' else if closer == ']' then '[' else '('
  }

  // ---------------------------------------------------------------- the reference stack

  /** The offsets of the brackets that are open before offset `i`, outermost first. */
  function Stack(m: string, i: nat): (r: Option<seq<nat>>)
    requires i <= |m|
    ensures r.Some? ==> forall k :: 0 <= k < |r.value| ==> r.value[k] < i && IsOpener(m[r.value[k]])
  {
    if i == 0 then Some([])
    else
      match Stack(m, i - 1)
      case None => None
      case Some(open) =>
        var c := m[i - 1];
        if IsOpener(c) then Some(open + [i - 1])
        else if IsCloser(c) then
          if open == [] || m[open[|open| - 1]] != Opener(c) then None else Some(open[..|open| - 1])
        else Some(open)
  }

  predicate Accepted(m: string) { Stack(m, |m|) == Some([]) }

  lemma {:induction false} StackIsDefined(m: string, i: nat, j: nat)
    requires i <= j <= |m| && Stack(m, j).Some?
    ensures Stack(m, i).Some?
    decreases j
  {
    if i < j {
      StackIsDefined(m, i, j - 1);
    }
  }

  function Depth(m: string, i: nat): nat
    requires i <= |m| && Stack(m, i).Some?
  {
    |Stack(m, i).value|
  }

  /** The bracket at `closing` closes the one at `opening`. */
  predicate Closes(m: string, opening: nat, closing: nat)
  {
    && closing < |m| && IsCloser(m[closing])
    && Stack(m, closing + 1).Some?
    && Stack(m, closing).Some?
    && var open := Stack(m, closing).value;
       open != [] && open[|open| - 1] == opening
  }

  /** The depth map holds at every offset the number of brackets open there. */
  ghost predicate IsDepthMap(m: string, depths: seq<nat>)
  {
    Accepted(m) && |depths| == |m| + 1 &&
    forall i :: 0 <= i <= |m| ==> Stack(m, i).Some? && depths[i] == Depth(m, i)
  }

  /** The open brackets themselves, which is all the source keeps of them. */
  function Kinds(m: string, open: seq<nat>): (r: string)
    requires forall k :: 0 <= k < |open| ==> open[k] < |m|
    ensures |r| == |open| && forall k :: 0 <= k < |open| ==> r[k] == m[open[k]]
  {
    seq(|open|, k requires 0 <= k < |open| => m[open[k]])
  }

  ghost predicate Holds(m: string, i: nat, stack: string)
    requires i <= |m|
  {
    Stack(m, i).Some? && stack == Kinds(m, Stack(m, i).value)
  }

  /** What one character does to the stack of kinds. */
  lemma NextKinds(m: string, i: nat, stack: string)
    requires i < |m| && Holds(m, i, stack)
    ensures IsOpener(m[i]) ==> Holds(m, i + 1, stack + [m[i]])
    ensures IsCloser(m[i]) && (stack == [] || stack[|stack| - 1] != Opener(m[i])) ==> !Accepted(m)
    ensures IsCloser(m[i]) && stack != [] && stack[|stack| - 1] == Opener(m[i]) ==> Holds(m, i + 1, stack[..|stack| - 1])
    ensures !IsOpener(m[i]) && !IsCloser(m[i]) ==> Holds(m, i + 1, stack)
  {
    var open := Stack(m, i).value;
    if IsOpener(m[i]) {
      assert stack + [m[i]] == Kinds(m, open + [i]);
    } else if IsCloser(m[i]) {
      if stack == [] || stack[|stack| - 1] != Opener(m[i]) {
        assert Stack(m, i + 1).None?;
        RejectedStaysRejected(m, i + 1, |m|);
      } else {
        assert stack[..|stack| - 1] == Kinds(m, open[..|open| - 1]);
      }
    }
  }

  lemma RejectedStaysRejected(m: string, i: nat, j: nat)
    requires i <= j <= |m| && Stack(m, i).None?
    ensures Stack(m, j).None?
  {
    if Stack(m, j).Some? {
      StackIsDefined(m, i, j);
    }
  }

  ghost predicate MappedTo(m: string, depths: seq<nat>, end: nat)
    requires end <= |m|
  {
    |depths| == |m| + 1 && forall i :: 0 <= i < end ==> Stack(m, i).Some? && depths[i] == Depth(m, i)
  }

  /** The map is produced exactly for accepted text, and is then its depth map. */
  method StructuralDepthMap(mask: string) returns (r: Result<seq<nat>>)
    ensures r.Ok? <==> Accepted(mask)
    ensures r.Ok? ==> IsDepthMap(mask, r.value)
    ensures r.Err? ==> r.error == Unbalanced
  {
    var depths := new nat[|mask| + 1](i => 0);
    var stack: string := [];
    for index := 0 to |mask|
      invariant Holds(mask, index, stack)
      invariant MappedTo(mask, depths[..], index)
    {
      ghost var before := depths[..];
      depths[index] := |stack|;
      assert depths[..] == before[index := |stack| as nat];
      NextKinds(mask, index, stack);
      var character := mask[index];
      if IsOpener(character) {
        stack := stack + [character];
      } else if IsCloser(character) {
        if stack == [] || stack[|stack| - 1] != Opener(character) {
          return Err(Unbalanced);
        }
        stack := stack[..|stack| - 1];
      }
    }
    if stack != [] {
      return Err(Unbalanced);
    }
    ghost var before := depths[..];
    depths[|mask|] := 0;
    assert depths[..] == before[|mask| := 0 as nat];
    return Ok(depths[..]);
  }

  // ---------------------------------------------------------------- counting braces

  /** Opening minus closing braces in `m[start..end]`. */
  function Balance(m: string, start: nat, end: nat): int
    requires start <= end <= |m|
    decreases end
  {
    if start == end then 0
    else Balance(m, start, end - 1) + (if m[end - 1] == '{' then 1 else if m[end - 1] == '}' then -1 else 0)
  }

  ghost predicate StaysOpen(m: string, opening: nat, end: nat)
    requires end <= |m|
  {
    forall i :: opening < i <= end ==> Balance(m, opening, i) > 0
  }

  /** The brace-only matcher, proved to find the first place where the braces balance. */
  method FindMatchingBrace(mask: string, opening: nat) returns (r: Result<nat>)
    ensures r == Err(NotABrace) <==> opening >= |mask| || mask[opening] != '{'
    ensures r.Ok? ==> opening < r.value < |mask| && mask[r.value] == '}'
    ensures r.Ok? ==> StaysOpen(mask, opening, r.value) && Balance(mask, opening, r.value + 1) == 0
    ensures r.Err? && r.error != NotABrace ==> r.error == Unterminated && StaysOpen(mask, opening, |mask|)
  {
    if opening >= |mask| || mask[opening] != '{' {
      return Err(NotABrace);
    }
    var depth, index := 0, opening;
    while index < |mask|
      invariant opening <= index <= |mask|
      invariant depth == Balance(mask, opening, index)
      invariant index == opening ==> depth == 0
      invariant StaysOpen(mask, opening, index)
    {
      var character := mask[index];
      if character == '{' {
        depth := depth + 1;
      } else if character == '}' {
        depth := depth - 1;
        if depth == 0 {
          return Ok(index);
        }
        if depth < 0 {
          assert false; // the source stops here; the count is positive from the opening brace on
        }
      }
      index := index + 1;
    }
    return Err(Unterminated);
  }

  /** How many of the given offsets hold an opening brace. */
  function Braces(m: string, open: seq<nat>): (n: nat)
    requires forall k :: 0 <= k < |open| ==> open[k] < |m|
  {
    if open == [] then 0
    else Braces(m, open[..|open| - 1]) + (if m[open[|open| - 1]] == '{' then 1 else 0)
  }

  lemma {:induction false} FirstBraceCounts(m: string, open: seq<nat>)
    requires forall k :: 0 <= k < |open| ==> open[k] < |m|
    requires |open| > 0 && m[open[0]] == '{'
    ensures Braces(m, open) >= 1
    ensures Braces(m, open) == 1 && m[open[|open| - 1]] == '{' ==> |open| == 1
    decreases |open|
  {
    if |open| > 1 {
      FirstBraceCounts(m, open[..|open| - 1]);
    }
  }

  /** Stack contents above `depth`. */
  function Above(open: seq<nat>, depth: nat): seq<nat>
    requires depth <= |open|
  {
    open[depth..]
  }

  /** While the count stays positive the brace is still on the stack, and the count is the number of braces from it up. */
  ghost predicate Tracks(m: string, opening: nat, i: nat)
    requires opening < i <= |m|
  {
    && Stack(m, opening).Some? && Stack(m, i).Some?
    && var below, open := Stack(m, opening).value, Stack(m, i).value;
       && |open| > |below| && open[..|below|] == below && open[|below|] == opening
       && Balance(m, opening, i) == Braces(m, Above(open, |below|))
  }

  lemma OpeningTracks(m: string, opening: nat)
    requires opening < |m| && m[opening] == '{' && Stack(m, opening).Some?
    ensures Tracks(m, opening, opening + 1)
  {
    var below := Stack(m, opening).value;
    assert Above(below + [opening], |below|) == [opening];
    assert Braces(m, []) == 0;
    assert [opening][..0] == [];
  }

  lemma StepTracks(m: string, opening: nat, i: nat)
    requires opening < i < |m| && m[opening] == '{' && Stack(m, i + 1).Some?
    requires Tracks(m, opening, i)
    ensures Tracks(m, opening, i + 1) || (Closes(m, opening, i) && m[i] == '}')
  {
    var below, open := Stack(m, opening).value, Stack(m, i).value;
    var above := Above(open, |below|);
    var c := m[i];
    if IsOpener(c) {
      assert Above(open + [i], |below|) == above + [i];
      assert (above + [i])[..|above|] == above;
    } else if IsCloser(c) && |open| > |below| + 1 {
      assert Above(open[..|open| - 1], |below|) == above[..|above| - 1];
    }
  }

  lemma StepOpenTracks(m: string, opening: nat, i: nat)
    requires opening < i < |m| && m[opening] == '{' && Stack(m, i + 1).Some?
    requires Tracks(m, opening, i) && Balance(m, opening, i + 1) > 0
    ensures Tracks(m, opening, i + 1)
  {
    StepTracks(m, opening, i);
    if Closes(m, opening, i) && m[i] == '}' {
      ClosingBalances(m, opening, i);
    }
  }

  lemma {:induction false} OpenTracks(m: string, opening: nat, i: nat)
    requires Stack(m, |m|).Some? && opening < i <= |m| && m[opening] == '{' && StaysOpen(m, opening, i)
    ensures Tracks(m, opening, i)
    decreases i
  {
    if i == opening + 1 {
      StackIsDefined(m, opening, |m|);
      OpeningTracks(m, opening);
    } else {
      var j := i - 1;
      OpenTracks(m, opening, j);
      StackIsDefined(m, j + 1, |m|);
      StepOpenTracks(m, opening, j);
    }
  }

  lemma ClosingBalances(m: string, opening: nat, closing: nat)
    requires opening < closing < |m| && m[opening] == '{' && m[closing] == '}'
    requires Tracks(m, opening, closing) && Closes(m, opening, closing)
    ensures Balance(m, opening, closing + 1) == 0
    ensures Depth(m, closing) == Depth(m, opening) + 1
  {
    var below, open := Stack(m, opening).value, Stack(m, closing).value;
    var above := Above(open, |below|);
    OffsetsIncrease(m, closing);
    assert |open| == |below| + 1;
    assert above == [opening];
    assert Braces(m, above[..0]) == 0;
  }

  lemma {:induction false} OffsetsIncrease(m: string, i: nat)
    requires i <= |m| && Stack(m, i).Some?
    ensures forall k, l :: 0 <= k < l < |Stack(m, i).value| ==> Stack(m, i).value[k] < Stack(m, i).value[l]
  {
    if i > 0 {
      OffsetsIncrease(m, i - 1);
    }
  }

  /**
   On accepted text, counting braces finds exactly the bracket that the three-kind stack pops
   the opening brace at, whatever other brackets stand between.
   */
  lemma CountingFindsTheCloser(m: string, opening: nat, closing: nat)
    requires Accepted(m) && opening < |m| && m[opening] == '{'
    requires opening < closing < |m| && m[closing] == '}'
    ensures StaysOpen(m, opening, closing) && Balance(m, opening, closing + 1) == 0 <==> Closes(m, opening, closing)
  {
    StackIsDefined(m, closing, |m|);
    StackIsDefined(m, closing + 1, |m|);
    if StaysOpen(m, opening, closing) && Balance(m, opening, closing + 1) == 0 {
      OpenTracks(m, opening, closing);
      var below, open := Stack(m, opening).value, Stack(m, closing).value;
      FirstBraceCounts(m, Above(open, |below|));
    } else if Closes(m, opening, closing) {
      OpenUntilClosed(m, opening, closing);
      ClosingBalances(m, opening, closing);
    }
  }

  lemma TrackedIsPositive(m: string, opening: nat, i: nat)
    requires opening < i <= |m| && m[opening] == '{' && Tracks(m, opening, i)
    ensures Balance(m, opening, i) > 0
  {
    FirstBraceCounts(m, Above(Stack(m, i).value, |Stack(m, opening).value|));
  }

  lemma StepStillTracks(m: string, opening: nat, closing: nat, i: nat)
    requires opening < i < closing < |m| && m[opening] == '{' && Stack(m, i + 1).Some?
    requires Closes(m, opening, closing) && Tracks(m, opening, i)
    ensures Tracks(m, opening, i + 1)
  {
    StepTracks(m, opening, i);
    NotYetClosed(m, opening, i, closing);
  }

  lemma {:induction false} TracksUntilClosed(m: string, opening: nat, closing: nat, i: nat)
    requires Stack(m, |m|).Some? && opening < i <= closing < |m| && m[opening] == '{'
    requires Closes(m, opening, closing)
    ensures Tracks(m, opening, i)
    decreases i
  {
    if i == opening + 1 {
      StackIsDefined(m, opening, |m|);
      OpeningTracks(m, opening);
    } else {
      var j := i - 1;
      TracksUntilClosed(m, opening, closing, j);
      StackIsDefined(m, j + 1, |m|);
      StepStillTracks(m, opening, closing, j);
    }
  }

  /** Until it is closed, a brace stays on the stack and the count stays positive. */
  lemma OpenUntilClosed(m: string, opening: nat, closing: nat)
    requires Accepted(m) && opening < closing < |m| && m[opening] == '{'
    requires Closes(m, opening, closing)
    ensures StaysOpen(m, opening, closing) && Tracks(m, opening, closing)
  {
    forall i | opening < i <= closing ensures Balance(m, opening, i) > 0 {
      TracksUntilClosed(m, opening, closing, i);
      TrackedIsPositive(m, opening, i);
    }
    TracksUntilClosed(m, opening, closing, closing);
  }

  lemma NotYetClosed(m: string, opening: nat, i: nat, closing: nat)
    requires opening < i < closing && Closes(m, opening, closing)
    ensures !Closes(m, opening, i)
  {
    if Closes(m, opening, i) {
      PoppedOnce(m, opening, i, closing);
    }
  }

  /** An offset that has left the stack never comes back. */
  lemma {:induction false} StaysGone(m: string, opening: nat, i: nat, j: nat)
    requires opening < i <= j <= |m| && Stack(m, j).Some? && Stack(m, i).Some?
    requires opening !in Stack(m, i).value
    ensures opening !in Stack(m, j).value
    decreases j
  {
    if i < j {
      StackIsDefined(m, j - 1, j);
      StaysGone(m, opening, i, j - 1);
    }
  }

  lemma PoppedOnce(m: string, opening: nat, first: nat, second: nat)
    requires opening < first && Closes(m, opening, first) && Closes(m, opening, second)
    ensures first >= second
  {
    if first < second {
      OffsetsIncrease(m, first);
      StaysGone(m, opening, first + 1, second);
    }
  }

  /**
   The brace the matcher returns closes one deeper than it opened, and the text is back at the
   opening depth after it.
   */
  lemma MatchedBrace(m: string, opening: nat, closing: nat)
    requires Accepted(m) && opening < closing < |m| && m[opening] == '{' && m[closing] == '}'
    requires StaysOpen(m, opening, closing) && Balance(m, opening, closing + 1) == 0
    ensures ClosesDeeper(m, opening, closing)
  {
    CountingFindsTheCloser(m, opening, closing);
    StackIsDefined(m, opening, |m|);
    OpenTracks(m, opening, closing);
    ClosingBalances(m, opening, closing);
  }

  lemma AcceptedBraceIsClosed(m: string, opening: nat)
    requires Accepted(m) && opening < |m| && m[opening] == '{'
    ensures !StaysOpen(m, opening, |m|)
  {
    if StaysOpen(m, opening, |m|) {
      OpenTracks(m, opening, |m|);
    }
  }

  predicate ClosesDeeper(m: string, opening: nat, closing: nat)
  {
    && opening < closing && Closes(m, opening, closing)
    && Stack(m, opening).Some?
    && Depth(m, closing) == Depth(m, opening) + 1
    && Depth(m, closing + 1) == Depth(m, opening)
  }

  // ---------------------------------------------------------------- the inside of a block

  function Shifted(open: seq<nat>, offset: nat): (r: seq<nat>)
    ensures |r| == |open| && forall k :: 0 <= k < |open| ==> r[k] == open[k] + offset
  {
    seq(|open|, k requires 0 <= k < |open| => open[k] + offset)
  }

  /** The outer stack is `below` and the block's own stack `open` on top of it. */
  ghost predicate OnTop(m: string, inner: string, below: seq<nat>, offset: nat, i: nat)
  {
    && i <= |inner| && offset + i <= |m|
    && Stack(inner, i).Some? && Stack(m, offset + i).Some?
    && Stack(m, offset + i).value == below + Shifted(Stack(inner, i).value, offset)
  }

  lemma OnTopStep(m: string, inner: string, below: seq<nat>, offset: nat, i: nat)
    requires OnTop(m, inner, below, offset, i)
    requires i < |inner| && offset + |inner| <= |m| && inner == m[offset..offset + |inner|]
    requires Stack(m, offset + i + 1).Some?
    requires IsCloser(inner[i]) ==> Stack(inner, i).value != []
    ensures OnTop(m, inner, below, offset, i + 1)
  {
    var open := Stack(inner, i).value;
    assert inner[i] == m[offset + i];
    if IsOpener(inner[i]) {
      ShiftedPush(below, open, offset, i);
    } else if IsCloser(inner[i]) {
      ShiftedBracket(m, inner, below, offset, i);
      ShiftedLast(below, open, offset);
    }
  }

  lemma ShiftedPush(below: seq<nat>, open: seq<nat>, offset: nat, i: nat)
    ensures below + Shifted(open, offset) + [offset + i] == below + Shifted(open + [i], offset)
  {
  }

  /** The innermost open bracket of a block is the innermost open bracket outside too. */
  lemma ShiftedBracket(m: string, inner: string, below: seq<nat>, offset: nat, i: nat)
    requires OnTop(m, inner, below, offset, i) && Stack(inner, i).value != []
    requires offset + |inner| <= |m| && inner == m[offset..offset + |inner|]
    ensures var open, outer := Stack(inner, i).value, Stack(m, offset + i).value;
            outer != [] && outer[|outer| - 1] == open[|open| - 1] + offset
            && m[outer[|outer| - 1]] == inner[open[|open| - 1]]
  {
    ShiftedLast(below, Stack(inner, i).value, offset);
    var last := Stack(inner, i).value[|Stack(inner, i).value| - 1];
    assert inner[last] == m[offset + last];
  }

  lemma ShiftedLast(below: seq<nat>, open: seq<nat>, offset: nat)
    requires open != []
    ensures var outer := below + Shifted(open, offset);
            && outer[|outer| - 1] == open[|open| - 1] + offset
            && outer[..|outer| - 1] == below + Shifted(open[..|open| - 1], offset)
  {
    assert Shifted(open, offset)[..|open| - 1] == Shifted(open[..|open| - 1], offset);
  }

  /** A closer strictly inside a matched brace closes a bracket of the block. */
  lemma ClosersStayInside(m: string, inner: string, opening: nat, closing: nat, i: nat)
    requires ClosesDeeper(m, opening, closing)
    requires OnTop(m, inner, Stack(m, opening).value + [opening], opening + 1, i)
    requires opening + 1 + i < closing && Stack(m, opening + 2 + i).Some?
    ensures IsCloser(m[opening + 1 + i]) ==> Stack(inner, i).value != []
  {
    NotYetClosed(m, opening, opening + 1 + i, closing);
  }

  lemma InnerStackStep(m: string, inner: string, opening: nat, closing: nat, i: nat)
    requires ClosesDeeper(m, opening, closing) && inner == m[opening + 1..closing]
    requires OnTop(m, inner, Stack(m, opening).value + [opening], opening + 1, i)
    requires opening + 1 + i < closing && Stack(m, opening + 1 + i + 1).Some?
    ensures OnTop(m, inner, Stack(m, opening).value + [opening], opening + 1, i + 1)
  {
    ClosersStayInside(m, inner, opening, closing, i);
    assert inner[i] == m[opening + 1 + i];
    OnTopStep(m, inner, Stack(m, opening).value + [opening], opening + 1, i);
  }

  /** Inside a matched brace the stack is the block's own stack on top of the enclosing one. */
  lemma {:induction false} InnerStack(m: string, inner: string, opening: nat, closing: nat, i: nat)
    requires Stack(m, |m|).Some? && opening < |m| && m[opening] == '{' && ClosesDeeper(m, opening, closing)
    requires opening + 1 + i <= closing && inner == m[opening + 1..closing]
    ensures OnTop(m, inner, Stack(m, opening).value + [opening], opening + 1, i)
    decreases i
  {
    if i == 0 {
      InnerStackStart(m, inner, opening);
    } else {
      var j := i - 1;
      InnerStack(m, inner, opening, closing, j);
      StackIsDefined(m, opening + 1 + j + 1, |m|);
      InnerStackStep(m, inner, opening, closing, j);
    }
  }

  lemma InnerStackStart(m: string, inner: string, opening: nat)
    requires opening < |m| && m[opening] == '{' && Stack(m, opening).Some?
    ensures OnTop(m, inner, Stack(m, opening).value + [opening], opening + 1, 0)
  {
    var below := Stack(m, opening).value + [opening];
    assert below + Shifted([], opening + 1) == below;
  }

  /** A matched block is itself accepted, and its own depth map is the outer one less the depth it starts at. */
  lemma BlockDepths(m: string, opening: nat, closing: nat, depths: seq<nat>)
    requires Accepted(m) && opening < |m| && m[opening] == '{' && ClosesDeeper(m, opening, closing)
    requires |depths| == closing - opening
    requires forall i :: 0 <= i < |depths| ==> Stack(m, opening + 1 + i).Some? && depths[i] == Depth(m, opening + 1 + i) - (Depth(m, opening) + 1)
    ensures IsDepthMap(m[opening + 1..closing], depths)
  {
    var inner := m[opening + 1..closing];
    forall i | 0 <= i <= |inner| ensures Stack(inner, i).Some? && depths[i] == Depth(inner, i) {
      InnerStack(m, inner, opening, closing, i);
    }
    InnerStack(m, inner, opening, closing, |inner|);
    assert Depth(inner, |inner|) == 0;
  }

  // ---------------------------------------------------------------- registry entries

  /** The characters Python counts as white space. */
  predicate IsSpace(c: char)
  {
    var code := c as int;
    || 0x09 <= code <= 0x0d || 0x1c <= code <= 0x20 || code == 0x85 || code == 0xa0 || code == 0x1680
    || 0x2000 <= code <= 0x200a || code == 0x2028 || code == 0x2029 || code == 0x202f || code == 0x205f || code == 0x3000
  }

  /** From `i`, white space extends exactly to `j`. */
  ghost predicate Skips(m: string, i: nat, j: nat)
  {
    i <= j <= |m| && (forall k :: i <= k < j ==> IsSpace(m[k])) && (j < |m| ==> !IsSpace(m[j]))
  }

  method SkipSpace(mask: string, index: nat) returns (r: nat)
    requires index <= |mask|
    ensures Skips(mask, index, r)
  {
    r := index;
    while r < |mask| && IsSpace(mask[r])
      invariant index <= r <= |mask| && forall k :: index <= k < r ==> IsSpace(mask[k])
    {
      r := r + 1;
    }
  }

  lemma {:induction false} SpaceKeepsStack(m: string, i: nat, j: nat)
    requires i <= j <= |m| && forall k :: i <= k < j ==> !IsOpener(m[k]) && !IsCloser(m[k])
    ensures Stack(m, j) == Stack(m, i)
    decreases j
  {
    if i < j {
      SpaceKeepsStack(m, i, j - 1);
    }
  }

  /** One entry: a dot, a matched brace block at `span`, white space, a comma, white space up to `next`. */
  ghost predicate Entry(m: string, at: nat, span: Span, comma: nat, next: nat)
  {
    && at + 2 == span.0 <= span.1 < |m|
    && m[at] == '.' && m[at + 1] == '{' && ClosesDeeper(m, at + 1, span.1)
    && Skips(m, span.1 + 1, comma) && comma < |m| && m[comma] == ','
    && Skips(m, comma + 1, next)
  }

  ghost predicate SomeEntry(m: string, at: nat)
  {
    exists span, comma, next :: Entry(m, at, span, comma, next)
  }

  type Span = (nat, nat)

  /** The block of the entry that begins at an offset, and where the entry after it would begin. */
  ghost function EntryAt(m: string, at: nat): (r: Option<(Span, nat)>)
    ensures r.Some? <==> SomeEntry(m, at)
    ensures r.Some? ==> exists comma :: Entry(m, at, r.value.0, comma, r.value.1)
  {
    if SomeEntry(m, at) then
      var span: Span, comma: nat, next: nat :| Entry(m, at, span, comma, next);
      Some((span, next))
    else None
  }

  ghost function Entries(m: string): nat -> Option<(Span, nat)> { (at: nat) => EntryAt(m, at) }

  /** Entry after entry, the blocks at `spans` lead from `at` to `end`. */
  ghost predicate Leads(entry: nat -> Option<(Span, nat)>, at: nat, spans: seq<Span>, end: nat)
    decreases |spans|
  {
    if spans == [] then at == end
    else entry(at).Some? && entry(at).value.0 == spans[0] && Leads(entry, entry(at).value.1, spans[1..], end)
  }

  lemma {:induction false} LeadsAppend(entry: nat -> Option<(Span, nat)>, at: nat, spans: seq<Span>, end: nat)
    requires Leads(entry, at, spans, end) && entry(end).Some?
    ensures Leads(entry, at, spans + [entry(end).value.0], entry(end).value.1)
    decreases |spans|
  {
    var more := spans + [entry(end).value.0];
    if spans == [] {
      assert more[1..] == [];
    } else {
      LeadsAppend(entry, entry(at).value.1, spans[1..], end);
      assert more[1..] == spans[1..] + [entry(end).value.0];
    }
  }

  /** Any way through the text extends the way taken so far. */
  lemma {:induction false} LeadsOn(entry: nat -> Option<(Span, nat)>, at: nat, done: seq<Span>, mid: nat, all: seq<Span>, end: nat)
    requires Leads(entry, at, done, mid) && Leads(entry, at, all, end) && entry(end).None?
    ensures (mid == end && done == all) || entry(mid).Some?
    decreases |done|
  {
    if done != [] {
      LeadsOn(entry, entry(at).value.1, done[1..], mid, all[1..], end);
      assert done == [done[0]] + done[1..];
      assert all == [all[0]] + all[1..];
    }
  }

  /** The entries whose blocks stand at `spans` fill the text from `at` to its end. */
  ghost predicate Tiles(m: string, at: nat, spans: seq<Span>)
  {
    Leads(Entries(m), at, spans, |m|)
  }

  ghost predicate WellLaid(m: string)
  {
    exists first, spans :: Skips(m, 0, first) && spans != [] && Tiles(m, first, spans)
  }

  lemma SkipsIsUnique(m: string, i: nat, j: nat, k: nat)
    requires Skips(m, i, j) && Skips(m, i, k)
    ensures j == k
  {
  }

  lemma EntryIsUnique(m: string, at: nat, s: Span, c: nat, n: nat, s': Span, c': nat, n': nat)
    requires Entry(m, at, s, c, n) && Entry(m, at, s', c', n')
    ensures s == s' && c == c' && n == n'
  {
    PoppedOnce(m, at + 1, s.1, s'.1);
    PoppedOnce(m, at + 1, s'.1, s.1);
    SkipsIsUnique(m, s.1 + 1, c, c');
    SkipsIsUnique(m, c + 1, n, n');
  }

  lemma EntryIsFound(m: string, at: nat, span: Span, comma: nat, next: nat)
    requires Entry(m, at, span, comma, next)
    ensures EntryAt(m, at) == Some((span, next))
  {
    var r := EntryAt(m, at);
    var c :| Entry(m, at, r.value.0, c, r.value.1);
    EntryIsUnique(m, at, span, comma, next, r.value.0, c, r.value.1);
  }

  lemma NotWellLaid(m: string, first: nat, done: seq<Span>, mid: nat)
    requires Skips(m, 0, first) && Leads(Entries(m), first, done, mid) && !SomeEntry(m, mid)
    requires mid == |m| ==> done == []
    ensures !WellLaid(m)
  {
    if WellLaid(m) {
      var f, spans :| Skips(m, 0, f) && spans != [] && Tiles(m, f, spans);
      SkipsIsUnique(m, 0, first, f);
      LeadsOn(Entries(m), first, done, mid, spans, |m|);
    }
  }

  datatype Block = Block(body: string, mask: string, depths: seq<nat>)

  ghost predicate IsBlock(body: string, mask: string, span: Span, block: Block)
    requires |body| == |mask|
  {
    && span.0 <= span.1 <= |mask|
    && block.body == body[span.0..span.1] && block.mask == mask[span.0..span.1]
    && IsDepthMap(block.mask, block.depths)
  }

  /** The block of an entry whose opening brace stands at top level. */
  method ReadBlock(body: string, mask: string, depths: seq<nat>, opening: nat) returns (block: Block, closing: nat)
    requires |body| == |mask| && IsDepthMap(mask, depths)
    requires opening < |mask| && mask[opening] == '{' && depths[opening] == 0
    ensures ClosesDeeper(mask, opening, closing) && closing < |mask| && depths[closing + 1] == 0
    ensures IsBlock(body, mask, (opening + 1, closing), block)
  {
    AcceptedBraceIsClosed(mask, opening);
    var found := FindMatchingBrace(mask, opening);
    closing := found.value;
    MatchedBrace(mask, opening, closing);
    if depths[closing] != 1 {
      assert false; // the source rejects an entry that escaped its scope
    }
    var blockStart := opening + 1;
    var baseDepth := depths[blockStart];
    block := Block(body[blockStart..closing], mask[blockStart..closing],
                   Relative(mask, depths, opening, closing, baseDepth));
  }

  lemma PlainKeepsDepth(m: string, depths: seq<nat>, i: nat, j: nat)
    requires IsDepthMap(m, depths) && i <= j <= |m|
    requires forall k :: i <= k < j ==> !IsOpener(m[k]) && !IsCloser(m[k])
    ensures depths[i] == depths[j]
  {
    SpaceKeepsStack(m, i, j);
  }

  /** Reads one entry at top level and the separator after it. */
  method ReadEntry(body: string, mask: string, depths: seq<nat>, index: nat)
    returns (r: Result<(Block, nat)>, ghost span: Span, ghost comma: nat)
    requires |body| == |mask| && IsDepthMap(mask, depths)
    requires index < |mask| && depths[index] == 0
    ensures r.Ok? ==> Entry(mask, index, span, comma, r.value.1) && r.value.1 <= |mask| && depths[r.value.1] == 0
    ensures r.Ok? ==> IsBlock(body, mask, span, r.value.0)
    ensures r.Err? ==> !SomeEntry(mask, index) && (r.error == UnsupportedEntry || r.error == EntryNotTerminated)
  {
    span, comma := (0, 0), 0;
    if !(index + 1 < |mask| && mask[index] == '.' && mask[index + 1] == '{') {
      EntryNeedsBrace(mask, index);
      return Err(UnsupportedEntry), span, comma;
    }
    var opening := index + 1;
    PlainKeepsDepth(mask, depths, index, opening);
    if depths[opening] != 0 {
      assert false; // the source rejects an entry that escaped its scope
    }
    var block, closing := ReadBlock(body, mask, depths, opening);
    span := (opening + 1, closing);
    var after := SkipSpace(mask, closing + 1);
    comma := after;
    if after >= |mask| || mask[after] != ',' {
      EntryNeedsComma(mask, index, closing, after);
      return Err(EntryNotTerminated), span, comma;
    }
    var next := SkipSpace(mask, after + 1);
    EntryIsBuilt(mask, depths, index, closing, after, next);
    return Ok((block, next)), span, comma;
  }

  /** The part of the depth map that belongs to a block, less the depth it starts at. */
  function Relative(mask: string, depths: seq<nat>, opening: nat, closing: nat, baseDepth: nat): (r: seq<nat>)
    requires IsDepthMap(mask, depths) && opening < |mask| && mask[opening] == '{'
    requires ClosesDeeper(mask, opening, closing) && baseDepth == depths[opening + 1]
    ensures IsDepthMap(mask[opening + 1..closing], r)
  {
    InnerDepths(mask, opening, closing);
    var r := seq(closing - opening, i requires 0 <= i < closing - opening => depths[opening + 1 + i] - baseDepth);
    BlockDepths(mask, opening, closing, r);
    r
  }

  lemma InnerDepths(m: string, opening: nat, closing: nat)
    requires Accepted(m) && opening < |m| && m[opening] == '{' && ClosesDeeper(m, opening, closing)
    ensures forall i :: opening < i <= closing ==> Stack(m, i).Some? && Depth(m, i) >= Depth(m, opening) + 1
    ensures Stack(m, opening + 1).Some? && Depth(m, opening + 1) == Depth(m, opening) + 1
  {
    forall i | opening < i <= closing ensures Stack(m, i).Some? && Depth(m, i) >= Depth(m, opening) + 1 {
      InnerStack(m, m[opening + 1..closing], opening, closing, i - opening - 1);
    }
  }

  lemma EntryHasComma(m: string, at: nat, closing: nat, comma: nat, span: Span, c: nat, n: nat)
    requires at + 1 < closing < |m| && ClosesDeeper(m, at + 1, closing) && Skips(m, closing + 1, comma)
    requires Entry(m, at, span, c, n)
    ensures c == comma
  {
    PoppedOnce(m, at + 1, span.1, closing);
    PoppedOnce(m, at + 1, closing, span.1);
    SkipsIsUnique(m, closing + 1, c, comma);
  }

  lemma EntryNeedsComma(m: string, at: nat, closing: nat, comma: nat)
    requires at + 1 < closing < |m| && ClosesDeeper(m, at + 1, closing) && Skips(m, closing + 1, comma)
    requires comma >= |m| || m[comma] != ','
    ensures !SomeEntry(m, at)
  {
    if SomeEntry(m, at) {
      var span, c, n :| Entry(m, at, span, c, n);
      EntryHasComma(m, at, closing, comma, span, c, n);
    }
  }

  lemma EntryNeedsBrace(m: string, at: nat)
    requires !(at + 1 < |m| && m[at] == '.' && m[at + 1] == '{')
    ensures !SomeEntry(m, at)
  {
  }

  lemma EntryIsBuilt(m: string, depths: seq<nat>, at: nat, closing: nat, comma: nat, next: nat)
    requires IsDepthMap(m, depths) && at + 1 < closing < |m| && m[at] == '.' && m[at + 1] == '{'
    requires ClosesDeeper(m, at + 1, closing) && depths[closing + 1] == 0
    requires Skips(m, closing + 1, comma) && comma < |m| && m[comma] == ',' && Skips(m, comma + 1, next)
    ensures Entry(m, at, (at + 2, closing), comma, next) && depths[next] == 0
  {
    PlainKeepsDepth(m, depths, closing + 1, next);
  }

  ghost predicate Laid(m: string, spans: seq<Span>)
  {
    exists first :: Skips(m, 0, first) && Tiles(m, first, spans)
  }

  ghost predicate AreBlocks(body: string, mask: string, spans: seq<Span>, blocks: seq<Block>)
    requires |body| == |mask|
  {
    |spans| == |blocks| && forall i :: 0 <= i < |spans| ==> IsBlock(body, mask, spans[i], blocks[i])
  }

  /** The blocks read so far are those of the entries from `first` to `index`. */
  ghost predicate ReadSoFar(body: string, mask: string, first: nat, spans: seq<Span>, blocks: seq<Block>, index: nat)
    requires |body| == |mask|
  {
    Leads(Entries(mask), first, spans, index) && AreBlocks(body, mask, spans, blocks)
  }

  lemma ReadOneMore(body: string, mask: string, first: nat, spans: seq<Span>, blocks: seq<Block>, index: nat,
                    span: Span, comma: nat, next: nat, block: Block)
    requires |body| == |mask| && ReadSoFar(body, mask, first, spans, blocks, index)
    requires Entry(mask, index, span, comma, next) && IsBlock(body, mask, span, block)
    ensures ReadSoFar(body, mask, first, spans + [span], blocks + [block], next)
  {
    EntryIsFound(mask, index, span, comma, next);
    LeadsAppend(Entries(mask), first, spans, index);
  }

  lemma ReadingFinished(body: string, mask: string, first: nat, spans: seq<Span>, blocks: seq<Block>)
    requires |body| == |mask| && ReadSoFar(body, mask, first, spans, blocks, |mask|) && Skips(mask, 0, first)
    ensures blocks != [] ==> Laid(mask, spans) && WellLaid(mask)
    ensures blocks == [] ==> !WellLaid(mask)
  {
    if blocks == [] {
      EntryNeedsBrace(mask, |mask|);
      NotWellLaid(mask, first, spans, |mask|);
    } else {
      assert Tiles(mask, first, spans);
    }
  }

  method ReadEntries(body: string, mask: string, depths: seq<nat>, first: nat)
    returns (r: Result<seq<Block>>, ghost spans: seq<Span>)
    requires |body| == |mask| && IsDepthMap(mask, depths) && Skips(mask, 0, first)
    ensures r.Ok? ==> ReadSoFar(body, mask, first, spans, r.value, |mask|)
    ensures r.Err? ==> !WellLaid(mask) && r.error in {UnsupportedEntry, EntryNotTerminated}
  {
    spans := [];
    var blocks: seq<Block>, index := [], first;
    PlainKeepsDepth(mask, depths, 0, first);
    while index < |mask|
      invariant index <= |mask| && depths[index] == 0
      invariant ReadSoFar(body, mask, first, spans, blocks, index)
    {
      var entry, span, comma := ReadEntry(body, mask, depths, index);
      if entry.Err? {
        NotWellLaid(mask, first, spans, index);
        return Err(entry.error), spans;
      }
      ReadOneMore(body, mask, first, spans, blocks, index, span, comma, entry.value.1, entry.value.0);
      NextIsLater(mask, index, span, comma, entry.value.1);
      blocks, spans, index := blocks + [entry.value.0], spans + [span], entry.value.1;
    }
    return Ok(blocks), spans;
  }

  lemma NextIsLater(m: string, at: nat, span: Span, comma: nat, next: nat)
    requires Entry(m, at, span, comma, next)
    ensures at < next <= |m|
  {
  }

  /**
   The registry is read exactly when it is a nonempty run of comma-terminated struct literals;
   every block then carries its own depth map.  The two rejections of an entry that escaped its
   scope, and an unterminated entry, cannot happen.
   */
  method RootStructBlocks(body: string, mask: string) returns (r: Result<seq<Block>>, ghost spans: seq<Span>)
    requires |body| == |mask|
    ensures r.Ok? <==> Accepted(mask) && WellLaid(mask)
    ensures r.Ok? ==> Laid(mask, spans) && AreBlocks(body, mask, spans, r.value)
    ensures r.Err? ==> r.error in {Unbalanced, UnsupportedEntry, EntryNotTerminated, NoEntries}
  {
    spans := [];
    var depths := StructuralDepthMap(mask);
    if depths.Err? {
      return Err(Unbalanced), spans;
    }
    var first := SkipSpace(mask, 0);
    r, spans := ReadEntries(body, mask, depths.value, first);
    if r.Ok? {
      ReadingFinished(body, mask, first, spans, r.value);
      if r.value == [] {
        r := Err(NoEntries);
      }
    }
  }

  // ---------------------------------------------------------------- an initializer's body

  /** The first opening brace in `m[start..end]`. */
  function FirstBrace(m: string, start: nat, end: nat): (r: Option<nat>)
    requires start <= end <= |m|
    ensures r.Some? ==> start <= r.value < end && m[r.value] == '{' && '{' !in m[start..r.value]
    ensures r.None? ==> '{' !in m[start..end]
    decreases end - start
  {
    if start == end then None
    else if m[start] == '{' then Some(start)
    else
      assert forall e :: start < e <= end ==> m[start..e] == [m[start]] + m[start + 1..e];
      FirstBrace(m, start + 1, end)
  }

  /**
   `matches` are the places where the declaration's pattern was found.  The body is the inside
   of the first brace of the only match, and it is accepted text; the second scope rejection of
   the source, on the closing brace, cannot happen.
   */
  method BodyOfMatches(text: string, mask: string, depths: seq<nat>, matches: seq<(nat, nat)>)
    returns (r: Result<(string, string)>, ghost opening: nat, ghost closing: nat)
    requires |text| == |mask| && IsDepthMap(mask, depths)
    requires forall i :: 0 <= i < |matches| ==> matches[i].0 <= matches[i].1 <= |mask|
    ensures r.Ok? <==>
            && |matches| == 1 && depths[matches[0].0] == 0
            && FirstBrace(mask, matches[0].0, matches[0].1).Some?
            && depths[FirstBrace(mask, matches[0].0, matches[0].1).value] == 0
    ensures r.Ok? ==>
              && FirstBrace(mask, matches[0].0, matches[0].1) == Some(opening)
              && ClosesDeeper(mask, opening, closing) && closing < |mask| == |text|
              && r.value == (text[opening + 1..closing], mask[opening + 1..closing])
              && Accepted(r.value.1) && depths[closing] == 1 && depths[closing + 1] == 0
    ensures r.Err? ==> r.error in {NotTopLevel, SeveralDeclarations, Undeclared, NoInitializer, InitializerEscaped}
    ensures r == Err(NotTopLevel) <==> exists i :: 0 <= i < |matches| && depths[matches[i].0] != 0
    ensures r == Err(Undeclared) <==> matches == []
    ensures r == Err(NoInitializer) ==> |matches| == 1 && FirstBrace(mask, matches[0].0, matches[0].1).None?
    ensures r == Err(InitializerEscaped) ==>
              && |matches| == 1 && FirstBrace(mask, matches[0].0, matches[0].1).Some?
              && depths[FirstBrace(mask, matches[0].0, matches[0].1).value] != 0
  {
    opening, closing := 0, 0;
    for i := 0 to |matches|
      invariant forall j :: 0 <= j < i ==> depths[matches[j].0] == 0
    {
      if depths[matches[i].0] != 0 {
        return Err(NotTopLevel), opening, closing;
      }
    }
    if |matches| > 1 {
      return Err(SeveralDeclarations), opening, closing;
    }
    if matches == [] {
      return Err(Undeclared), opening, closing;
    }
    var brace := FirstBrace(mask, matches[0].0, matches[0].1);
    if brace.None? {
      return Err(NoInitializer), opening, closing;
    }
    opening := brace.value;
    if depths[brace.value] != 0 {
      return Err(InitializerEscaped), opening, closing;
    }
    AcceptedBraceIsClosed(mask, brace.value);
    var end := FindMatchingBrace(mask, brace.value);
    closing := end.value;
    MatchedBrace(mask, brace.value, end.value);
    if depths[end.value] != 1 {
      assert false; // the source rejects an initializer that escaped its scope
    }
    ghost var inner := Relative(mask, depths, brace.value, end.value, depths[brace.value + 1]);
    return Ok((text[brace.value + 1..end.value], mask[brace.value + 1..end.value])), opening, closing;
  }
}
