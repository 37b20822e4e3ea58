/**
 The declaration of a registry in masked source text: where the search for
 `pub const NAME = VALUE {` finds one, and the initializer it stands for.
 */
module Declarations {
  import opened Shared
  import opened Brackets

  /** `value` follows the equals sign, after `[_]` when the declaration is a list. */
  datatype Declaration = Declaration(name: string, listed: bool, value: string)

  /** Where the parts of a declaration begin. */
  datatype Layout = Layout(constant: nat, name: nat, equals: nat, value: nat, brace: nat)

  const PUB := "pub"
  const CONST := "const"
  const LIST := "[_]"

  predicate IsPlain(c: char) { !IsSpace(c) && !IsOpener(c) && !IsCloser(c) && c != '=' }

  predicate IsWord(w: string) { w != [] && forall k :: 0 <= k < |w| ==> IsPlain(w[k]) }

  predicate IsDeclaration(d: Declaration) { IsWord(d.name) && IsWord(d.value) }

  function ValueOf(d: Declaration): string { (if d.listed then LIST else []) + d.value }

  /** The word `w` stands at `i`. */
  predicate Reads(m: string, i: nat, w: string)
  {
    i + |w| <= |m| && forall k :: 0 <= k < |w| ==> m[i + k] == w[k]
  }

  /** Only white space from `i` to `j`, and at least so much of it. */
  predicate Gap(m: string, i: nat, j: nat, least: nat)
  {
    i + least <= j <= |m| && forall k :: i <= k < j ==> IsSpace(m[k])
  }

  /** The text from `start` through the brace matches the pattern of the declaration. */
  predicate Declares(m: string, d: Declaration, start: nat, l: Layout)
  {
    Head(m, d.name, start, l.constant, l.name, l.equals) && Tail(m, ValueOf(d), l.equals, l.value, l.brace)
  }

  predicate Head(m: string, word: string, start: nat, constant: nat, name: nat, equals: nat)
  {
    && Reads(m, start, PUB) && Gap(m, start + 3, constant, 1)
    && Reads(m, constant, CONST) && Gap(m, constant + 5, name, 1)
    && Reads(m, name, word) && Gap(m, name + |word|, equals, 0)
    && equals < |m| && m[equals] == '='
  }

  predicate Tail(m: string, word: string, equals: nat, value: nat, brace: nat)
  {
    && Gap(m, equals + 1, value, 0) && Reads(m, value, word)
    && Gap(m, value + |word|, brace, 0) && brace < |m| && m[brace] == '{'
  }

  // ---------------------------------------------------------------- one declaration at a place

  /** White space before something else ends in one place only. */
  lemma GapIsUnique(m: string, i: nat, j: nat, k: nat)
    ensures Gap(m, i, j, 0) && Gap(m, i, k, 0) && j < |m| && k < |m| && !IsSpace(m[j]) && !IsSpace(m[k]) ==> j == k
  {
  }

  /** No part of a declaration begins with white space. */
  lemma PartsBegin(m: string, d: Declaration, start: nat, l: Layout)
    requires IsDeclaration(d) && Declares(m, d, start, l)
    ensures start + 3 < l.constant && l.constant + 5 < l.name < l.equals < l.value < l.brace < |m|
    ensures m[start] == 'p' && m[l.constant] == 'c' && m[l.name] == d.name[0] && m[l.value] == ValueOf(d)[0]
    ensures !IsSpace(m[l.name]) && !IsSpace(m[l.value])
  {
    assert m[start + 0] == PUB[0];
    assert m[l.constant + 0] == CONST[0];
    assert m[l.name + 0] == d.name[0];
    assert m[l.value + 0] == ValueOf(d)[0];
  }

  lemma LayoutIsUnique(m: string, d: Declaration, start: nat, l: Layout, l': Layout)
    requires IsDeclaration(d) && Declares(m, d, start, l) && Declares(m, d, start, l')
    ensures l == l'
  {
    PartsBegin(m, d, start, l);
    PartsBegin(m, d, start, l');
    GapIsUnique(m, start + 3, l.constant, l'.constant);
    GapIsUnique(m, l.constant + 5, l.name, l'.name);
    GapIsUnique(m, l.name + |d.name|, l.equals, l'.equals);
    GapIsUnique(m, l.equals + 1, l.value, l'.value);
    GapIsUnique(m, l.value + |ValueOf(d)|, l.brace, l'.brace);
  }

  // ---------------------------------------------------------------- declarations do not overlap

  lemma ValueChars(d: Declaration, k: nat)
    requires IsDeclaration(d) && k < |ValueOf(d)|
    ensures ValueOf(d)[k] != '{' && ValueOf(d)[k] != '='
  {
  }

  /** Up to the brace there is no other brace, and after the equals sign no other equals sign. */
  lemma CharsOf(m: string, d: Declaration, start: nat, l: Layout, k: nat)
    requires IsDeclaration(d) && Declares(m, d, start, l)
    ensures start <= k < l.brace ==> m[k] != '{' && (l.equals < k ==> m[k] != '=')
  {
    PartsBegin(m, d, start, l);
    if start <= k < start + 3 {
      assert m[start + (k - start)] == PUB[k - start];
    } else if l.constant <= k < l.constant + 5 {
      assert m[l.constant + (k - l.constant)] == CONST[k - l.constant];
    } else if l.name <= k < l.name + |d.name| {
      assert m[l.name + (k - l.name)] == d.name[k - l.name];
    } else if l.value <= k < l.value + |ValueOf(d)| {
      assert m[l.value + (k - l.value)] == ValueOf(d)[k - l.value];
      ValueChars(d, k - l.value);
    }
  }

  /** A second declaration cannot begin in the name of the first. */
  lemma NotInName(m: string, d: Declaration, start: nat, l: Layout, later: nat, l': Layout)
    requires IsDeclaration(d) && Declares(m, d, start, l) && Declares(m, d, later, l')
    ensures !(l.name <= later < l.name + |d.name|)
  {
    PartsBegin(m, d, start, l);
    PartsBegin(m, d, later, l');
    InsideName(m, d, start, l, later);
    GapIsUnique(m, l.name + |d.name|, l.equals, l'.constant);
  }

  /** Where `pub` stands in the name, it ends with the name or no white space follows. */
  lemma InsideName(m: string, d: Declaration, start: nat, l: Layout, k: nat)
    requires IsDeclaration(d) && Declares(m, d, start, l)
    ensures l.name <= k < l.name + |d.name| && Reads(m, k, PUB) ==>
              k + 3 == l.name + |d.name| || (k + 3 < l.name + |d.name| && !IsSpace(m[k + 3]))
  {
    PartsBegin(m, d, start, l);
    var end := l.name + |d.name|;
    assert IsSpace(m[end]) || m[end] == '=';
    if l.name <= k && k + 3 < end {
      assert m[l.name + (k + 3 - l.name)] == d.name[k + 3 - l.name];
    } else if k + 3 <= |m| {
      assert Reads(m, k, PUB) ==> m[k + 1] == PUB[1] && m[k + 2] == PUB[2];
    }
  }

  /** Nor after its equals sign. */
  lemma NotInValue(m: string, d: Declaration, start: nat, l: Layout, later: nat, l': Layout)
    requires IsDeclaration(d) && Declares(m, d, start, l) && Declares(m, d, later, l')
    ensures !(l.equals < later <= l.brace)
  {
    PartsBegin(m, d, start, l);
    PartsBegin(m, d, later, l');
    CharsOf(m, d, later, l', l.brace);
    CharsOf(m, d, start, l, l'.equals);
  }

  /** Before the equals sign, the letter that begins a declaration is only in the name. */
  lemma OtherLetters(m: string, d: Declaration, start: nat, l: Layout, k: nat)
    requires IsDeclaration(d) && Declares(m, d, start, l)
    ensures start < k <= l.equals && !(l.name <= k < l.name + |d.name|) ==> m[k] != 'p'
  {
    PartsBegin(m, d, start, l);
    if start <= k < start + 3 {
      assert m[start + (k - start)] == PUB[k - start];
    } else if l.constant <= k < l.constant + 5 {
      assert m[l.constant + (k - l.constant)] == CONST[k - l.constant];
    }
  }

  lemma DeclarationsDoNotOverlap(m: string, d: Declaration, start: nat, l: Layout, later: nat, l': Layout)
    requires IsDeclaration(d) && Declares(m, d, start, l) && Declares(m, d, later, l') && start < later
    ensures l.brace < later
  {
    PartsBegin(m, d, start, l);
    PartsBegin(m, d, later, l');
    NotInName(m, d, start, l, later, l');
    NotInValue(m, d, start, l, later, l');
    OtherLetters(m, d, start, l, later);
  }

  // ---------------------------------------------------------------- the search

  method ReadWord(mask: string, index: nat, w: string) returns (ok: bool)
    ensures ok <==> Reads(mask, index, w)
  {
    if index + |w| > |mask| {
      return false;
    }
    for k := 0 to |w|
      invariant forall j :: 0 <= j < k ==> mask[index + j] == w[j]
    {
      if mask[index + k] != w[k] {
        return false;
      }
    }
    return true;
  }

  method HeadAt(mask: string, word: string, start: nat) returns (r: Option<(nat, nat, nat)>)
    requires IsWord(word)
    ensures r.Some? ==> Head(mask, word, start, r.value.0, r.value.1, r.value.2)
    ensures r.None? ==> forall c: nat, n: nat, e: nat :: !Head(mask, word, start, c, n, e)
  {
    forall c: nat, n: nat, e: nat | Head(mask, word, start, c, n, e)
      ensures Skips(mask, start + 3, c) && Skips(mask, c + 5, n) && Skips(mask, n + |word|, e)
    {
      HeadFollows(mask, word, start, c, n, e);
    }
    var ok := ReadWord(mask, start, PUB);
    if !ok { return None; }
    var constant := SkipSpace(mask, start + 3);
    ok := ReadWord(mask, constant, CONST);
    if constant == start + 3 || !ok { return None; }
    var name := SkipSpace(mask, constant + 5);
    ok := ReadWord(mask, name, word);
    if name == constant + 5 || !ok { return None; }
    var equals := SkipSpace(mask, name + |word|);
    if equals == |mask| || mask[equals] != '=' { return None; }
    return Some((constant, name, equals));
  }

  method TailAt(mask: string, word: string, equals: nat) returns (r: Option<(nat, nat)>)
    requires equals < |mask| && word != [] && !IsSpace(word[0])
    ensures r.Some? ==> Tail(mask, word, equals, r.value.0, r.value.1)
    ensures r.None? ==> forall v: nat, b: nat :: !Tail(mask, word, equals, v, b)
  {
    forall v: nat, b: nat | Tail(mask, word, equals, v, b)
      ensures Skips(mask, equals + 1, v) && Skips(mask, v + |word|, b)
    {
      assert mask[v + 0] == word[0];
    }
    var value := SkipSpace(mask, equals + 1);
    var ok := ReadWord(mask, value, word);
    if !ok { return None; }
    var brace := SkipSpace(mask, value + |word|);
    if brace == |mask| || mask[brace] != '{' { return None; }
    return Some((value, brace));
  }

  /** The pattern at one place: every gap is taken whole, since no part begins with white space. */
  method DeclarationAt(mask: string, d: Declaration, start: nat) returns (r: Option<Layout>)
    requires IsDeclaration(d)
    ensures r.Some? ==> Declares(mask, d, start, r.value)
    ensures r.None? ==> forall l :: !Declares(mask, d, start, l)
  {
    var head := HeadAt(mask, d.name, start);
    if head.None? {
      return None;
    }
    var (constant, name, equals) := head.value;
    forall c: nat, n: nat, e: nat | Head(mask, d.name, start, c, n, e) ensures e == equals {
      HeadIsUnique(mask, d.name, start, constant, name, equals, c, n, e);
    }
    var tail := TailAt(mask, ValueOf(d), equals);
    if tail.None? {
      return None;
    }
    return Some(Layout(constant, name, equals, tail.value.0, tail.value.1));
  }

  /** Every gap is all the white space there is. */
  lemma HeadFollows(m: string, word: string, start: nat, constant: nat, name: nat, equals: nat)
    requires IsWord(word) && Head(m, word, start, constant, name, equals)
    ensures Skips(m, start + 3, constant) && Skips(m, constant + 5, name) && Skips(m, name + |word|, equals)
  {
    assert m[constant + 0] == CONST[0];
    assert m[name + 0] == word[0];
  }

  lemma HeadIsUnique(m: string, word: string, start: nat, c: nat, n: nat, e: nat, c': nat, n': nat, e': nat)
    requires IsWord(word) && Head(m, word, start, c, n, e) && Head(m, word, start, c', n', e')
    ensures c == c' && n == n' && e == e'
  {
    HeadFollows(m, word, start, c, n, e);
    HeadFollows(m, word, start, c', n', e');
    GapIsUnique(m, start + 3, c, c');
    GapIsUnique(m, c + 5, n, n');
    GapIsUnique(m, n + |word|, e, e');
  }

  /** Every declaration before `end`, in order. */
  ghost predicate AreDeclarations(m: string, d: Declaration, found: seq<(nat, Layout)>, end: nat)
  {
    && (forall k :: 0 <= k < |found| ==> Declares(m, d, found[k].0, found[k].1) && found[k].0 < end)
    && (forall j, k :: 0 <= j < k < |found| ==> found[j].0 < found[k].0)
    && (forall start: nat, l: Layout :: Declares(m, d, start, l) && start < end ==> (start, l) in found)
  }

  /** The search that resumes after each match finds every declaration there is. */
  method FindDeclarations(mask: string, d: Declaration) returns (found: seq<(nat, Layout)>)
    requires IsDeclaration(d)
    ensures AreDeclarations(mask, d, found, |mask|)
  {
    found := [];
    var index: nat := 0;
    while index < |mask|
      invariant index <= |mask| && AreDeclarations(mask, d, found, index)
    {
      var here := DeclarationAt(mask, d, index);
      if here.None? {
        index := index + 1;
      } else {
        OneMoreDeclaration(mask, d, found, index, here.value);
        found, index := found + [(index, here.value)], here.value.brace + 1;
      }
    }
  }

  lemma OneMoreDeclaration(m: string, d: Declaration, found: seq<(nat, Layout)>, index: nat, l: Layout)
    requires IsDeclaration(d) && AreDeclarations(m, d, found, index) && Declares(m, d, index, l)
    ensures index < l.brace + 1 <= |m| && AreDeclarations(m, d, found + [(index, l)], l.brace + 1)
  {
    PartsBegin(m, d, index, l);
    var more := found + [(index, l)];
    forall start: nat, l': Layout | Declares(m, d, start, l') && start < l.brace + 1 ensures (start, l') in more {
      if start > index {
        DeclarationsDoNotOverlap(m, d, index, l, start, l');
      } else if start == index {
        LayoutIsUnique(m, d, index, l, l');
        assert more[|found|] == (start, l');
      }
    }
  }

  // ---------------------------------------------------------------- its initializer

  lemma BraceIsFirst(m: string, d: Declaration, start: nat, l: Layout)
    requires IsDeclaration(d) && Declares(m, d, start, l)
    ensures start <= l.brace < |m| && FirstBrace(m, start, l.brace + 1) == Some(l.brace)
  {
    PartsBegin(m, d, start, l);
    forall k | start <= k < l.brace ensures m[k] != '{' {
      CharsOf(m, d, start, l, k);
    }
    assert m[start..l.brace + 1][l.brace - start] == '{';
  }

  /** No bracket of the pattern stays open before its brace. */
  lemma DepthIsKept(m: string, d: Declaration, start: nat, l: Layout)
    requires IsDeclaration(d) && Declares(m, d, start, l) && Accepted(m)
    ensures start <= l.brace < |m| && Stack(m, start) == Stack(m, l.brace)
  {
    PartsBegin(m, d, start, l);
    forall k | start <= k < l.value ensures !IsOpener(m[k]) && !IsCloser(m[k]) {
      NoBracketBeforeValue(m, d, start, l, k);
    }
    SpaceKeepsStack(m, start, l.value);
    StackIsDefined(m, l.value, |m|);
    ValueKeepsStack(m, d, l.value);
    SpaceKeepsStack(m, l.value + |ValueOf(d)|, l.brace);
  }

  lemma NoBracketBeforeValue(m: string, d: Declaration, start: nat, l: Layout, k: nat)
    requires IsDeclaration(d) && Declares(m, d, start, l) && start <= k < l.value
    ensures k < |m| && !IsOpener(m[k]) && !IsCloser(m[k])
  {
    PartsBegin(m, d, start, l);
    if start <= k < start + 3 {
      assert m[start + (k - start)] == PUB[k - start];
    } else if l.constant <= k < l.constant + 5 {
      assert m[l.constant + (k - l.constant)] == CONST[k - l.constant];
    } else if l.name <= k < l.name + |d.name| {
      assert m[l.name + (k - l.name)] == d.name[k - l.name];
    }
  }

  lemma ListMarkerKeepsStack(m: string, i: nat)
    requires Reads(m, i, LIST) && Stack(m, i).Some?
    ensures Stack(m, i + 3) == Stack(m, i)
  {
    assert m[i + 0] == LIST[0] && m[i + 1] == LIST[1] && m[i + 2] == LIST[2];
    var open := Stack(m, i).value;
    assert Stack(m, i + 1) == Some(open + [i]);
    assert Stack(m, i + 2) == Some(open + [i]);
    assert (open + [i])[..|open|] == open;
  }

  lemma WordKeepsStack(m: string, i: nat, w: string)
    requires Reads(m, i, w) && IsWord(w)
    ensures Stack(m, i + |w|) == Stack(m, i)
  {
    forall k | i <= k < i + |w| ensures !IsOpener(m[k]) && !IsCloser(m[k]) {
      assert m[i + (k - i)] == w[k - i];
    }
    SpaceKeepsStack(m, i, i + |w|);
  }

  lemma ReadsBoth(m: string, i: nat, a: string, b: string)
    requires Reads(m, i, a + b)
    ensures Reads(m, i, a) && Reads(m, i + |a|, b)
  {
    forall k | 0 <= k < |a| ensures m[i + k] == a[k] {
      assert (a + b)[k] == a[k];
    }
    forall k | 0 <= k < |b| ensures m[i + |a| + k] == b[k] {
      assert m[i + (|a| + k)] == (a + b)[|a| + k];
    }
  }

  lemma ValueKeepsStack(m: string, d: Declaration, i: nat)
    requires IsDeclaration(d) && Reads(m, i, ValueOf(d)) && Stack(m, i).Some?
    ensures Stack(m, i + |ValueOf(d)|) == Stack(m, i)
  {
    var marker := if d.listed then LIST else [];
    ReadsBoth(m, i, marker, d.value);
    if d.listed {
      ListMarkerKeepsStack(m, i);
    }
    WordKeepsStack(m, i + |marker|, d.value);
  }

  /** The text declares it in one place only. */
  ghost predicate DeclaredOnce(m: string, d: Declaration, start: nat, l: Layout)
  {
    Declares(m, d, start, l) && forall other: nat, l': Layout :: Declares(m, d, other, l') ==> other == start
  }

  ghost predicate DeclaredInside(m: string, d: Declaration, depths: seq<nat>)
    requires IsDepthMap(m, depths)
  {
    exists start: nat, l: Layout :: Declares(m, d, start, l) && depths[start] != 0
  }

  ghost predicate Undeclares(m: string, d: Declaration)
  {
    forall start: nat, l: Layout :: !Declares(m, d, start, l)
  }

  /** What the list of all declarations says of the text. */
  lemma FoundMeans(m: string, d: Declaration, depths: seq<nat>, found: seq<(nat, Layout)>)
    requires IsDepthMap(m, depths) && AreDeclarations(m, d, found, |m|)
    ensures Undeclares(m, d) <==> found == []
    ensures DeclaredInside(m, d, depths) <==> exists k :: 0 <= k < |found| && depths[found[k].0] != 0
    ensures |found| == 1 ==> DeclaredOnce(m, d, found[0].0, found[0].1)
    ensures |found| > 1 ==> forall start: nat, l: Layout :: !DeclaredOnce(m, d, start, l)
  {
    assert forall start: nat, l: Layout :: Declares(m, d, start, l) ==> start < |m| && (start, l) in found;
    assert found != [] ==> Declares(m, d, found[0].0, found[0].1);
    if |found| > 1 {
      assert found[0].0 < found[1].0 && Declares(m, d, found[1].0, found[1].1);
    }
  }

  /** The matches the search hands on: from the start of each declaration through its brace. */
  function Spans(found: seq<(nat, Layout)>): seq<(nat, nat)>
  {
    seq(|found|, k requires 0 <= k < |found| => (found[k].0, found[k].1.brace + 1))
  }

  /** The brace of a match is at the depth of its start. */
  ghost predicate Fits(m: string, depths: seq<nat>, span: (nat, nat), brace: nat)
    requires |depths| == |m| + 1
  {
    span.0 <= brace < span.1 <= |m| && FirstBrace(m, span.0, span.1) == Some(brace) && depths[brace] == depths[span.0]
  }

  lemma DepthsAgree(m: string, depths: seq<nat>, i: nat, j: nat)
    requires IsDepthMap(m, depths) && i <= |m| && j <= |m| && Stack(m, i) == Stack(m, j)
    ensures depths[i] == depths[j]
  {
  }

  lemma DeclarationFits(m: string, d: Declaration, depths: seq<nat>, start: nat, l: Layout)
    requires IsDeclaration(d) && IsDepthMap(m, depths) && Declares(m, d, start, l)
    ensures Fits(m, depths, (start, l.brace + 1), l.brace)
  {
    BraceIsFirst(m, d, start, l);
    DepthIsKept(m, d, start, l);
    DepthsAgree(m, depths, start, l.brace);
  }

  /** The inside of a brace at top level, in the text and in its mask. */
  ghost predicate IsBody(text: string, mask: string, depths: seq<nat>, opening: nat, closing: nat, body: (string, string))
    requires IsDepthMap(mask, depths)
  {
    && ClosesDeeper(mask, opening, closing) && opening < closing < |mask| == |text|
    && body == (text[opening + 1..closing], mask[opening + 1..closing])
    && Accepted(body.1) && depths[closing] == 1 && depths[closing + 1] == 0
  }

  method BodyOfFound(text: string, mask: string, depths: seq<nat>, d: Declaration)
    returns (r: Result<(string, string)>, ghost found: seq<(nat, Layout)>, ghost closing: nat)
    requires |text| == |mask| && IsDepthMap(mask, depths) && IsDeclaration(d)
    ensures AreDeclarations(mask, d, found, |mask|)
    ensures r.Ok? <==> |found| == 1 && depths[found[0].0] == 0
    ensures r.Ok? ==> IsBody(text, mask, depths, found[0].1.brace, closing, r.value)
    ensures r.Err? ==> r.error in {NotTopLevel, SeveralDeclarations, Undeclared}
    ensures r == Err(Undeclared) <==> found == []
    ensures r == Err(NotTopLevel) <==> exists k :: 0 <= k < |found| && depths[found[k].0] != 0
  {
    var list := FindDeclarations(mask, d);
    found := list;
    var matches := Spans(list);
    forall k | 0 <= k < |list| ensures Fits(mask, depths, matches[k], list[k].1.brace) {
      DeclarationFits(mask, d, depths, list[k].0, list[k].1);
    }
    ghost var opening;
    r, opening, closing := BodyOfMatches(text, mask, depths, matches);
    assert |list| == 1 ==> Fits(mask, depths, matches[0], list[0].1.brace);
  }

  /**
   The initializer of a registry: its body is returned exactly when the text declares it once, at
   top level, and it is then the inside of that declaration's brace. The three errors say what is
   wrong; a declaration without an initializer and one that escaped its scope cannot happen.
   */
  method InitializerBody(text: string, mask: string, depths: seq<nat>, d: Declaration)
    returns (r: Result<(string, string)>, ghost opening: nat, ghost closing: nat)
    requires |text| == |mask| && IsDepthMap(mask, depths) && IsDeclaration(d)
    ensures r.Ok? <==> exists start: nat, l: Layout :: DeclaredOnce(mask, d, start, l) && depths[start] == 0
    ensures r.Ok? ==>
              && (exists start: nat, l: Layout :: DeclaredOnce(mask, d, start, l) && l.brace == opening)
              && IsBody(text, mask, depths, opening, closing, r.value)
    ensures r.Err? ==> r.error in {NotTopLevel, SeveralDeclarations, Undeclared}
    ensures r == Err(Undeclared) <==> Undeclares(mask, d)
    ensures r == Err(NotTopLevel) <==> DeclaredInside(mask, d, depths)
  {
    ghost var found;
    r, found, closing := BodyOfFound(text, mask, depths, d);
    FoundMeans(mask, d, depths, found);
    opening := if |found| == 1 then found[0].1.brace else 0;
  }
}
