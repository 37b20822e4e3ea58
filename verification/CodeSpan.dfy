/**
 The code-span printer of the inventory, against a reader of code spans written from section
 6.1 of the CommonMark specification.
 */
module CodeSpan {
  import opened Shared

  predicate IsBlank(c: char) { c == ' ' || c == '\r' || c == '\n' }

  predicate AllSpaces(s: string) { forall i :: 0 <= i < |s| ==> s[i] == ' ' }

  function Ticks(n: nat): (r: string)
    ensures |r| == n && forall i :: 0 <= i < n ==> r[i] == '`'
  {
    if n == 0 then [] else ['`'] + Ticks(n - 1)
  }

  // ---------------------------------------------------------------- the printer

  /** `str.replace` for a pattern of one character. */
  function Replace(s: string, c: char, with: string): string
  {
    if s == [] then [] else (if s[0] == c then with else [s[0]]) + Replace(s[1..], c, with)
  }

  function Escaped(value: string): string
  {
    var html := Replace(Replace(Replace(value, '&', "&amp;"), '<', "&lt;"), '>', "&gt;");
    Replace(Replace(Replace(html, '\r', " "), '\n', " "), '|', "&#124;")
  }

  /** The length of the backtick run a text begins with. */
  function Run(s: string): (n: nat)
    ensures n <= |s| && (n > 0 <==> s != [] && s[0] == '`')
    ensures forall i :: 0 <= i < n ==> s[i] == '`'
    ensures n < |s| ==> s[n] != '`'
  {
    if s == [] || s[0] != '`' then 0 else 1 + Run(s[1..])
  }

  function LongestRun(s: string): nat
    decreases |s|
  {
    if s == [] then 0
    else if s[0] == '`' then
      var n, rest := Run(s), LongestRun(s[Run(s)..]);
      if n > rest then n else rest
    else LongestRun(s[1..])
  }

  predicate NeedsPadding(s: string)
  {
    s != [] && (s[0] == '`' || s[0] == ' ' || s[|s| - 1] == '`' || s[|s| - 1] == ' ')
  }

  function Padded(s: string): string { if NeedsPadding(s) then [' '] + s + [' '] else s }

  function MarkdownCode(value: string): string
  {
    var escaped := Escaped(value);
    var delimiter := Ticks(LongestRun(escaped) + 1);
    delimiter + Padded(escaped) + delimiter
  }

  // ---------------------------------------------------------------- the reader

  /** Where the next backtick string of exactly `k` backticks begins, if there is one. */
  function Closing(s: string, k: nat): (r: Option<nat>)
    ensures r.Some? ==> r.value <= |s|
    decreases |s|
  {
    if s == [] then None
    else
      var n := if s[0] == '`' then Run(s) else 1;
      if s[0] == '`' && n == k then Some(0)
      else
        match Closing(s[n..], k)
        case Some(p) => Some(p + n)
        case None => None
  }

  /** Line endings become spaces; one space goes from each end, unless there is nothing but spaces. */
  function Contents(s: string): string
  {
    var line := Replace(Replace(s, '\r', " "), '\n', " ");
    if |line| >= 2 && line[0] == ' ' && line[|line| - 1] == ' ' && !AllSpaces(line) then line[1..|line| - 1] else line
  }

  /** The contents of a text that is one code span from end to end. */
  function ReadSpan(s: string): Option<string>
  {
    var k := Run(s);
    if k == 0 then None
    else
      match Closing(s[k..], k)
      case Some(p) => if k + p + k == |s| then Some(Contents(s[k..][..p])) else None
      case None => None
  }

  // ---------------------------------------------------------------- proofs

  lemma {:induction false} Replaced(s: string, c: char, with: string, d: char)
    ensures d in Replace(s, c, with) <==> (d in s && d != c) || (c in s && d in with)
  {
    if s != [] {
      Replaced(s[1..], c, with, d);
      assert s == [s[0]] + s[1..];
    }
  }

  lemma {:induction false} ReplaceNothing(s: string, c: char, with: string)
    requires c !in s
    ensures Replace(s, c, with) == s
  {
    if s != [] {
      ReplaceNothing(s[1..], c, with);
    }
  }

  /** The escaped text has no line break and no cell separator. */
  lemma EscapedIsOneCell(value: string)
    ensures '\r' !in Escaped(value) && '\n' !in Escaped(value) && '|' !in Escaped(value)
  {
    var html := Replace(Replace(Replace(value, '&', "&amp;"), '<', "&lt;"), '>', "&gt;");
    var r := Replace(html, '\r', " ");
    var n := Replace(r, '\n', " ");
    Replaced(html, '\r', " ", '\r');
    Replaced(r, '\n', " ", '\r');
    Replaced(n, '|', "&#124;", '\r');
    Replaced(r, '\n', " ", '\n');
    Replaced(n, '|', "&#124;", '\n');
    Replaced(n, '|', "&#124;", '|');
  }

  /** Something other than spaces and line breaks. */
  ghost predicate HasInk(s: string) { exists d :: d in s && !IsBlank(d) }

  lemma ReplaceKeepsInk(s: string, c: char, with: string)
    requires HasInk(s) && (IsBlank(c) || HasInk(with))
    ensures HasInk(Replace(s, c, with))
  {
    var d :| d in s && !IsBlank(d);
    if d == c {
      var e :| e in with && !IsBlank(e);
      Replaced(s, c, with, e);
    } else {
      Replaced(s, c, with, d);
    }
  }

  lemma InkOf(s: string)
    requires s != [] && s[0] == '&'
    ensures HasInk(s)
  {
    assert s[0] in s;
  }

  lemma EscapedKeepsInk(value: string)
    requires HasInk(value)
    ensures HasInk(Escaped(value))
  {
    InkOf("&amp;");
    InkOf("&lt;");
    InkOf("&gt;");
    InkOf("&#124;");
    ReplaceKeepsInk(value, '&', "&amp;");
    var a := Replace(value, '&', "&amp;");
    ReplaceKeepsInk(a, '<', "&lt;");
    var b := Replace(a, '<', "&lt;");
    ReplaceKeepsInk(b, '>', "&gt;");
    var html := Replace(b, '>', "&gt;");
    ReplaceKeepsInk(html, '\r', " ");
    var r := Replace(html, '\r', " ");
    ReplaceKeepsInk(r, '\n', " ");
    ReplaceKeepsInk(Replace(r, '\n', " "), '|', "&#124;");
  }

  lemma {:induction false} BlankStaysBlank(value: string)
    requires forall i :: 0 <= i < |value| ==> IsBlank(value[i])
    ensures AllSpaces(Escaped(value)) && |Escaped(value)| == |value|
  {
    ReplaceNothing(value, '&', "&amp;");
    ReplaceNothing(value, '<', "&lt;");
    ReplaceNothing(value, '>', "&gt;");
    OneForOne(value, '\r');
    OneForOne(Replace(value, '\r', " "), '\n');
    ReplaceNothing(Replace(Replace(value, '\r', " "), '\n', " "), '|', "&#124;");
  }

  lemma {:induction false} OneForOne(s: string, c: char)
    ensures |Replace(s, c, " ")| == |s|
    ensures forall i :: 0 <= i < |s| ==> Replace(s, c, " ")[i] == if s[i] == c then ' ' else s[i]
  {
    if s != [] {
      OneForOne(s[1..], c);
    }
  }

  lemma {:induction false} RunBefore(s: string, rest: string)
    requires Run(s) < |s|
    ensures Run(s + rest) == Run(s)
  {
    if s[0] == '`' {
      assert (s + rest)[1..] == s[1..] + rest;
      RunBefore(s[1..], rest);
    }
  }

  lemma {:induction false} TicksRun(n: nat, rest: string)
    requires rest == [] || rest[0] != '`'
    ensures Run(Ticks(n) + rest) == n
  {
    if n > 0 {
      assert (Ticks(n) + rest)[1..] == Ticks(n - 1) + rest;
      TicksRun(n - 1, rest);
    }
  }

  /** No shorter run closes the span: the first string of `k` backticks is the closing delimiter. */
  lemma {:induction false} ClosesAtTheEnd(c: string, k: nat)
    requires k > 0 && LongestRun(c) < k && (c == [] || c[|c| - 1] != '`')
    ensures Closing(c + Ticks(k), k) == Some(|c|)
    decreases |c|
  {
    var s := c + Ticks(k);
    if c == [] {
      assert s == Ticks(k) + [];
      TicksRun(k, []);
    } else {
      var n := if c[0] == '`' then Run(c) else 1;
      if c[0] == '`' {
        RunBefore(c, Ticks(k));
      }
      assert s[n..] == c[n..] + Ticks(k);
      ClosesAtTheEnd(c[n..], k);
    }
  }

  lemma {:induction false} SpaceAddsNoRun(s: string)
    ensures LongestRun(s + [' ']) == LongestRun(s)
    decreases |s|
  {
    if s == [] {
      assert ([] + [' '])[1..] == [];
    } else {
      var n := if s[0] == '`' then Run(s) else 1;
      if s[0] == '`' && n == |s| {
        RunOfTicks(s);
        assert (s + [' '])[n..] == [' '];
        assert [' '][1..] == [];
        assert s[n..] == [];
      } else {
        if s[0] == '`' {
          RunBefore(s, [' ']);
        }
        assert (s + [' '])[n..] == s[n..] + [' '];
        SpaceAddsNoRun(s[n..]);
      }
    }
  }

  lemma RunOfTicks(s: string)
    requires Run(s) == |s|
    ensures Run(s + [' ']) == |s|
  {
    assert s == Ticks(|s|);
    TicksRun(|s|, [' ']);
  }

  lemma PaddingAddsNoRun(s: string)
    ensures LongestRun(Padded(s)) == LongestRun(s)
  {
    if NeedsPadding(s) {
      var p := [' '] + s + [' '];
      assert p[1..] == s + [' '];
      SpaceAddsNoRun(s);
    }
  }

  lemma SpanIsRead(value: string)
    requires Escaped(value) != []
    ensures ReadSpan(MarkdownCode(value)) == Some(Contents(Padded(Escaped(value))))
  {
    var e := Escaped(value);
    var c, k := Padded(e), LongestRun(e) + 1;
    var s := MarkdownCode(value);
    PaddingAddsNoRun(e);
    assert s == Ticks(k) + (c + Ticks(k));
    assert (c + Ticks(k))[0] == c[0] != '`';
    TicksRun(k, c + Ticks(k));
    assert s[k..] == c + Ticks(k);
    ClosesAtTheEnd(c, k);
    assert s[k..][..|c|] == c;
  }

  lemma PaddedIsOneLine(value: string)
    ensures var c := Padded(Escaped(value)); Replace(Replace(c, '\r', " "), '\n', " ") == c
  {
    EscapedIsOneCell(value);
    var c := Padded(Escaped(value));
    ReplaceNothing(c, '\r', " ");
    ReplaceNothing(c, '\n', " ");
  }

  lemma EscapedIsBlankTogether(value: string)
    ensures AllSpaces(Escaped(value)) <==> !HasInk(value)
  {
    if HasInk(value) {
      EscapedKeepsInk(value);
    } else {
      BlankStaysBlank(value);
    }
  }

  /**
   A Markdown reader gets the escaped text back exactly when the value holds something other
   than spaces and line breaks, whatever backtick runs and edge spaces it contains.
   */
  lemma CodeSpanRoundTrip(value: string)
    ensures ReadSpan(MarkdownCode(value)) == Some(Escaped(value)) <==> HasInk(value)
  {
    EscapedIsBlankTogether(value);
    var e := Escaped(value);
    if e == [] {
      EmptyIsNoSpan();
    } else {
      SpanIsRead(value);
      PaddedIsOneLine(value);
      var c := Padded(e);
      if AllSpaces(e) {
        assert AllSpaces(c) && |c| == |e| + 2;
      } else if NeedsPadding(e) {
        assert c[1..|c| - 1] == e;
        var j :| 0 <= j < |e| && e[j] != ' ';
        assert c[j + 1] == e[j];
      }
    }
  }

  /** What the reader of a table shows as itself: entities are not decoded inside a code span. */
  predicate Verbatim(value: string)
  {
    '&' !in value && '<' !in value && '>' !in value && '|' !in value && '\r' !in value && '\n' !in value
  }

  lemma {:induction false} ReplaceLength(s: string, c: char, with: string)
    requires |with| >= 1
    ensures |Replace(s, c, with)| >= |s|
    ensures |with| > 1 && c in s ==> |Replace(s, c, with)| > |s|
  {
    if s != [] {
      ReplaceLength(s[1..], c, with);
      assert s == [s[0]] + s[1..];
    }
  }

  lemma VerbatimIsUnescaped(value: string)
    requires Verbatim(value)
    ensures Escaped(value) == value
  {
    ReplaceNothing(value, '&', "&amp;");
    ReplaceNothing(value, '<', "&lt;");
    ReplaceNothing(value, '>', "&gt;");
    ReplaceNothing(value, '\r', " ");
    ReplaceNothing(value, '\n', " ");
    ReplaceNothing(value, '|', "&#124;");
  }

  /** Escaping never shortens, and every escaped character of the mark-up makes the text longer. */
  lemma EscapedLength(value: string)
    ensures |Escaped(value)| >= |value|
    ensures '&' in value || '<' in value || '>' in value ==> |Escaped(value)| > |value|
  {
    var a := Replace(value, '&', "&amp;");
    var b := Replace(a, '<', "&lt;");
    var html := Replace(b, '>', "&gt;");
    var r := Replace(html, '\r', " ");
    var n := Replace(r, '\n', " ");
    ReplaceLength(value, '&', "&amp;");
    ReplaceLength(a, '<', "&lt;");
    ReplaceLength(b, '>', "&gt;");
    ReplaceLength(html, '\r', " ");
    ReplaceLength(r, '\n', " ");
    ReplaceLength(n, '|', "&#124;");
    Replaced(value, '&', "&amp;", '<');
    Replaced(value, '&', "&amp;", '>');
    Replaced(a, '<', "&lt;", '>');
  }

  lemma EscapedIsTheValue(value: string)
    ensures Escaped(value) == value <==> Verbatim(value)
  {
    if Verbatim(value) {
      VerbatimIsUnescaped(value);
    } else {
      EscapedIsOneCell(value);
      EscapedLength(value);
    }
  }

  /**
   The reader shows the value itself exactly when the value has ink and nothing that the printer
   escapes; inside a code span the reader does not turn an entity back.
   */
  lemma CodeSpanShowsTheValue(value: string)
    ensures ReadSpan(MarkdownCode(value)) == Some(value) <==> HasInk(value) && Verbatim(value)
  {
    if HasInk(value) {
      CodeSpanRoundTrip(value);
      EscapedIsTheValue(value);
    } else {
      BlankStaysBlank(value);
      if value == [] {
        EmptyIsNoSpan();
      } else {
        SpanIsRead(value);
        PaddedIsOneLine(value);
        assert AllSpaces(Padded(Escaped(value))) && |Padded(Escaped(value))| == |value| + 2;
      }
    }
  }

  lemma EmptyIsNoSpan()
    ensures ReadSpan(Ticks(1) + Padded([]) + Ticks(1)) == None
  {
    var s := Ticks(1) + Padded([]) + Ticks(1);
    assert s == Ticks(2) + [];
    TicksRun(2, []);
    assert s[2..] == [];
  }

  /** The printed span never breaks the table row it is printed in. */
  lemma CodeSpanIsOneCell(value: string)
    ensures '\r' !in MarkdownCode(value) && '\n' !in MarkdownCode(value) && '|' !in MarkdownCode(value)
  {
    EscapedIsOneCell(value);
  }
}
