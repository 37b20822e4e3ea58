/**
 The Zig branch of the source masker: comments and literal contents are blanked while every
 offset and line break stays where it was.

 `Mask` is the meaning, one token at a time.  `SourceMask` is the index loop over a mutable
 character list, proved to compute it.  `Reads` is an independent reading of the source, one
 character at a time, that says what must happen at each offset.
 */
module ZigMask {

  datatype Error =
    | BackslashOutsideLiteral
    | BlockComment
    | UnterminatedIdentifier
    | EscapeInIdentifier
    | UnterminatedLiteral

  datatype Result<T> = Ok(value: T) | Err(error: Error)

  predicate IsBreak(c: char) { c == '\r' || c == '\n' }

  predicate IsQuote(c: char) { c == '"' || c == '\'' }

  predicate IdentifierStart(c: char) { 'A' <= c <= 'Z' || 'a' <= c <= 'z' || c == '_' }

  predicate IdentifierChar(c: char) { IdentifierStart(c) || '0' <= c <= '9' }

  /** The pattern `[A-Za-z_][A-Za-z0-9_]*` over the whole text. */
  predicate IsIdentifier(s: string)
  {
    |s| > 0 && IdentifierStart(s[0]) && forall i :: 0 <= i < |s| ==> IdentifierChar(s[i])
  }

  function Filled(n: nat, c: char): (r: string)
    ensures |r| == n && forall i :: 0 <= i < n ==> r[i] == c
  {
    if n == 0 then [] else [c] + Filled(n - 1, c)
  }

  function Blanked(c: char): char { if IsBreak(c) then c else ' ' }

  // ---------------------------------------------------------------- tokens

  /** How many characters stand before the next line break or the end. */
  function LineLength(s: string): (n: nat)
    ensures n <= |s|
    ensures forall i :: 0 <= i < n ==> !IsBreak(s[i])
    ensures n < |s| ==> IsBreak(s[n])
  {
    if s == [] || IsBreak(s[0]) then 0 else 1 + LineLength(s[1..])
  }

  /** The length of a quoted identifier's payload; its closing quote stands there. */
  function PayloadLength(s: string): (r: Result<nat>)
    ensures r.Ok? ==> r.value < |s| && s[r.value] == '"'
    ensures r.Ok? ==> forall i :: 0 <= i < r.value ==> !IsBreak(s[i]) && s[i] != '\\' && s[i] != '"'
  {
    if s == [] || IsBreak(s[0]) then Err(UnterminatedIdentifier)
    else if s[0] == '\\' then Err(EscapeInIdentifier)
    else if s[0] == '"' then Ok(0)
    else
      match PayloadLength(s[1..])
      case Ok(n) => Ok(n + 1)
      case Err(e) => Err(e)
  }

  /** The index of the quote that closes a literal whose contents begin here. */
  function ContentLength(s: string, quote: char, escaped: bool): (r: Result<nat>)
    ensures r.Ok? ==> r.value < |s| && s[r.value] == quote
  {
    if s == [] then Err(UnterminatedLiteral)
    else if !escaped && s[0] != '\\' && s[0] == quote then Ok(0)
    else
      match ContentLength(s[1..], quote, !escaped && s[0] == '\\')
      case Ok(n) => Ok(n + 1)
      case Err(e) => Err(e)
  }

  function BlankedAll(s: string): (r: string)
    ensures |r| == |s| && forall i :: 0 <= i < |s| ==> r[i] == Blanked(s[i])
  {
    if s == [] then [] else [Blanked(s[0])] + BlankedAll(s[1..])
  }

  function MaskedPayload(payload: string): (r: string)
    ensures |r| == |payload|
  {
    if IsIdentifier(payload) then payload else Filled(|payload|, 'x')
  }

  predicate StartsComment(s: string)
  {
    |s| >= 2 && ((s[0] == '\\' && s[1] == '\\') || (s[0] == '/' && s[1] == '/'))
  }

  predicate StartsIdentifier(s: string) { |s| >= 2 && s[0] == '@' && s[1] == '"' }

  /** The first token of a nonempty text, masked; its length is the number of characters read. */
  function Token(s: string): (r: Result<string>)
    requires s != []
    ensures r.Ok? ==> 0 < |r.value| <= |s|
  {
    if StartsComment(s) then Ok(Filled(2 + LineLength(s[2..]), ' '))
    else if s[0] == '\\' then Err(BackslashOutsideLiteral)
    else if |s| >= 2 && s[0] == '/' && s[1] == '*' then Err(BlockComment)
    else if StartsIdentifier(s) then
      match PayloadLength(s[2..])
      case Ok(n) => Ok(s[..2] + MaskedPayload(s[2..][..n]) + ['"'])
      case Err(e) => Err(e)
    else if IsQuote(s[0]) then
      match ContentLength(s[1..], s[0], false)
      case Ok(n) => Ok([s[0]] + BlankedAll(s[1..][..n]) + [s[0]])
      case Err(e) => Err(e)
    else Ok([s[0]])
  }

  function Prepend(done: string, rest: Result<string>): Result<string>
  {
    match rest
    case Ok(m) => Ok(done + m)
    case Err(e) => Err(e)
  }

  function Mask(s: string): Result<string>
    decreases |s|
  {
    if s == [] then Ok([])
    else
      match Token(s)
      case Ok(t) => Prepend(t, Mask(s[|t|..]))
      case Err(e) => Err(e)
  }

  lemma PrependTwice(a: string, b: string, rest: Result<string>)
    ensures Prepend(a, Prepend(b, rest)) == Prepend(a + b, rest)
  {
    if rest.Ok? {
      assert a + (b + rest.value) == (a + b) + rest.value;
    }
  }

  // ---------------------------------------------------------------- what the mask means

  datatype Mode = Code | Comment | Payload(first: bool) | Literal(quote: char, escaped: bool)

  datatype Kind = Kept | Hidden | Named

  /**
   A reading of the source one character at a time.  Delimiters and code are kept, comments
   and literal contents are hidden, quoted identifiers are named.
   */
  function KindAt(mode: Mode, s: string): (Kind, Mode)
    requires s != []
  {
    match mode
    case Code =>
      if StartsComment(s) then (Hidden, Comment)
      else if StartsIdentifier(s) then (Kept, Payload(true))
      else if IsQuote(s[0]) then (Kept, Literal(s[0], false))
      else (Kept, Code)
    case Comment => if IsBreak(s[0]) then (Kept, Code) else (Hidden, Comment)
    case Payload(first) =>
      if first then (Kept, Payload(false))
      else if s[0] == '"' then (Kept, Code)
      else (Named, mode)
    case Literal(quote, escaped) =>
      if !escaped && s[0] != '\\' && s[0] == quote then (Kept, Code)
      else (Hidden, Literal(quote, !escaped && s[0] == '\\'))
  }

  predicate Fits(kind: Kind, original: char, masked: char)
  {
    match kind
    case Kept => masked == original
    case Hidden => masked == Blanked(original)
    case Named => masked == 'x' || (IdentifierChar(masked) && masked == original)
  }

  /** The mask `m` does at every offset what the character-wise reading of `s` asks for. */
  predicate Reads(mode: Mode, s: string, m: string)
    decreases |s|
  {
    |m| == |s| &&
    (s != [] ==>
       var (kind, next) := KindAt(mode, s);
       Fits(kind, s[0], m[0]) && Reads(next, s[1..], m[1..]))
  }

  lemma {:induction false} CommentReads(s: string, m: string)
    requires |m| == |s|
    requires forall i :: 0 <= i < LineLength(s) ==> m[i] == ' '
    requires Reads(Code, s[LineLength(s)..], m[LineLength(s)..])
    ensures Reads(Comment, s, m)
    decreases |s|
  {
    if s == [] {
    } else if IsBreak(s[0]) {
      assert s[0..] == s && m[0..] == m;
    } else {
      var n := LineLength(s);
      assert s[1..][n - 1..] == s[n..] && m[1..][n - 1..] == m[n..];
      CommentReads(s[1..], m[1..]);
    }
  }

  lemma {:induction false} PayloadReads(s: string, m: string, n: nat)
    requires PayloadLength(s) == Ok(n) && |m| == |s|
    requires m[n] == '"' && forall i :: 0 <= i < n ==> Fits(Named, s[i], m[i])
    requires Reads(Code, s[n + 1..], m[n + 1..])
    ensures Reads(Payload(false), s, m)
    decreases |s|
  {
    if n > 0 {
      assert s[1..][n..] == s[n + 1..] && m[1..][n..] == m[n + 1..];
      PayloadReads(s[1..], m[1..], n - 1);
    }
  }

  lemma {:induction false} LiteralReads(s: string, m: string, quote: char, escaped: bool, n: nat)
    requires ContentLength(s, quote, escaped) == Ok(n) && |m| == |s|
    requires m[n] == quote && forall i :: 0 <= i < n ==> m[i] == Blanked(s[i])
    requires Reads(Code, s[n + 1..], m[n + 1..])
    ensures Reads(Literal(quote, escaped), s, m)
    decreases |s|
  {
    if n > 0 {
      assert s[1..][n..] == s[n + 1..] && m[1..][n..] == m[n + 1..];
      LiteralReads(s[1..], m[1..], quote, !escaped && s[0] == '\\', n - 1);
    }
  }

  lemma CommentTokenReads(s: string, t: string, m: string)
    requires StartsComment(s) && Token(s) == Ok(t)
    requires |m| == |s| && m[..|t|] == t && Reads(Code, s[|t|..], m[|t|..])
    ensures Reads(Code, s, m)
  {
    var n := LineLength(s[2..]);
    assert forall i :: 0 <= i < |t| ==> m[i] == m[..|t|][i] == t[i];
    assert s[2..][n..] == s[|t|..] && m[2..][n..] == m[|t|..];
    CommentReads(s[2..], m[2..]);
    assert s[1..][1..] == s[2..] && m[1..][1..] == m[2..];
    assert Reads(Comment, s[1..], m[1..]);
  }

  lemma IdentifierTokenReads(s: string, t: string, m: string)
    requires StartsIdentifier(s) && Token(s) == Ok(t)
    requires |m| == |s| && m[..|t|] == t && Reads(Code, s[|t|..], m[|t|..])
    ensures Reads(Code, s, m)
  {
    var n := PayloadLength(s[2..]).value;
    var payload := s[2..][..n];
    assert forall i :: 0 <= i < |t| ==> m[i] == m[..|t|][i] == t[i];
    assert s[2..][n + 1..] == s[|t|..] && m[2..][n + 1..] == m[|t|..];
    forall i | 0 <= i < n ensures Fits(Named, s[2..][i], m[2..][i]) {
      assert m[2..][i] == t[2 + i] == MaskedPayload(payload)[i];
      assert s[2..][i] == payload[i];
    }
    PayloadReads(s[2..], m[2..], n);
    assert s[1..][1..] == s[2..] && m[1..][1..] == m[2..];
    assert Reads(Payload(true), s[1..], m[1..]);
  }

  lemma LiteralTokenReads(s: string, t: string, m: string)
    requires s != [] && IsQuote(s[0]) && Token(s) == Ok(t)
    requires |m| == |s| && m[..|t|] == t && Reads(Code, s[|t|..], m[|t|..])
    ensures Reads(Code, s, m)
  {
    var rest, masked := s[1..], m[1..];
    var n := ContentLength(rest, s[0], false).value;
    LiteralTokenChars(s, t, m, n);
    assert rest[n + 1..] == s[|t|..] && masked[n + 1..] == m[|t|..];
    LiteralReads(rest, masked, s[0], false, n);
  }

  lemma LiteralTokenChars(s: string, t: string, m: string, n: nat)
    requires s != [] && n + 1 < |s| == |m| && t == [s[0]] + BlankedAll(s[1..][..n]) + [s[0]]
    requires m[..|t|] == t
    ensures m[0] == s[0] && m[1..][n] == s[0] && forall i :: 0 <= i < n ==> m[1..][i] == Blanked(s[1..][i])
  {
    assert forall i :: 0 <= i < |t| ==> m[i] == m[..|t|][i] == t[i];
    forall i | 0 <= i < n ensures m[1..][i] == Blanked(s[1..][i]) {
      assert m[1..][i] == t[1 + i] == BlankedAll(s[1..][..n])[i];
    }
    assert m[1..][n] == t[n + 1];
  }

  lemma TokenReads(s: string, t: string, m: string)
    requires s != [] && Token(s) == Ok(t)
    requires |m| == |s| && m[..|t|] == t
    requires Reads(Code, s[|t|..], m[|t|..])
    ensures Reads(Code, s, m)
  {
    if StartsComment(s) {
      CommentTokenReads(s, t, m);
    } else if StartsIdentifier(s) {
      IdentifierTokenReads(s, t, m);
    } else if IsQuote(s[0]) {
      LiteralTokenReads(s, t, m);
    } else {
      assert m[0] == m[..|t|][0];
    }
  }

  /**
   Whatever the masker accepts, the mask agrees at every offset with the character-wise
   reading: code and delimiters survive, comments and literal contents are blank, quoted
   identifiers keep their spelling or become a run of `x`.
   */
  lemma {:induction false} MaskMeaning(s: string)
    requires Mask(s).Ok?
    ensures Reads(Code, s, Mask(s).value)
    decreases |s|
  {
    if s != [] {
      var t := Token(s).value;
      var rest := Mask(s[|t|..]).value;
      MaskMeaning(s[|t|..]);
      assert (t + rest)[|t|..] == rest && (t + rest)[..|t|] == t;
      TokenReads(s, t, t + rest);
    }
  }

  /** The mask has the length of the source, and every line break is where it was, and no other. */
  lemma {:induction false} MaskKeepsOffsets(s: string)
    requires Mask(s).Ok?
    ensures |Mask(s).value| == |s|
    ensures forall i :: 0 <= i < |s| && (IsBreak(s[i]) || IsBreak(Mask(s).value[i])) ==> Mask(s).value[i] == s[i]
    decreases |s|
  {
    if s != [] {
      var t := Token(s).value;
      MaskKeepsOffsets(s[|t|..]);
      TokenKeepsBreaks(s, t);
    }
  }

  lemma PayloadKeepsBreaks(s: string, t: string)
    requires StartsIdentifier(s) && Token(s) == Ok(t)
    ensures forall i :: 0 <= i < |t| && (IsBreak(s[i]) || IsBreak(t[i])) ==> t[i] == s[i]
  {
    var n := PayloadLength(s[2..]).value;
    var payload := s[2..][..n];
    assert forall i :: 2 <= i < 2 + n ==> s[i] == s[2..][i - 2] && t[i] == MaskedPayload(payload)[i - 2];
    assert s[2 + n] == s[2..][n];
  }

  lemma TokenKeepsBreaks(s: string, t: string)
    requires s != [] && Token(s) == Ok(t)
    ensures forall i :: 0 <= i < |t| && (IsBreak(s[i]) || IsBreak(t[i])) ==> t[i] == s[i]
  {
    if StartsComment(s) {
      assert forall i :: 2 <= i < |t| ==> s[i] == s[2..][i - 2];
    } else if StartsIdentifier(s) {
      PayloadKeepsBreaks(s, t);
    } else if IsQuote(s[0]) {
      var n := ContentLength(s[1..], s[0], false).value;
      assert forall i :: 1 <= i < 1 + n ==> s[i] == s[1..][i - 1] && t[i] == BlankedAll(s[1..][..n])[i - 1];
      assert s[1 + n] == s[1..][n];
    }
  }

  // ---------------------------------------------------------------- idempotence

  /** How the first character of a mask relates to the first character of its source. */
  lemma MaskHead(s: string)
    requires Mask(s).Ok? && s != []
    ensures |Mask(s).value| == |s|
    ensures Mask(s).value[0] == (if StartsComment(s) then ' ' else s[0])
    ensures s[0] == '\\' ==> StartsComment(s)
  {
    MaskKeepsOffsets(s);
    var t := Token(s).value;
    assert Mask(s).value[0] == t[0];
  }

  lemma {:induction false} SpacesAreKept(n: nat, rest: string)
    ensures Mask(Filled(n, ' ') + rest) == Prepend(Filled(n, ' '), Mask(rest))
  {
    if n == 0 {
      assert Filled(0, ' ') + rest == rest;
      assert Mask(rest).Ok? ==> [] + Mask(rest).value == Mask(rest).value;
    } else {
      var s := Filled(n, ' ') + rest;
      assert s[1..] == Filled(n - 1, ' ') + rest;
      SpacesAreKept(n - 1, rest);
      assert Token(s) == Ok([' ']);
      PrependTwice([' '], Filled(n - 1, ' '), Mask(rest));
    }
  }

  lemma {:induction false} PayloadAgain(p: string, rest: string)
    requires forall i :: 0 <= i < |p| ==> !IsBreak(p[i]) && p[i] != '\\' && p[i] != '"'
    ensures PayloadLength(p + ['"'] + rest) == Ok(|p|)
  {
    if p != [] {
      assert (p + ['"'] + rest)[1..] == p[1..] + ['"'] + rest;
      PayloadAgain(p[1..], rest);
    }
  }

  lemma {:induction false} ContentAgain(p: string, quote: char, rest: string)
    requires IsQuote(quote)
    requires forall i :: 0 <= i < |p| ==> p[i] != '\\' && p[i] != quote
    ensures ContentLength(p + [quote] + rest, quote, false) == Ok(|p|)
  {
    if p != [] {
      assert (p + [quote] + rest)[1..] == p[1..] + [quote] + rest;
      ContentAgain(p[1..], quote, rest);
    }
  }

  lemma FilledIsIdentifier(n: nat)
    requires n > 0
    ensures IsIdentifier(Filled(n, 'x'))
  {
  }

  lemma BlankedAgain(p: string)
    ensures BlankedAll(BlankedAll(p)) == BlankedAll(p)
  {
  }

  lemma MaskedPayloadAgain(p: string)
    ensures MaskedPayload(MaskedPayload(p)) == MaskedPayload(p)
  {
    if |p| > 0 {
      FilledIsIdentifier(|p|);
    }
  }

  lemma IdentifierAgain(s: string, n: nat, m: string)
    requires StartsIdentifier(s) && PayloadLength(s[2..]) == Ok(n)
    ensures Token(Token(s).value + m) == Token(s)
  {
    var t := Token(s).value;
    var p := MaskedPayload(s[2..][..n]);
    var r := t + m;
    assert r[2..] == p + ['"'] + m;
    PayloadAgain(p, m);
    assert r[2..][..n] == p;
    MaskedPayloadAgain(s[2..][..n]);
    assert r[..2] == s[..2];
  }

  lemma LiteralAgain(s: string, n: nat, m: string)
    requires s != [] && IsQuote(s[0]) && ContentLength(s[1..], s[0], false) == Ok(n)
    ensures Token(Token(s).value + m) == Token(s)
  {
    var t := Token(s).value;
    var p := BlankedAll(s[1..][..n]);
    var r := t + m;
    assert r[1..] == p + [s[0]] + m;
    ContentAgain(p, s[0], m);
    assert r[1..][..n] == p;
    BlankedAgain(s[1..][..n]);
  }

  lemma CharacterAgain(s: string, m: string)
    requires s != [] && Token(s) == Ok([s[0]]) && Mask(s[1..]) == Ok(m)
    ensures Token([s[0]] + m) == Ok([s[0]])
  {
    if |s| > 1 {
      MaskHead(s[1..]);
      assert s[1..][0] == s[1];
    } else {
      assert m == [];
    }
  }

  /** A masked token that is not a comment reads back as itself, before any accepted mask. */
  lemma TokenAgain(s: string, t: string, m: string)
    requires s != [] && Token(s) == Ok(t) && !StartsComment(s)
    requires Mask(s[|t|..]) == Ok(m)
    ensures Token(t + m) == Ok(t)
  {
    if StartsIdentifier(s) {
      IdentifierAgain(s, PayloadLength(s[2..]).value, m);
    } else if IsQuote(s[0]) {
      LiteralAgain(s, ContentLength(s[1..], s[0], false).value, m);
    } else {
      CharacterAgain(s, m);
    }
  }

  /** Masking an accepted mask again is accepted and changes nothing. */
  lemma {:induction false} MaskIsIdempotent(s: string)
    requires Mask(s).Ok?
    ensures Mask(Mask(s).value) == Mask(s)
    decreases |s|
  {
    if s != [] {
      var t := Token(s).value;
      var m := Mask(s[|t|..]).value;
      MaskIsIdempotent(s[|t|..]);
      if StartsComment(s) {
        SpacesAreKept(|t|, m);
      } else {
        TokenAgain(s, t, m);
        assert (t + m)[|t|..] == m;
      }
    }
  }

  /** A quoted name is spelled out in the mask exactly when it could have stood without quotes. */
  lemma QuotedNames(name: string, rest: string)
    requires forall i :: 0 <= i < |name| ==> !IsBreak(name[i]) && name[i] != '\\' && name[i] != '"'
    ensures Mask(['@', '"'] + name + ['"'] + rest) ==
            Prepend(['@', '"'] + (if IsIdentifier(name) then name else Filled(|name|, 'x')) + ['"'], Mask(rest))
  {
    var s := ['@', '"'] + name + ['"'] + rest;
    assert s[2..] == name + ['"'] + rest;
    PayloadAgain(name, rest);
    assert s[2..][..|name|] == name && s[..2] == ['@', '"'];
    assert s[|name| + 3..] == rest;
  }

  // ---------------------------------------------------------------- the loop

  /** The text is masked up to `index` and untouched from there on. */
  ghost predicate Progress(text: string, masked: string, index: nat)
  {
    && index <= |text| == |masked|
    && masked[index..] == text[index..]
    && Mask(text) == Prepend(masked[..index], Mask(text[index..]))
  }

  /** One token was masked where it stands; on success `r` is the index after it. */
  ghost predicate Advanced(text: string, before: string, after: string, start: nat, r: Result<nat>)
  {
    && start < |text| == |before| == |after|
    && match r
       case Ok(end) =>
         && start < end <= |text|
         && Token(text[start..]) == Ok(after[start..end])
         && after[..start] == before[..start] && after[end..] == text[end..]
       case Err(e) => Token(text[start..]) == Err(e)
  }

  lemma AdvancedProgress(text: string, before: string, after: string, start: nat, r: Result<nat>)
    requires Progress(text, before, start) && Advanced(text, before, after, start, r)
    ensures r.Ok? ==> Progress(text, after, r.value)
    ensures r.Err? ==> Mask(text) == Err(r.error)
  {
    if r.Ok? {
      var end := r.value;
      assert text[start..][end - start..] == text[end..];
      PrependTwice(before[..start], after[start..end], Mask(text[end..]));
      assert after[..end] == before[..start] + after[start..end];
    }
  }

  /** The same place, measured from `offset` characters earlier. */
  function Further(r: Result<nat>, offset: nat): Result<nat>
  {
    match r
    case Ok(n) => Ok(n + offset)
    case Err(e) => Err(e)
  }

  method MaskComment(text: string, masked: array<char>, start: nat) returns (end: nat)
    requires start < |text| == masked.Length && masked[start..] == text[start..]
    requires StartsComment(text[start..])
    modifies masked
    ensures Advanced(text, old(masked[..]), masked[..], start, Ok(end))
  {
    masked[start], masked[start + 1] := ' ', ' ';
    end := start + 2;
    while end < |text| && !IsBreak(text[end])
      invariant start + 2 <= end <= |text|
      invariant end + LineLength(text[end..]) == start + 2 + LineLength(text[start + 2..])
      invariant masked[..start] == old(masked[..start])
      invariant forall i :: start <= i < end ==> masked[i] == ' '
      invariant forall i :: end <= i < |text| ==> masked[i] == text[i]
    {
      assert text[end..][1..] == text[end + 1..];
      masked[end] := ' ';
      end := end + 1;
    }
    assert text[start..][2..] == text[start + 2..];
    assert masked[..][start..end] == Filled(end - start, ' ');
  }

  /** Inside a quoted identifier: its payload so far is a run of `x`. */
  ghost predicate InIdentifier(text: string, before: string, masked: string, start: nat, index: nat)
  {
    && start + 2 <= index <= |text| == |before| == |masked|
    && PayloadLength(text[start + 2..]) == Further(PayloadLength(text[index..]), index - (start + 2))
    && masked == before[..start + 2] + Filled(index - (start + 2), 'x') + text[index..]
  }

  lemma IdentifierStep(text: string, before: string, masked: string, start: nat, index: nat)
    requires InIdentifier(text, before, masked, start, index) && index < |text|
    requires !IsBreak(text[index]) && text[index] != '\\' && text[index] != '"'
    ensures InIdentifier(text, before, masked[index := 'x'], start, index + 1)
  {
    assert text[index..][1..] == text[index + 1..];
    assert Filled(index + 1 - (start + 2), 'x') == Filled(index - (start + 2), 'x') + ['x'];
  }

  lemma IdentifierSpliced(text: string, before: string, masked: string, start: nat, index: nat, payload: string, after: string)
    requires InIdentifier(text, before, masked, start, index)
    requires payload == text[start + 2..index]
    requires after == if IsIdentifier(payload) then masked[..start + 2] + payload + masked[index..] else masked
    ensures after == before[..start + 2] + MaskedPayload(payload) + text[index..]
  {
    assert masked[..start + 2] == before[..start + 2] && masked[index..] == text[index..];
  }

  lemma IdentifierToken(text: string, start: nat, index: nat)
    requires start + 2 <= index < |text| && StartsIdentifier(text[start..])
    requires PayloadLength(text[start + 2..]) == Ok(index - (start + 2))
    ensures Token(text[start..]) == Ok(text[start..start + 2] + MaskedPayload(text[start + 2..index]) + ['"'])
  {
    var s, n := text[start..], index - (start + 2);
    assert s[2..] == text[start + 2..] && s[2..][..n] == text[start + 2..index] && s[..2] == text[start..start + 2];
  }

  lemma IdentifierDone(text: string, before: string, masked: string, start: nat, index: nat, payload: string, after: string)
    requires InIdentifier(text, before, masked, start, index) && index < |text| && text[index] == '"'
    requires before[start..] == text[start..] && StartsIdentifier(text[start..])
    requires payload == text[start + 2..index]
    requires after == if IsIdentifier(payload) then masked[..start + 2] + payload + masked[index..] else masked
    ensures Advanced(text, before, after, start, Ok(index + 1))
  {
    IdentifierSpliced(text, before, masked, start, index, payload, after);
    IdentifierToken(text, start, index);
    SplicedToken(text, before, start, index, MaskedPayload(payload));
  }

  lemma SplicedToken(text: string, before: string, start: nat, index: nat, payload: string)
    requires start + 2 <= index < |text| == |before| && |payload| == index - (start + 2)
    requires before[start..] == text[start..] && text[index] == '"'
    ensures var after := before[..start + 2] + payload + text[index..];
            && after[start..index + 1] == text[start..start + 2] + payload + ['"']
            && after[..start] == before[..start] && after[index + 1..] == text[index + 1..]
  {
    assert before[start..start + 2] == before[start..][..2] == text[start..start + 2];
  }

  lemma IdentifierFails(text: string, before: string, masked: string, start: nat, index: nat)
    requires InIdentifier(text, before, masked, start, index) && StartsIdentifier(text[start..])
    requires PayloadLength(text[index..]).Err?
    ensures Advanced(text, before, masked, start, Err(PayloadLength(text[index..]).error))
  {
    assert text[start..][2..] == text[start + 2..];
  }

  method MaskIdentifier(text: string, masked: array<char>, start: nat) returns (r: Result<nat>)
    requires start < |text| == masked.Length && masked[start..] == text[start..]
    requires StartsIdentifier(text[start..])
    modifies masked
    ensures Advanced(text, old(masked[..]), masked[..], start, r)
  {
    var first := start + 2;
    var index := first;
    ghost var before := masked[..];
    assert masked[..] == before[..first] + Filled(0, 'x') + before[start..][2..];
    while index < |text|
      invariant InIdentifier(text, before, masked[..], start, index)
    {
      var character := text[index];
      if IsBreak(character) {
        IdentifierFails(text, before, masked[..], start, index);
        return Err(UnterminatedIdentifier);
      }
      if character == '\\' {
        IdentifierFails(text, before, masked[..], start, index);
        return Err(EscapeInIdentifier);
      }
      if character == '"' {
        var payload := text[first..index];
        ghost var earlier := masked[..];
        if IsIdentifier(payload) {
          WriteBack(masked, first, payload);
        }
        IdentifierDone(text, before, earlier, start, index, payload, masked[..]);
        return Ok(index + 1);
      }
      IdentifierStep(text, before, masked[..], start, index);
      masked[index] := 'x';
      index := index + 1;
    }
    IdentifierFails(text, before, masked[..], start, index);
    return Err(UnterminatedIdentifier);
  }

  method WriteBack(masked: array<char>, start: nat, payload: string)
    requires start + |payload| <= masked.Length
    modifies masked
    ensures masked[..] == old(masked[..])[..start] + payload + old(masked[..])[start + |payload|..]
  {
    forall i | start <= i < start + |payload| {
      masked[i] := payload[i - start];
    }
  }

  /** Inside a literal: its contents so far are blank. */
  ghost predicate InLiteral(text: string, before: string, masked: string, start: nat, index: nat, escaped: bool)
  {
    && start < index <= |text| == |before| == |masked|
    && ContentLength(text[start + 1..], text[start], false) ==
       Further(ContentLength(text[index..], text[start], escaped), index - (start + 1))
    && masked == before[..start + 1] + BlankedAll(text[start + 1..index]) + text[index..]
  }

  lemma BlankedGrows(text: string, start: nat, index: nat)
    requires start <= index < |text|
    ensures BlankedAll(text[start..index + 1]) == BlankedAll(text[start..index]) + [Blanked(text[index])]
  {
    assert text[start..index + 1] == text[start..index] + [text[index]];
  }

  lemma ContentStep(text: string, index: nat, quote: char, escaped: bool)
    requires index < |text| && (escaped || text[index] != quote)
    ensures ContentLength(text[index..], quote, escaped) ==
            Further(ContentLength(text[index + 1..], quote, !escaped && text[index] == '\\'), 1)
  {
    assert text[index..][1..] == text[index + 1..];
  }

  lemma BlankStep(text: string, before: string, masked: string, start: nat, index: nat)
    requires start < index < |text| == |before| == |masked|
    requires masked == before[..start + 1] + BlankedAll(text[start + 1..index]) + text[index..]
    ensures masked[index := Blanked(text[index])] == before[..start + 1] + BlankedAll(text[start + 1..index + 1]) + text[index + 1..]
  {
    BlankedGrows(text, start + 1, index);
  }

  lemma LiteralStep(text: string, before: string, masked: string, start: nat, index: nat, escaped: bool)
    requires InLiteral(text, before, masked, start, index, escaped) && index < |text| && IsQuote(text[start])
    requires escaped || text[index] != text[start]
    ensures InLiteral(text, before, masked[index := Blanked(text[index])], start, index + 1, !escaped && text[index] == '\\')
  {
    ContentStep(text, index, text[start], escaped);
    BlankStep(text, before, masked, start, index);
  }

  lemma LiteralDone(text: string, before: string, masked: string, start: nat, index: nat)
    requires InLiteral(text, before, masked, start, index, false) && index < |text| && IsQuote(text[start])
    requires before[start..] == text[start..] && text[index] == text[start]
    ensures Advanced(text, before, masked, start, Ok(index + 1))
  {
    var s, n := text[start..], index - (start + 1);
    assert s[1..] == text[start + 1..] && s[1..][..n] == text[start + 1..index];
    assert before[start] == before[start..][0] == text[start..][0];
    assert masked[start..index + 1] == [s[0]] + BlankedAll(text[start + 1..index]) + [s[0]];
  }

  method MaskLiteral(text: string, masked: array<char>, start: nat) returns (r: Result<nat>)
    requires start < |text| == masked.Length && masked[start..] == text[start..]
    requires IsQuote(text[start])
    modifies masked
    ensures Advanced(text, old(masked[..]), masked[..], start, r)
  {
    var quote := text[start];
    var index, escaped := start + 1, false;
    ghost var before := masked[..];
    assert masked[..] == before[..index] + BlankedAll([]) + before[start..][1..];
    while index < |text|
      invariant InLiteral(text, before, masked[..], start, index, escaped)
    {
      var character := text[index];
      ghost var earlier := masked[..];
      if !IsBreak(character) {
        masked[index] := ' ';
      }
      assert masked[..] == earlier[index := Blanked(character)];
      if escaped {
        LiteralStep(text, before, earlier, start, index, escaped);
        escaped := false;
      } else if character == '\\' {
        LiteralStep(text, before, earlier, start, index, escaped);
        escaped := true;
      } else if character == quote {
        masked[index] := quote;
        assert masked[..] == earlier[index := quote] == earlier;
        LiteralDone(text, before, earlier, start, index);
        return Ok(index + 1);
      } else {
        LiteralStep(text, before, earlier, start, index, escaped);
      }
      index := index + 1;
    }
    assert text[start..][1..] == text[start + 1..];
    return Err(UnterminatedLiteral);
  }

  method MaskToken(text: string, masked: array<char>, index: nat) returns (r: Result<nat>)
    requires index < |text| == masked.Length && masked[index..] == text[index..]
    modifies masked
    ensures Advanced(text, old(masked[..]), masked[..], index, r)
  {
    var following := if index + 1 < |text| then text[index + 1..index + 2] else [];
    if text[index] == '\\' {
      if following != ['\\'] {
        return Err(BackslashOutsideLiteral);
      }
      var end := MaskComment(text, masked, index);
      return Ok(end);
    }
    if text[index] == '/' && following == ['/'] {
      var end := MaskComment(text, masked, index);
      return Ok(end);
    }
    if text[index] == '/' && following == ['*'] {
      return Err(BlockComment);
    }
    if text[index] == '@' && following == ['"'] {
      r := MaskIdentifier(text, masked, index);
      return;
    }
    if IsQuote(text[index]) {
      r := MaskLiteral(text, masked, index);
      return;
    }
    assert masked[..][index..index + 1] == [masked[index..][0]] == [text[index]];
    assert masked[..][index + 1..] == masked[index..][1..] == text[index + 1..];
    return Ok(index + 1);
  }

  /** The masker's loop over a list of characters edited in place. */
  method SourceMask(text: string) returns (r: Result<string>)
    ensures r == Mask(text)
  {
    var masked := new char[|text|](i requires 0 <= i < |text| => text[i]);
    var index := 0;
    assert text[0..] == text && masked[..] == text;
    assert Mask(text).Ok? ==> [] + Mask(text).value == Mask(text).value;
    while index < |text|
      invariant masked.Length == |text| && fresh(masked)
      invariant Progress(text, masked[..], index)
    {
      ghost var before := masked[..];
      assert masked[index..] == before[index..];
      var end := MaskToken(text, masked, index);
      AdvancedProgress(text, before, masked[..], index, end);
      if end.Err? {
        return Err(end.error);
      }
      index := end.value;
    }
    assert text[index..] == [] && masked[..][..index] == masked[..];
    assert masked[..] + [] == masked[..];
    return Ok(masked[..]);
  }
}
