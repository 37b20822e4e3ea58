/** The JSON string encoder, against a decoder written from section 7 of RFC 8259. */
module JsonText {
  import opened Shared
  import opened Output

  // ---------------------------------------------------------------- the encoder

  /** Control, bidirectional and separator characters that never appear raw. */
  predicate Forbidden(c: char)
  {
    var code := c as int;
    || code <= 0x1f || 0x7f <= code <= 0x9f || code == 0x061c || 0x200e <= code <= 0x200f
    || 0x2028 <= code <= 0x202e || 0x2066 <= code <= 0x2069
  }

  function Hex(n: nat): (c: char)
    requires n < 16
    ensures HexValue(c) == Some(n) && c as int < 0x80 && !Forbidden(c)
  {
    if n < 10 then ('0' as int + n) as char else ('a' as int + (n - 10)) as char
  }

  function HexValue(c: char): (r: Option<nat>)
    ensures r.Some? ==> r.value < 16
  {
    var code := c as int;
    if '0' <= c <= '9' then Some(code - '0' as int)
    else if 'a' <= c <= 'f' then Some(code - 'a' as int + 10)
    else if 'A' <= c <= 'F' then Some(code - 'A' as int + 10)
    else None
  }

  function Hex4(n: nat): string
    requires n < 0x10000
  {
    [Hex(n / 4096), Hex(n / 256 % 16), Hex(n / 16 % 16), Hex(n % 16)]
  }

  function EncodedChar(c: char): string
  {
    if c == '"' then ['\\', '"']
    else if c == '\\' then ['\\', '\\']
    else if c as int == 0x08 then ['\\', 'b']
    else if c as int == 0x0c then ['\\', 'f']
    else if c == '\n' then ['\\', 'n']
    else if c == '\r' then ['\\', 'r']
    else if c == '\t' then ['\\', 't']
    else if Forbidden(c) then ['\\', 'u'] + Hex4(c as int)
    else [c]
  }

  function Pieces(value: string): (r: seq<string>)
    ensures |r| == |value| && forall i :: 0 <= i < |value| ==> r[i] == EncodedChar(value[i])
  {
    seq(|value|, i requires 0 <= i < |value| => EncodedChar(value[i]))
  }

  function Content(value: string): string { Concat(Pieces(value)) }

  lemma ContentHead(value: string)
    requires value != []
    ensures Content(value) == EncodedChar(value[0]) + Content(value[1..])
  {
    assert Pieces(value)[1..] == Pieces(value[1..]);
  }

  function JsonString(value: string): string { ['"'] + Content(value) + ['"'] }

  /** The writes for one character; the formatter emits an escape in parts. */
  function Units(c: char): seq<string>
  {
    if |EncodedChar(c)| == 6 then
      [EncodedChar(c)[..2], EncodedChar(c)[2..3], EncodedChar(c)[3..4], EncodedChar(c)[4..5], EncodedChar(c)[5..]]
    else [EncodedChar(c)]
  }

  lemma UnitsSpell(c: char)
    ensures Concat(Units(c)) == EncodedChar(c)
  {
    var e, u := EncodedChar(c), Units(c);
    if |e| == 6 {
      assert u[1..] == [e[2..3], e[3..4], e[4..5], e[5..]] && u[1..][1..] == [e[3..4], e[4..5], e[5..]];
      assert u[1..][1..][1..] == [e[4..5], e[5..]] && u[1..][1..][1..][1..] == [e[5..]] && [e[5..]][1..] == [];
      assert Concat([e[5..]]) == e[5..];
      assert Concat([e[4..5], e[5..]]) == e[4..];
      assert Concat([e[3..4], e[4..5], e[5..]]) == e[3..];
      assert Concat([e[2..3], e[3..4], e[4..5], e[5..]]) == e[2..];
    } else {
      assert u[1..] == [];
    }
  }

  method WriteEncodedChar(output: BoundedOutput, c: char) returns (ok: bool)
    requires output.Valid()
    modifies output
    ensures output.Valid()
    ensures ok <==> Bytes(old(output.value)) + Bytes(EncodedChar(c)) <= output.maxBytes
    ensures ok ==> output.value == old(output.value) + EncodedChar(c)
    ensures old(output.value) <= output.value <= old(output.value) + EncodedChar(c)
  {
    UnitsSpell(c);
    ok := output.WriteAll(Units(c));
  }

  /**
   The character loop over a sink: it succeeds exactly when the encoded text fits, and stages
   nothing but a prefix of it otherwise, which may end inside an escape.
   */
  method WriteJsonStringContent(output: BoundedOutput, value: string) returns (ok: bool)
    requires output.Valid()
    modifies output
    ensures output.Valid()
    ensures ok <==> Bytes(old(output.value)) + Bytes(Content(value)) <= output.maxBytes
    ensures ok ==> output.value == old(output.value) + Content(value)
    ensures old(output.value) <= output.value <= old(output.value) + Content(value)
  {
    ghost var pieces, before := Pieces(value), output.value;
    for i := 0 to |value|
      invariant output.Valid()
      invariant output.value == before + Concat(pieces[..i])
    {
      PieceIsNext(before, pieces, i, EncodedChar(value[i]));
      ConcatGrows(pieces, i + 1);
      ok := WriteEncodedChar(output, value[i]);
      if !ok {
        return false;
      }
    }
    assert pieces[..|value|] == pieces;
    BytesOfConcatenation(before, Content(value));
    return true;
  }

  lemma QuotedBytes(before: string, content: string)
    ensures Bytes(['"'] + content + ['"']) == Bytes(content) + 2
    ensures Bytes(before + ['"']) == Bytes(before) + 1
    ensures Bytes(before + ['"'] + content) == Bytes(before) + 1 + Bytes(content)
    ensures before + ['"'] + content + ['"'] == before + (['"'] + content + ['"'])
  {
    BytesOfConcatenation(['"'] + content, ['"']);
    BytesOfConcatenation(['"'], content);
    BytesOfConcatenation(before, ['"']);
    BytesOfConcatenation(before + ['"'], content);
  }

  method WriteJsonString(output: BoundedOutput, value: string) returns (ok: bool)
    requires output.Valid()
    modifies output
    ensures output.Valid() && old(output.value) <= output.value
    ensures ok <==> Bytes(old(output.value)) + Bytes(JsonString(value)) <= output.maxBytes
    ensures ok ==> output.value == old(output.value) + JsonString(value)
  {
    ghost var content := Content(value);
    QuotedBytes(output.value, content);
    ok := output.WriteStr(['"']);
    if ok {
      ok := WriteJsonStringContent(output, value);
      if ok {
        ok := output.WriteStr(['"']);
      }
    }
  }

  // ---------------------------------------------------------------- the decoder

  function Hex4Value(s: string): (r: Option<nat>)
    ensures r.Some? ==> r.value < 0x10000
  {
    if |s| < 4 then None
    else
      var (a, b, c, d) := (HexValue(s[0]), HexValue(s[1]), HexValue(s[2]), HexValue(s[3]));
      if a.Some? && b.Some? && c.Some? && d.Some? then
        Some(((a.value * 16 + b.value) * 16 + c.value) * 16 + d.value)
      else None
  }

  /** What one escape stands for after its backslash, and how many characters it takes. */
  function Escape(s: string): (r: Option<(char, nat)>)
    ensures r.Some? ==> 0 < r.value.1 <= |s|
  {
    if s == [] then None
    else if s[0] == '"' || s[0] == '\\' || s[0] == '/' then Some((s[0], 1))
    else if s[0] == 'b' then Some((0x08 as char, 1))
    else if s[0] == 'f' then Some((0x0c as char, 1))
    else if s[0] == 'n' then Some(('\n', 1))
    else if s[0] == 'r' then Some(('\r', 1))
    else if s[0] == 't' then Some(('\t', 1))
    else if s[0] == 'u' then
      match Hex4Value(s[1..])
      case None => None
      case Some(unit) =>
        if 0xd800 <= unit < 0xdc00 then
          if |s| >= 11 && s[5] == '\\' && s[6] == 'u' then
            match Hex4Value(s[7..])
            case None => None
            case Some(low) =>
              if 0xdc00 <= low < 0xe000 then
                Some(((0x10000 + (unit - 0xd800) * 0x400 + (low - 0xdc00)) as char, 11))
              else None
          else None
        else if 0xdc00 <= unit < 0xe000 then None
        else Some((unit as char, 5))
    else None
  }

  /** The rest of a string token, up to and with its closing quotation mark. */
  function DecodeRest(s: string): Option<string>
    decreases |s|
  {
    if s == [] || s[0] as int < 0x20 then None
    else if s[0] == '"' then (if |s| == 1 then Some([]) else None)
    else if s[0] == '\\' then
      match Escape(s[1..])
      case None => None
      case Some((c, n)) => Cons(c, DecodeRest(s[1 + n..]))
    else Cons(s[0], DecodeRest(s[1..]))
  }

  function Cons(c: char, rest: Option<string>): Option<string>
  {
    match rest
    case None => None
    case Some(text) => Some([c] + text)
  }

  function Decode(s: string): Option<string>
  {
    if s == [] || s[0] != '"' then None else DecodeRest(s[1..])
  }

  // ---------------------------------------------------------------- inverse, alphabet, size

  lemma HexRoundTrip(digit: nat)
    requires digit < 16
    ensures HexValue(Hex(digit)) == Some(digit)
  {
  }

  lemma HexDigits(n: nat)
    requires n < 0x10000
    ensures n == ((n / 4096 * 16 + n / 256 % 16) * 16 + n / 16 % 16) * 16 + n % 16
  {
    assert n / 16 == (n / 256) * 16 + n / 16 % 16;
    assert n / 256 == (n / 4096) * 16 + n / 256 % 16;
  }

  lemma Hex4RoundTrip(n: nat, rest: string)
    requires n < 0x10000
    ensures Hex4Value(Hex4(n) + rest) == Some(n)
  {
    var (a, b, c, d) := (n / 4096, n / 256 % 16, n / 16 % 16, n % 16);
    HexDigits(n);
    HexRoundTrip(a);
    HexRoundTrip(b);
    HexRoundTrip(c);
    HexRoundTrip(d);
    var s := Hex4(n) + rest;
    assert s[0] == Hex(a) && s[1] == Hex(b) && s[2] == Hex(c) && s[3] == Hex(d);
  }

  lemma CharRoundTrip(c: char, rest: string)
    ensures DecodeRest(EncodedChar(c) + rest) == Cons(c, DecodeRest(rest))
  {
    var s := EncodedChar(c) + rest;
    if EncodedChar(c) == [c] {
      assert s[1..] == rest;
    } else if |EncodedChar(c)| == 2 {
      assert s[1..][0] == EncodedChar(c)[1];
      assert s[2..] == rest;
      assert Escape(s[1..]) == Some((c, 1));
    } else {
      assert s[1..][0] == 'u' && s[1..][1..] == Hex4(c as int) + rest;
      Hex4RoundTrip(c as int, rest);
      assert Escape(s[1..]) == Some((c, 5));
      assert s[6..] == rest;
    }
  }

  lemma {:induction false} ContentRoundTrip(value: string)
    ensures DecodeRest(Content(value) + ['"']) == Some(value)
  {
    if value != [] {
      ContentHead(value);
      var rest := Content(value[1..]) + ['"'];
      assert Content(value) + ['"'] == EncodedChar(value[0]) + rest;
      CharRoundTrip(value[0], rest);
      ContentRoundTrip(value[1..]);
      assert value == [value[0]] + value[1..];
    } else {
      assert Content([]) + ['"'] == ['"'];
    }
  }

  /** Decoding the encoded text gives back exactly the value. */
  lemma JsonStringRoundTrip(value: string)
    ensures Decode(JsonString(value)) == Some(value)
  {
    assert JsonString(value)[1..] == Content(value) + ['"'];
    ContentRoundTrip(value);
  }

  lemma EncodedCharIsSafe(c: char)
    ensures forall i :: 0 <= i < |EncodedChar(c)| ==> !Forbidden(EncodedChar(c)[i])
    ensures Bytes(EncodedChar(c)) <= 6 * CharBytes(c)
  {
    if EncodedChar(c) == [c] {
      assert [c][1..] == [];
    } else {
      assert forall i :: 0 <= i < |EncodedChar(c)| ==> EncodedChar(c)[i] as int < 0x80;
      BytesOfAscii(EncodedChar(c));
    }
  }

  /** No control, bidirectional or separator character is ever emitted. */
  lemma {:induction false} ContentIsSafe(value: string)
    ensures forall c :: c in Content(value) ==> !Forbidden(c)
  {
    if value != [] {
      EncodedCharIsSafe(value[0]);
      ContentHead(value);
      ContentIsSafe(value[1..]);
    }
  }

  /** The encoded text takes at most six bytes for each byte of the value. */
  lemma {:induction false} ContentBytes(value: string)
    ensures Bytes(Content(value)) <= 6 * Bytes(value)
  {
    if value != [] {
      EncodedCharIsSafe(value[0]);
      ContentHead(value);
      ContentBytes(value[1..]);
      BytesOfConcatenation(EncodedChar(value[0]), Content(value[1..]));
    }
  }

  lemma JsonStringBytes(value: string)
    ensures Bytes(JsonString(value)) == Bytes(Content(value)) + 2 <= 6 * Bytes(value) + 2
  {
    ContentBytes(value);
    QuotedBytes([], Content(value));
  }

  /** Text without quotation marks, backslashes or forbidden characters is emitted as it is. */
  lemma {:induction false} PlainContent(value: string)
    requires forall i :: 0 <= i < |value| ==> !Forbidden(value[i]) && value[i] != '"' && value[i] != '\\'
    ensures Content(value) == value
  {
    if value != [] {
      ContentHead(value);
      PlainContent(value[1..]);
    }
  }
}
