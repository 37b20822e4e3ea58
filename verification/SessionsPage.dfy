/**
 The session listing: which snapshots are accepted, and that every accepted one renders in both
 formats within the output limit.
 */
module SessionsPage {
  import opened Shared
  import opened Output
  import opened SessionIds
  import opened TextOrder
  import JsonText
  import Timestamp

  type I64 = x: int | -0x8000_0000_0000_0000 <= x < 0x8000_0000_0000_0000

  type Usize = x: int | 0 <= x < 0x1_0000_0000_0000_0000

  const MAX_OUTPUT_BYTES: nat := 100 * (6 * (128 + 240 + 240 + 8192 + 24) + 16384 + 512) + 4096

  datatype Row = Row(
    id: string, title: Option<string>, preview: Option<string>,
    workspace: Option<string>, workspaceHex: Option<string>,
    origin: Option<string>, originHex: Option<string>,
    created: Option<I64>, updated: Option<I64>, historyLength: Usize, language: Option<string>)

  datatype Cursor = Cursor(updated: Option<I64>, id: string)

  datatype Snapshot = Snapshot(entries: seq<Row>, incomplete: bool, nextCursor: Option<Cursor>, skippedInvalid: Usize)

  datatype Options = Options(json: bool, all: bool, limit: Usize)

  // ---------------------------------------------------------------- validation

  predicate HexChar(c: char) { '0' <= c <= '9' || 'a' <= c <= 'f' }

  predicate Within(text: Option<string>, limit: nat) { text.Some? ==> Bytes(text.value) <= limit }

  predicate ValidWorkspace(text: Option<string>, hex: Option<string>)
  {
    && Within(text, 4096)
    && (hex.Some? ==>
          && text.None? && Bytes(hex.value) <= 8192 && Bytes(hex.value) % 2 == 0
          && forall i :: 0 <= i < |hex.value| ==> HexChar(hex.value[i]))
  }

  predicate ValidRow(row: Row)
  {
    && ValidId(row.id) && Within(row.title, 240) && Within(row.preview, 240)
    && ValidWorkspace(row.workspace, row.workspaceHex) && ValidWorkspace(row.origin, row.originHex)
    && Within(row.language, 24)
  }

  predicate TimeBefore(a: Option<I64>, b: Option<I64>)
  {
    b.Some? && (a.None? || a.value < b.value)
  }

  /** `a` sorts strictly after `b` by time of update and then by identifier. */
  predicate After(a: Row, b: Row)
  {
    TimeBefore(b.updated, a.updated) || (a.updated == b.updated && Less(b.id, a.id))
  }

  lemma AfterIsTransitive(a: Row, b: Row, c: Row)
    requires After(a, b) && After(b, c)
    ensures After(a, c)
  {
    if a.updated == b.updated == c.updated {
      LessIsTransitive(c.id, b.id, a.id);
    }
  }

  /** The first `n` rows are within their limits and strictly descending, each against all later ones. */
  ghost predicate Listed(rows: seq<Row>, n: nat)
    requires n <= |rows|
  {
    && (forall i :: 0 <= i < n ==> ValidRow(rows[i]))
    && (forall i, j :: 0 <= i < j < n ==> After(rows[i], rows[j]))
  }

  /** Comparing a row with the one before it is enough. */
  lemma ListedGrows(rows: seq<Row>, n: nat)
    requires n < |rows| && Listed(rows, n)
    ensures Listed(rows, n + 1) <==> ValidRow(rows[n]) && (n > 0 ==> After(rows[n - 1], rows[n]))
  {
    if n > 0 && After(rows[n - 1], rows[n]) {
      forall j | 0 <= j < n - 1 ensures After(rows[j], rows[n]) {
        AfterIsTransitive(rows[j], rows[n - 1], rows[n]);
      }
    }
  }

  /** Newest first without repetition, every row within its limits, and a cursor that names the last row. */
  ghost predicate ValidPage(snapshot: Snapshot, options: Options)
  {
    var entries := snapshot.entries;
    && |entries| <= options.limit && 1 <= options.limit <= 100
    && !(snapshot.incomplete && snapshot.nextCursor.Some?)
    && Listed(entries, |entries|)
    && (snapshot.nextCursor.Some? ==>
          && entries != []
          && snapshot.nextCursor.value == Cursor(entries[|entries| - 1].updated, entries[|entries| - 1].id))
  }

  /** Comparing neighbours only is enough to reject exactly the invalid pages. */
  method Validate(snapshot: Snapshot, options: Options) returns (ok: bool)
    ensures ok <==> ValidPage(snapshot, options)
  {
    var entries := snapshot.entries;
    if |entries| > options.limit || options.limit > 100 || options.limit == 0
       || (snapshot.incomplete && snapshot.nextCursor.Some?) {
      return false;
    }
    var previous: Option<Row> := None;
    for i := 0 to |entries|
      invariant previous == if i == 0 then None else Some(entries[i - 1])
      invariant Listed(entries, i)
    {
      var row := entries[i];
      ListedGrows(entries, i);
      if !ValidRow(row) || (previous.Some? && !After(previous.value, row)) {
        assert !Listed(entries, |entries|);
        return false;
      }
      previous := Some(row);
    }
    if snapshot.nextCursor.Some? {
      if entries == [] {
        return false;
      }
      var last := entries[|entries| - 1];
      if snapshot.nextCursor.value.id != last.id || snapshot.nextCursor.value.updated != last.updated {
        return false;
      }
    }
    return true;
  }

  // ---------------------------------------------------------------- rendering

  function Decimal(n: nat): string
  {
    (if n < 10 then [] else Decimal(n / 10)) + ["0123456789"[n % 10]]
  }

  function Signed(n: int): string { if n < 0 then ['-'] + Decimal(-n) else Decimal(n) }

  function CursorText(cursor: Cursor): string
  {
    "v1:" + (if cursor.updated.Some? then Signed(cursor.updated.value) else "unknown") + ":" + cursor.id
  }

  function Title(row: Row): string
  {
    if row.title.Some? && row.title.value != [] then row.title.value else "Untitled session"
  }

  /** One write to the sink. */
  datatype Part = Fixed(text: string) | Quoted(text: string) | Escaped(text: string) | Number(value: int)

  function Spell(part: Part): string
  {
    match part
    case Fixed(text) => text
    case Quoted(text) => JsonText.JsonString(text)
    case Escaped(text) => JsonText.Content(text)
    case Number(value) => Signed(value)
  }

  function Spelled(parts: seq<Part>): (r: seq<string>)
    ensures |r| == |parts| && forall i :: 0 <= i < |parts| ==> r[i] == Spell(parts[i])
  {
    seq(|parts|, i requires 0 <= i < |parts| => Spell(parts[i]))
  }

  function OptionalText(text: Option<string>): Part
  {
    if text.Some? then Quoted(text.value) else Fixed("null")
  }

  function OptionalTime(time: Option<I64>): Part { if time.Some? then Number(time.value) else Fixed("null") }

  function OptionalHex(key: string, hex: Option<string>): seq<Part>
  {
    if hex.Some? then [Fixed(key), Quoted(hex.value)] else []
  }

  /** A key and the value written after it. */
  function Field(key: string, value: Part): seq<Part> { [Fixed(key), value] }

  function JsonTexts(row: Row): seq<Part>
  {
    Field("{\"id\":", Quoted(row.id)) + Field(",\"title\":", Quoted(Title(row))) + Field(",\"preview\":", OptionalText(row.preview))
  }

  function JsonWorkspaces(row: Row): seq<Part>
  {
    Field(",\"workspace_root\":", OptionalText(row.workspace)) + Field(",\"origin_workspace_root\":", OptionalText(row.origin))
  }

  function JsonNumbers(row: Row): seq<Part>
  {
    Field(",\"created_at_ms\":", OptionalTime(row.created)) + Field(",\"updated_at_ms\":", OptionalTime(row.updated)) +
    Field(",\"history_len\":", Number(row.historyLength)) + Field(",\"conversation_language\":", OptionalText(row.language))
  }

  function JsonHexes(row: Row): seq<Part>
  {
    OptionalHex(",\"workspace_root_hex\":", row.workspaceHex) + OptionalHex(",\"origin_workspace_root_hex\":", row.originHex)
  }

  function JsonRow(row: Row): seq<Part>
  {
    JsonTexts(row) + JsonWorkspaces(row) + JsonNumbers(row) + JsonHexes(row) + [Fixed("}")]
  }

  function JsonRows(rows: seq<Row>, first: bool): seq<Part>
  {
    if rows == [] then []
    else (if first then [] else [Fixed(",")]) + JsonRow(rows[0]) + JsonRows(rows[1..], false)
  }

  function JsonHead(snapshot: Snapshot): seq<Part>
  {
    Field("{\"kind\":\"sessions\",\"count\":", Number(|snapshot.entries|)) +
    (if snapshot.skippedInvalid > 0 then Field(",\"skipped_invalid\":", Number(snapshot.skippedInvalid)) else []) +
    (if snapshot.nextCursor.Some? then
       Field(",\"has_more\":true,\"next_cursor\":", Quoted(CursorText(snapshot.nextCursor.value)))
     else []) +
    (if snapshot.incomplete then [Fixed(",\"scan_complete\":false,\"truncated\":true")] else []) +
    [Fixed(",\"sessions\":[")]
  }

  function JsonPage(snapshot: Snapshot): seq<Part>
  {
    JsonHead(snapshot) + JsonRows(snapshot.entries, true) + [Fixed("]}\n")]
  }

  function Lower(c: char): char
  {
    if 'A' <= c <= 'Z' then (c as int + 32) as char else c
  }

  predicate EqualIgnoringCase(a: string, b: string)
  {
    |a| == |b| && forall i :: 0 <= i < |a| ==> Lower(a[i]) == Lower(b[i])
  }

  const SCRIPTS: seq<(string, string)> := [
    ("Latn", "Latin script"), ("Hani", "Han script"), ("Arab", "Arabic script"), ("Hebr", "Hebrew script"),
    ("Cyrl", "Cyrillic script"), ("Grek", "Greek script"), ("Deva", "Devanagari script"), ("Thai", "Thai script")]

  const LANGUAGES: seq<(string, string)> := [
    ("en", "English"), ("es", "Spanish"), ("fr", "French"), ("de", "German"), ("it", "Italian"),
    ("pt", "Portuguese"), ("ja", "Japanese"), ("ko", "Korean"), ("zh", "Chinese"), ("ar", "Arabic"),
    ("he", "Hebrew"), ("ru", "Russian"), ("el", "Greek"), ("hi", "Hindi"), ("th", "Thai")]

  /** The label of the first matching code, or the fallback. */
  function Lookup(table: seq<(string, string)>, code: string, fallback: string): (r: string)
    ensures r == fallback || exists i :: 0 <= i < |table| && r == table[i].1
  {
    if table == [] then fallback
    else if EqualIgnoringCase(code, table[0].0) then table[0].1
    else Lookup(table[1..], code, fallback)
  }

  function BeforeDash(tag: string): string
  {
    if tag == [] || tag[0] == '-' then [] else [tag[0]] + BeforeDash(tag[1..])
  }

  function LanguageLabel(tag: string): Option<string>
  {
    if EqualIgnoringCase(tag, "und") then None
    else if |tag| >= 4 && EqualIgnoringCase(tag[..4], "und-") then Some(Lookup(SCRIPTS, tag[4..], tag))
    else Some(Lookup(LANGUAGES, BeforeDash(tag), tag))
  }

  function LabelPart(language: Option<string>): seq<Part>
  {
    if language.None? || LanguageLabel(language.value).None? then []
    else [Fixed(" | "), Escaped(LanguageLabel(language.value).value)]
  }

  function HumanRow(row: Row, stamp: string): seq<Part>
  {
    Field(" - ", Escaped(Title(row))) + Field("\n   id=", Escaped(row.id)) +
    [Fixed(" | "), Number(row.historyLength), Fixed(if row.historyLength == 1 then " turn" else " turns")] +
    LabelPart(row.language) + [Fixed(" | updated "), Fixed(stamp), Fixed("\n")]
  }

  function HumanRows(rows: seq<Row>, stamps: seq<string>): seq<Part>
    requires |stamps| == |rows|
  {
    if rows == [] then [] else HumanRow(rows[0], stamps[0]) + HumanRows(rows[1..], stamps[1..])
  }

  function HumanHead(snapshot: Snapshot): seq<Part>
  {
    if snapshot.entries != [] then [Fixed("[sessions] "), Number(|snapshot.entries|), Fixed(" saved\n")]
    else if snapshot.incomplete then [Fixed("[sessions] 0 saved\n")]
    else if snapshot.skippedInvalid > 0 then [Fixed("[sessions] no readable saved sessions\n")]
    else [Fixed("[sessions] no saved sessions\n")]
  }

  function CursorLine(cursor: Option<Cursor>, options: Options): seq<Part>
  {
    if cursor.None? then []
    else
      [Fixed("[sessions] more saved sessions; continue with `machine-god sessions "), Fixed(if options.all then "--all " else ""),
       Fixed("--limit "), Number(options.limit), Fixed(" --cursor "), Fixed(CursorText(cursor.value)), Fixed("`\n")]
  }

  function NoticeLines(snapshot: Snapshot): seq<Part>
  {
    (if snapshot.incomplete then [Fixed("[sessions] listing incomplete: a resource limit was reached\n")] else []) +
    (if snapshot.skippedInvalid == 0 then []
     else
       [Fixed("[sessions] warning: skipped "), Number(snapshot.skippedInvalid), Fixed(" unreadable saved session"),
        Fixed(if snapshot.skippedInvalid == 1 then "" else "s"), Fixed("; run `machine-god doctor` for recovery guidance\n")])
  }

  function HumanPage(snapshot: Snapshot, options: Options, stamps: seq<string>): seq<Part>
    requires |stamps| == |snapshot.entries|
  {
    HumanHead(snapshot) + HumanRows(snapshot.entries, stamps) + (CursorLine(snapshot.nextCursor, options) + NoticeLines(snapshot))
  }

  // ---------------------------------------------------------------- sizes

  function PartSize(part: Part): nat { Bytes(Spell(part)) }

  /** The bytes the parts take together. */
  function Size(parts: seq<Part>): nat { Bytes(Concat(Spelled(parts))) }

  lemma SizeOfConcatenation(a: seq<Part>, b: seq<Part>)
    ensures Size(a + b) == Size(a) + Size(b)
  {
    assert Spelled(a + b) == Spelled(a) + Spelled(b);
    ConcatOfConcatenation(Spelled(a), Spelled(b));
    BytesOfConcatenation(Concat(Spelled(a)), Concat(Spelled(b)));
  }

  lemma OnePart(part: Part)
    ensures Size([part]) == PartSize(part)
  {
    var spelled := Spelled([part]);
    assert spelled == [Spell(part)] && [Spell(part)][1..] == [];
    assert Concat(spelled) == Spell(part) + Concat([]) == Spell(part);
  }

  lemma {:induction false} FourPerChar(s: string)
    ensures |s| <= Bytes(s) <= 4 * |s|
  {
    if s != [] {
      FourPerChar(s[1..]);
    }
  }

  predicate Representable(n: int) { -0x8000_0000_0000_0000 <= n < 0x1_0000_0000_0000_0000 }

  /** A part that takes at most `limit` bytes, judged by the length of what it spells. */
  predicate Light(part: Part, limit: nat)
  {
    match part
    case Fixed(text) => 4 * |text| <= limit
    case Quoted(text) => 6 * Bytes(text) + 2 <= limit
    case Escaped(text) => 6 * Bytes(text) <= limit
    case Number(value) => Representable(value) && 84 <= limit
  }

  lemma LightPart(part: Part, limit: nat)
    requires Light(part, limit)
    ensures PartSize(part) <= limit
  {
    match part
    case Fixed(text) => FourPerChar(text);
    case Quoted(text) => JsonText.JsonStringBytes(text);
    case Escaped(text) => JsonText.ContentBytes(text);
    case Number(value) => NumberBytes(value);
  }

  ghost predicate AllLight(parts: seq<Part>, limit: nat) { forall part :: part in parts ==> Light(part, limit) }

  lemma SizeOfFirst(first: Part, rest: seq<Part>)
    ensures Size([first] + rest) == PartSize(first) + Size(rest)
  {
    SizeOfConcatenation([first], rest);
    OnePart(first);
  }

  lemma {:induction false} LightParts(parts: seq<Part>, limit: nat)
    requires AllLight(parts, limit)
    ensures Size(parts) <= Room(limit, |parts|)
  {
    if parts == [] {
      assert Spelled(parts) == [];
    } else {
      var first, rest := parts[0], parts[1..];
      assert Light(first, limit) && AllLight(rest, limit);
      LightPart(first, limit);
      LightParts(rest, limit);
      SizeOfFirst(first, rest);
      assert parts == [first] + rest;
    }
  }

  /** Room for so many parts. */
  function Room(limit: nat, n: nat): nat { if n == 0 then 0 else limit + Room(limit, n - 1) }

  lemma {:induction false} RoomGrows(limit: nat, m: nat, n: nat)
    requires m <= n
    ensures Room(limit, m) <= Room(limit, n)
  {
    if m < n {
      RoomGrows(limit, m, n - 1);
    }
  }

  lemma {:induction false} RoomIsProduct(limit: nat, n: nat)
    ensures Room(limit, n) == limit * n
  {
    if n > 0 {
      RoomIsProduct(limit, n - 1);
    }
  }

  lemma {:induction false} DecimalLength(n: nat, k: nat)
    requires k > 0 && n < Timestamp.Pow10(k)
    ensures |Decimal(n)| <= k
    decreases k
  {
    if n >= 10 {
      assert Timestamp.Pow10(k) == 10 * Timestamp.Pow10(k - 1);
      DecimalLength(n / 10, k - 1);
    }
  }

  lemma PowersOfTen()
    ensures Timestamp.Pow10(20) == 100_000_000_000_000_000_000
  {
    assert Timestamp.Pow10(4) == 10_000;
    assert Timestamp.Pow10(8) == 100_000_000;
    assert Timestamp.Pow10(12) == 1_000_000_000_000;
    assert Timestamp.Pow10(16) == 10_000_000_000_000_000;
  }

  lemma NumberBytes(n: int)
    requires Representable(n)
    ensures |Signed(n)| <= 21 && Bytes(Signed(n)) <= 84
  {
    PowersOfTen();
    DecimalLength(if n < 0 then -n else n, 20);
    FourPerChar(Signed(n));
  }

  /** The cursor text of a valid identifier is short. */
  lemma CursorLength(cursor: Cursor)
    requires ValidId(cursor.id)
    ensures |CursorText(cursor)| <= 160 && Bytes(CursorText(cursor)) <= 240
  {
    var time := if cursor.updated.Some? then Signed(cursor.updated.value) else "unknown";
    if cursor.updated.Some? {
      NumberBytes(cursor.updated.value);
    }
    FourPerChar(cursor.id);
    FourPerChar("v1:" + time + ":");
    BytesOfConcatenation("v1:" + time + ":", cursor.id);
  }

  lemma TitleBytes(row: Row)
    requires Within(row.title, 240)
    ensures Bytes(Title(row)) <= 240
  {
    FourPerChar("Untitled session");
  }

  lemma HexIsPlain(hex: string)
    requires forall i :: 0 <= i < |hex| ==> HexChar(hex[i])
    ensures JsonText.Content(hex) == hex
  {
    JsonText.PlainContent(hex);
  }

  lemma HexSize(hex: string)
    requires Bytes(hex) <= 8192 && forall i :: 0 <= i < |hex| ==> HexChar(hex[i])
    ensures PartSize(Quoted(hex)) <= 8194
  {
    HexIsPlain(hex);
    JsonText.JsonStringBytes(hex);
  }

  lemma FieldSize(key: string, value: Part, limit: nat)
    requires |key| <= 30 && PartSize(value) <= limit
    ensures Size(Field(key, value)) <= 120 + limit
  {
    LightPart(Fixed(key), 120);
    assert Field(key, value) == [Fixed(key)] + [value];
    SizeOfConcatenation([Fixed(key)], [value]);
    OnePart(Fixed(key));
    OnePart(value);
  }

  /** A workspace and its hexadecimal form together stay within the room of a text. */
  lemma WorkspaceSize(text: Option<string>, hex: Option<string>, key: string, hexKey: string)
    requires ValidWorkspace(text, hex) && |key| <= 30 && |hexKey| <= 30
    ensures Size(Field(key, OptionalText(text))) + Size(OptionalHex(hexKey, hex)) <= 6 * 4096 + 256
  {
    var room := if text.Some? then 6 * 4096 + 2 else 16;
    LightPart(OptionalText(text), room);
    FieldSize(key, OptionalText(text), room);
    if hex.Some? {
      HexSize(hex.value);
      FieldSize(hexKey, Quoted(hex.value), 8194);
    }
  }

  lemma WorkspacesSize(row: Row)
    requires ValidRow(row)
    ensures Size(JsonWorkspaces(row)) + Size(JsonHexes(row)) <= 6 * 8192 + 512
  {
    WorkspaceSize(row.workspace, row.workspaceHex, ",\"workspace_root\":", ",\"workspace_root_hex\":");
    WorkspaceSize(row.origin, row.originHex, ",\"origin_workspace_root\":", ",\"origin_workspace_root_hex\":");
    SizeOfConcatenation(Field(",\"workspace_root\":", OptionalText(row.workspace)), Field(",\"origin_workspace_root\":", OptionalText(row.origin)));
    SizeOfConcatenation(OptionalHex(",\"workspace_root_hex\":", row.workspaceHex), OptionalHex(",\"origin_workspace_root_hex\":", row.originHex));
  }

  /** What a row may take in either format; the output limit sets aside more. */
  const ROW_ROOM: nat := 6 * (128 + 240 + 240 + 8192 + 24) + 14000

  lemma JsonRowSize(row: Row)
    requires ValidRow(row)
    ensures Size(JsonRow(row)) <= ROW_ROOM - 4
  {
    JsonTextsSize(row);
    WorkspacesSize(row);
    LightParts([Fixed("}")], 4);
    Joined(JsonTexts(row), JsonWorkspaces(row), JsonNumbers(row), JsonHexes(row), [Fixed("}")]);
  }

  lemma JsonTextsSize(row: Row)
    requires ValidRow(row)
    ensures Size(JsonTexts(row)) <= 9000 && Size(JsonNumbers(row)) <= 2400
  {
    JsonTextsAreLight(row);
    LightParts(JsonTexts(row), 1500);
    LightParts(JsonNumbers(row), 300);
    RoomIsProduct(1500, 6);
    RoomIsProduct(300, 8);
  }

  lemma JsonTextsAreLight(row: Row)
    requires ValidRow(row)
    ensures AllLight(JsonTexts(row), 1500) && AllLight(JsonNumbers(row), 300)
  {
    TitleBytes(row);
  }

  lemma Joined(a: seq<Part>, b: seq<Part>, c: seq<Part>, d: seq<Part>, e: seq<Part>)
    ensures Size(a + b + c + d + e) == Size(a) + Size(b) + Size(c) + Size(d) + Size(e)
  {
    SizeOfConcatenation(a + b + c + d, e);
    SizeOfConcatenation(a + b + c, d);
    SizeOfConcatenation(a + b, c);
    SizeOfConcatenation(a, b);
  }

  lemma {:induction false} JsonRowsSize(rows: seq<Row>, first: bool)
    requires forall i :: 0 <= i < |rows| ==> ValidRow(rows[i])
    ensures Size(JsonRows(rows, first)) <= Room(ROW_ROOM, |rows|)
  {
    if rows == [] {
      assert Spelled([]) == [];
    } else {
      JsonRowSize(rows[0]);
      JsonRowsSize(rows[1..], false);
      SeparatedSize(first, JsonRow(rows[0]), JsonRows(rows[1..], false));
    }
  }

  lemma SeparatedSize(first: bool, row: seq<Part>, rest: seq<Part>)
    ensures Size((if first then [] else [Fixed(",")]) + row + rest) <= 4 + Size(row) + Size(rest)
  {
    var comma: seq<Part> := if first then [] else [Fixed(",")];
    LightParts(comma, 4);
    SizeOfConcatenation(comma + row, rest);
    SizeOfConcatenation(comma, row);
  }

  lemma PageFits(head: seq<Part>, rows: seq<Part>, tail: seq<Part>, n: nat)
    requires n <= 100 && Size(rows) <= Room(ROW_ROOM, n)
    requires AllLight(head, 1500) && AllLight(tail, 1500) && |head| <= 20 && |tail| <= 20
    ensures Size(head + rows + tail) <= MAX_OUTPUT_BYTES
  {
    LightParts(head, 1500);
    LightParts(tail, 1500);
    RoomGrows(1500, |head|, 20);
    RoomGrows(1500, |tail|, 20);
    RoomGrows(ROW_ROOM, n, 100);
    RoomIsProduct(1500, 20);
    RoomIsProduct(ROW_ROOM, 100);
    SizeOfConcatenation(head + rows, tail);
    SizeOfConcatenation(head, rows);
  }

  lemma JsonHeadIsLight(snapshot: Snapshot)
    requires snapshot.nextCursor.Some? ==> ValidId(snapshot.nextCursor.value.id)
    requires |snapshot.entries| <= 100
    ensures AllLight(JsonHead(snapshot), 1500) && |JsonHead(snapshot)| <= 20
  {
    if snapshot.nextCursor.Some? {
      CursorLength(snapshot.nextCursor.value);
    }
  }

  /** Every valid page fits in the output limit as JSON. */
  lemma JsonPageFits(snapshot: Snapshot, options: Options)
    requires ValidPage(snapshot, options)
    ensures Size(JsonPage(snapshot)) <= MAX_OUTPUT_BYTES
  {
    JsonHeadIsLight(snapshot);
    JsonRowsSize(snapshot.entries, true);
    PageFits(JsonHead(snapshot), JsonRows(snapshot.entries, true), [Fixed("]}\n")], |snapshot.entries|);
  }

  lemma LabelLength(language: string)
    requires LanguageLabel(language).Some?
    ensures LanguageLabel(language).value == language || |LanguageLabel(language).value| <= 17
  {
    assert forall i :: 0 <= i < |SCRIPTS| ==> |SCRIPTS[i].1| <= 17;
    assert forall i :: 0 <= i < |LANGUAGES| ==> |LANGUAGES[i].1| <= 17;
  }

  lemma LabelBytes(language: string)
    requires Bytes(language) <= 24 && LanguageLabel(language).Some?
    ensures Bytes(LanguageLabel(language).value) <= 68
  {
    var shown := LanguageLabel(language).value;
    LabelLength(language);
    FourPerChar(shown);
  }

  lemma LightBoth(a: seq<Part>, b: seq<Part>, limit: nat)
    requires AllLight(a, limit) && AllLight(b, limit)
    ensures AllLight(a + b, limit)
  {
  }

  lemma LabelIsLight(language: Option<string>)
    requires Within(language, 24)
    ensures AllLight(LabelPart(language), 1500)
  {
    if LabelPart(language) != [] {
      LabelBytes(language.value);
    }
  }

  lemma HumanRowIsLight(row: Row, stamp: string)
    requires ValidRow(row) && |stamp| <= 27
    ensures AllLight(HumanRow(row, stamp), 1500) && |HumanRow(row, stamp)| <= 12
  {
    var texts := Field(" - ", Escaped(Title(row))) + Field("\n   id=", Escaped(row.id));
    var turns := [Fixed(" | "), Number(row.historyLength), Fixed(if row.historyLength == 1 then " turn" else " turns")];
    TitleBytes(row);
    LabelIsLight(row.language);
    LightBoth(texts, turns, 1500);
    LightBoth(texts + turns, LabelPart(row.language), 1500);
    LightBoth(texts + turns + LabelPart(row.language), [Fixed(" | updated "), Fixed(stamp), Fixed("\n")], 1500);
  }

  lemma HumanRowSize(row: Row, stamp: string)
    requires ValidRow(row) && |stamp| <= 27
    ensures Size(HumanRow(row, stamp)) <= ROW_ROOM
  {
    HumanRowIsLight(row, stamp);
    LightParts(HumanRow(row, stamp), 1500);
    RoomGrows(1500, |HumanRow(row, stamp)|, 12);
    RoomIsProduct(1500, 12);
  }

  lemma {:induction false} HumanRowsSize(rows: seq<Row>, stamps: seq<string>)
    requires |stamps| == |rows|
    requires forall i :: 0 <= i < |rows| ==> ValidRow(rows[i]) && |stamps[i]| <= 27
    ensures Size(HumanRows(rows, stamps)) <= Room(ROW_ROOM, |rows|)
  {
    if rows == [] {
      assert Spelled([]) == [];
    } else {
      HumanRowSize(rows[0], stamps[0]);
      HumanRowsSize(rows[1..], stamps[1..]);
      SizeOfConcatenation(HumanRow(rows[0], stamps[0]), HumanRows(rows[1..], stamps[1..]));
    }
  }

  lemma CursorLineIsLight(cursor: Option<Cursor>, options: Options)
    requires cursor.Some? ==> ValidId(cursor.value.id)
    ensures AllLight(CursorLine(cursor, options), 1500)
  {
    if cursor.Some? {
      CursorLength(cursor.value);
    }
  }

  lemma NoticesAreLight(snapshot: Snapshot)
    requires |snapshot.entries| <= 100
    ensures AllLight(HumanHead(snapshot), 1500) && AllLight(NoticeLines(snapshot), 1500)
  {
  }

  lemma HumanRoom(snapshot: Snapshot, options: Options, rows: seq<Part>)
    requires |snapshot.entries| <= 100 && Size(rows) <= Room(ROW_ROOM, |snapshot.entries|)
    requires snapshot.nextCursor.Some? ==> ValidId(snapshot.nextCursor.value.id)
    ensures Size(HumanHead(snapshot) + rows + (CursorLine(snapshot.nextCursor, options) + NoticeLines(snapshot))) <= MAX_OUTPUT_BYTES
  {
    var cursor, notices := CursorLine(snapshot.nextCursor, options), NoticeLines(snapshot);
    CursorLineIsLight(snapshot.nextCursor, options);
    NoticesAreLight(snapshot);
    LightBoth(cursor, notices, 1500);
    PageFits(HumanHead(snapshot), rows, cursor + notices, |snapshot.entries|);
  }

  /** Every valid page fits in the output limit in the human format. */
  lemma HumanPageFits(snapshot: Snapshot, options: Options, stamps: seq<string>)
    requires ValidPage(snapshot, options) && |stamps| == |snapshot.entries|
    requires forall i :: 0 <= i < |stamps| ==> |stamps[i]| <= 27
    ensures Size(HumanPage(snapshot, options, stamps)) <= MAX_OUTPUT_BYTES
  {
    HumanRowsSize(snapshot.entries, stamps);
    HumanRoom(snapshot, options, HumanRows(snapshot.entries, stamps));
  }

  // ---------------------------------------------------------------- the renderer

  /** What the timestamp column may show for a time. */
  ghost predicate IsStamp(time: Option<I64>, stamp: string)
  {
    if time.Some? && 0 <= time.value <= Timestamp.LAST_MILLISECOND then
      exists c: Timestamp.Civil :: Timestamp.ValidDate(c) && Timestamp.ValidTime(c)
                                   && Timestamp.Recombined(c) == time.value && stamp == Timestamp.Text(c)
    else stamp == "unknown"
  }

  lemma StampLength(time: Option<I64>, stamp: string)
    requires IsStamp(time, stamp)
    ensures |stamp| <= 27
  {
    if time.Some? && 0 <= time.value <= Timestamp.LAST_MILLISECOND {
      var c: Timestamp.Civil :| Timestamp.ValidDate(c) && Timestamp.ValidTime(c) && stamp == Timestamp.Text(c);
      Timestamp.TextLength(c);
    }
  }

  ghost predicate AreStamps(rows: seq<Row>, stamps: seq<string>)
  {
    |rows| == |stamps| && forall i :: 0 <= i < |rows| ==> IsStamp(rows[i].updated, stamps[i])
  }

  method Stamps(rows: seq<Row>) returns (stamps: seq<string>)
    ensures AreStamps(rows, stamps)
  {
    stamps := [];
    for i := 0 to |rows|
      invariant |stamps| == i && forall j :: 0 <= j < i ==> IsStamp(rows[j].updated, stamps[j])
    {
      var stamp, civil := Timestamp.WriteTimestamp(rows[i].updated);
      stamps := stamps + [stamp];
    }
  }

  datatype Result = Rendered(text: string) | ResourceLimit

  /**
   The output limit is never what fails: a snapshot is rendered, whole, exactly when it is valid,
   in either format.
   */
  method RenderSessions(snapshot: Snapshot, options: Options) returns (r: Result, ghost stamps: seq<string>)
    ensures r.Rendered? <==> ValidPage(snapshot, options)
    ensures r.Rendered? ==> AreStamps(snapshot.entries, stamps) && Bytes(r.text) <= MAX_OUTPUT_BYTES
    ensures r.Rendered? ==> r.text == Concat(Spelled(if options.json then JsonPage(snapshot) else HumanPage(snapshot, options, stamps)))
  {
    stamps := [];
    var ok := Validate(snapshot, options);
    if !ok {
      return ResourceLimit, stamps;
    }
    var output := new BoundedOutput(MAX_OUTPUT_BYTES);
    var shown := Stamps(snapshot.entries);
    if options.json {
      JsonPageFits(snapshot, options);
      ok := output.WriteAll(Spelled(JsonPage(snapshot)));
    } else {
      forall i | 0 <= i < |shown| ensures |shown[i]| <= 27 {
        StampLength(snapshot.entries[i].updated, shown[i]);
      }
      HumanPageFits(snapshot, options, shown);
      ok := output.WriteAll(Spelled(HumanPage(snapshot, options, shown)));
    }
    return Rendered(output.value), shown;
  }
}
