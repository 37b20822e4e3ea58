/**
 The round-robin windows over the stored cursor: every call reads the two-slot file, takes its
 window and writes the last name back, and any of the writes may be torn. A call whose write
 falls short raises, and its window is not inspected.
 */
module ScanFairness {
  import opened Shared
  import opened ScanCursor
  import opened Rotation

  /** Texts as bytes: the script's UTF-8 functions. */
  datatype Coder = Coder(codec: Codec, encode: string -> Bytes, decode: Bytes -> string)

  ghost predicate RoundTrips(c: Coder)
  {
    Fits(c.codec) && forall text :: c.decode(c.encode(text)) == text && c.codec.text(c.encode(text))
  }

  /** One call: the names it lists, and how many bytes of the new record reach the file. */
  datatype Call = Call(names: seq<string>, count: nat)

  function CursorOf(c: Coder, data: Bytes): string { c.decode(Read(c.codec, data)) }

  function Selected(c: Coder, data: Bytes, call: Call, limit: nat): seq<string>
  {
    Window(call.names, CursorOf(c, data), limit)
  }

  /** What the call writes: the last name of its window. */
  function Chosen(c: Coder, data: Bytes, call: Call, limit: nat): Bytes
  {
    c.encode(NextCursor(call.names, CursorOf(c, data), limit))
  }

  function AfterCall(c: Coder, data: Bytes, call: Call, limit: nat): Bytes
  {
    Write(c.codec, data, Chosen(c, data, call, limit), call.count)
  }

  predicate CallLands(c: Coder, data: Bytes, call: Call, limit: nat)
  {
    Lands(c.codec, data, Chosen(c, data, call, limit), call.count)
  }

  /** The generations last, and what passes the checksum has been written. */
  ghost predicate Serves(c: Coder, data: Bytes, base: Bytes, calls: seq<Call>, limit: nat)
    decreases |calls|
  {
    calls == [] ||
    var cursor, count := Chosen(c, data, calls[0], limit), calls[0].count;
    && !Exhausted(c.codec, data) && Vouched(c.codec, data, base, cursor, count)
    && Serves(c, AfterCall(c, data, calls[0], limit), NextBase(c.codec, data, base, cursor, count), calls[1..], limit)
  }

  /** How many of the calls move the cursor. */
  function Moves(c: Coder, data: Bytes, calls: seq<Call>, limit: nat): (n: nat)
    ensures n <= |calls|
    decreases |calls|
  {
    if calls == [] then 0
    else (if CallLands(c, data, calls[0], limit) then 1 else 0) + Moves(c, AfterCall(c, data, calls[0], limit), calls[1..], limit)
  }

  /** A call that moves the cursor has `x` in its window. */
  predicate Met(c: Coder, data: Bytes, calls: seq<Call>, limit: nat, x: string)
    decreases |calls|
  {
    calls != [] &&
    (|| (CallLands(c, data, calls[0], limit) && x in Selected(c, data, calls[0], limit))
     || Met(c, AfterCall(c, data, calls[0], limit), calls[1..], limit, x))
  }

  /** A call that wrote its record whole returns a window with `x`. */
  predicate Returned(c: Coder, data: Bytes, calls: seq<Call>, limit: nat, x: string)
    decreases |calls|
  {
    calls != [] &&
    (|| (calls[0].count >= SLOT_SIZE && x in Selected(c, data, calls[0], limit))
     || Returned(c, AfterCall(c, data, calls[0], limit), calls[1..], limit, x))
  }

  /** No short write finds the rest of its record in place. */
  predicate NoTearLands(c: Coder, data: Bytes, calls: seq<Call>, limit: nat)
    decreases |calls|
  {
    calls == [] ||
    (&& (calls[0].count < SLOT_SIZE ==> !CallLands(c, data, calls[0], limit))
     && NoTearLands(c, AfterCall(c, data, calls[0], limit), calls[1..], limit))
  }

  function Completed(calls: seq<Call>): (n: nat)
  {
    if calls == [] then 0 else (if calls[0].count >= SLOT_SIZE then 1 else 0) + Completed(calls[1..])
  }

  /** Every listing is sorted, has `x`, holds names within the payload limit, and only names of the one before. */
  ghost predicate Listings(c: Coder, calls: seq<Call>, x: string)
  {
    && (forall i :: 0 <= i < |calls| ==> Sorted(calls[i].names) && x in calls[i].names)
    && (forall i, y :: 0 <= i < |calls| && y in calls[i].names ==> |c.encode(y)| <= PAYLOAD_LIMIT)
    && (forall i, y :: 0 < i < |calls| && y in calls[i].names ==> y in calls[i - 1].names)
  }

  lemma LaterListings(c: Coder, calls: seq<Call>, x: string)
    requires Listings(c, calls, x) && calls != []
    ensures Listings(c, calls[1..], x)
  {
    forall i, y | 0 < i < |calls[1..]| && y in calls[1..][i].names ensures y in calls[1..][i - 1].names {
      assert calls[1..][i] == calls[i + 1] && calls[1..][i - 1] == calls[i];
    }
  }

  lemma NextCursorIsAName(names: seq<string>, cursor: string, limit: nat)
    requires names != [] && limit > 0
    ensures NextCursor(names, cursor, limit) in names
  {
    var w := Window(names, cursor, limit);
    var i := NameAt(names, cursor, |w| - 1);
    assert w[|w| - 1] == Rotated(names, cursor)[|w| - 1] == names[i];
  }

  /** One call moves the stored cursor past its window, or leaves it. */
  lemma CallMeaning(c: Coder, data: Bytes, base: Bytes, call: Call, limit: nat)
    requires RoundTrips(c) && WellFormed(data) && Since(c.codec, data, base) && !Exhausted(c.codec, data)
    requires Vouched(c.codec, data, base, Chosen(c, data, call, limit), call.count)
    requires call.names != [] && limit > 0 && forall y :: y in call.names ==> |c.encode(y)| <= PAYLOAD_LIMIT
    ensures var after := AfterCall(c, data, call, limit);
            && WellFormed(after)
            && Since(c.codec, after, NextBase(c.codec, data, base, Chosen(c, data, call, limit), call.count))
            && CursorOf(c, after)
                 == if CallLands(c, data, call, limit) then NextCursor(call.names, CursorOf(c, data), limit) else CursorOf(c, data)
    ensures call.count >= SLOT_SIZE ==> CallLands(c, data, call, limit)
  {
    var next := NextCursor(call.names, CursorOf(c, data), limit);
    NextCursorIsAName(call.names, CursorOf(c, data), limit);
    assert Payload(c.encode(next)) == c.encode(next);
    EncodeFillsSlot(c.codec, c.encode(next), NewestGeneration(c.codec, data) + 1);
    TornWriteIsHarmless(c.codec, data, base, c.encode(next), call.count);
  }

  /** A call that does not meet `x` leaves it within reach of the others. */
  /** The names that so many windows hold. */
  function Reach(windows: nat, limit: nat): (n: nat)
  {
    if windows == 0 then 0 else limit + Reach(windows - 1, limit)
  }

  lemma {:induction false} ReachIsProduct(windows: nat, limit: nat)
    ensures Reach(windows, limit) == windows * limit
  {
    if windows > 0 {
      ReachIsProduct(windows - 1, limit);
    }
  }

  /** A call that does not meet `x` leaves it within reach of the others. */
  lemma DistanceLeft(names: seq<string>, later: seq<string>, cursor: string, limit: nat, x: string, lands: bool, windows: nat)
    requires Sorted(names) && x in names && limit > 0 && forall y :: y in later ==> y in names
    requires |Ahead(names, cursor, x)| < Reach((if lands then 1 else 0) + windows, limit)
    requires lands ==> x !in Window(names, cursor, limit)
    ensures |Ahead(later, if lands then NextCursor(names, cursor, limit) else cursor, x)| < Reach(windows, limit)
  {
    if lands {
      MissedWindowMakesProgress(names, later, cursor, limit, x);
    } else {
      SubsetSize(Ahead(later, cursor, x), Ahead(names, cursor, x));
    }
  }

  /** The next calls can still meet `x`. */
  ghost predicate InReach(c: Coder, data: Bytes, calls: seq<Call>, limit: nat, x: string)
  {
    calls != [] && |Ahead(calls[0].names, CursorOf(c, data), x)| < Reach(Moves(c, data, calls, limit), limit)
  }

  lemma StillInReach(c: Coder, data: Bytes, after: Bytes, calls: seq<Call>, limit: nat, x: string)
    requires limit > 0 && calls != [] && Listings(c, calls, x) && InReach(c, data, calls, limit, x)
    requires after == AfterCall(c, data, calls[0], limit)
    requires CursorOf(c, after) == if CallLands(c, data, calls[0], limit)
                                   then NextCursor(calls[0].names, CursorOf(c, data), limit) else CursorOf(c, data)
    requires CallLands(c, data, calls[0], limit) ==> x !in Selected(c, data, calls[0], limit)
    ensures InReach(c, after, calls[1..], limit, x)
  {
    var later := if |calls| == 1 then calls[0].names else calls[1].names;
    LaterNames(c, calls, x, later);
    DistanceLeft(calls[0].names, later, CursorOf(c, data), limit, x, CallLands(c, data, calls[0], limit),
                 Moves(c, after, calls[1..], limit));
  }

  lemma {:induction false} MetWithinDistance(c: Coder, data: Bytes, base: Bytes, calls: seq<Call>, limit: nat, x: string)
    requires RoundTrips(c) && WellFormed(data) && Since(c.codec, data, base) && Serves(c, data, base, calls, limit)
    requires limit > 0 && Listings(c, calls, x) && InReach(c, data, calls, limit, x)
    ensures Met(c, data, calls, limit, x)
    decreases |calls|
  {
    var call := calls[0];
    if !CallLands(c, data, call, limit) || x !in Selected(c, data, call, limit) {
      var after := AfterCall(c, data, call, limit);
      CallMeaning(c, data, base, call, limit);
      LaterListings(c, calls, x);
      StillInReach(c, data, after, calls, limit, x);
      MetWithinDistance(c, after, NextBase(c.codec, data, base, Chosen(c, data, call, limit), call.count), calls[1..], limit, x);
    }
  }

  lemma LaterNames(c: Coder, calls: seq<Call>, x: string, later: seq<string>)
    requires Listings(c, calls, x) && calls != []
    requires later == if |calls| == 1 then calls[0].names else calls[1].names
    ensures forall y :: y in later ==> y in calls[0].names
  {
  }

  /**
   Fairness of the stored cursor: a name that stays present is in the window of one of the next
   ceil(n / limit) calls that move the cursor, with any number of torn writes in between.
   */
  lemma StoredCursorIsFair(c: Coder, data: Bytes, calls: seq<Call>, limit: nat, x: string)
    requires RoundTrips(c) && WellFormed(data) && Serves(c, data, Slot(data, TargetSlot(c.codec, data)), calls, limit)
    requires limit > 0 && calls != [] && Listings(c, calls, x)
    requires |calls[0].names| <= Moves(c, data, calls, limit) * limit
    ensures Met(c, data, calls, limit, x)
  {
    SinceNow(c.codec, data);
    AheadIsFewer(calls[0].names, CursorOf(c, data), x);
    ReachIsProduct(Moves(c, data, calls, limit), limit);
    MetWithinDistance(c, data, Slot(data, TargetSlot(c.codec, data)), calls, limit, x);
  }

  lemma {:induction false} WholeWritesMove(c: Coder, data: Bytes, base: Bytes, calls: seq<Call>, limit: nat, x: string)
    requires RoundTrips(c) && WellFormed(data) && Since(c.codec, data, base) && Serves(c, data, base, calls, limit)
    requires limit > 0 && Listings(c, calls, x) && NoTearLands(c, data, calls, limit)
    ensures Moves(c, data, calls, limit) == Completed(calls)
    ensures Met(c, data, calls, limit, x) <==> Returned(c, data, calls, limit, x)
    decreases |calls|
  {
    if calls != [] {
      CallMeaning(c, data, base, calls[0], limit);
      LaterListings(c, calls, x);
      WholeWritesMove(c, AfterCall(c, data, calls[0], limit),
                      NextBase(c.codec, data, base, Chosen(c, data, calls[0], limit), calls[0].count), calls[1..], limit, x);
    }
  }

  /** So, unless a short write lands, the name is returned by one of the next ceil(n / limit) calls that succeed. */
  lemma EveryNameIsReturned(c: Coder, data: Bytes, calls: seq<Call>, limit: nat, x: string)
    requires RoundTrips(c) && WellFormed(data) && Serves(c, data, Slot(data, TargetSlot(c.codec, data)), calls, limit)
    requires limit > 0 && calls != [] && Listings(c, calls, x) && NoTearLands(c, data, calls, limit)
    requires |calls[0].names| <= Completed(calls) * limit
    ensures Returned(c, data, calls, limit, x)
  {
    SinceNow(c.codec, data);
    WholeWritesMove(c, data, Slot(data, TargetSlot(c.codec, data)), calls, limit, x);
    StoredCursorIsFair(c, data, calls, limit, x);
  }

  /** The condition is needed: a short write that lands moves the cursor past a window nobody inspects. */
  lemma LandedTearLosesItsWindow(c: Coder, x: string) returns (data: Bytes)
    requires RoundTrips(c) && |c.encode(x)| <= PAYLOAD_LIMIT
    ensures var calls := [Call([x], SLOT_SIZE - 1)];
            WellFormed(data) && Met(c, data, calls, 1, x) && !Returned(c, data, calls, 1, x)
  {
    data := ShortWriteCanLand(c.codec, c.encode(x));
    var call := Call([x], SLOT_SIZE - 1);
    assert Selected(c, data, call, 1) == [x];
    assert [call][1..] == [];
  }
}
