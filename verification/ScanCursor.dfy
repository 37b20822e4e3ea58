/**
 The two-slot scan cursor of scripts/provision_zig.py.

 A cursor file holds two fixed-size slots. A write goes to the slot that does not hold the
 newest complete record, so an interrupted write cannot damage the newest one. A record is
 checked by a digest over its header and payload; the digest and the text validity test are
 parameters of the model.
 */
module ScanCursor {
  import opened Shared

  newtype byte = x: int | 0 <= x < 256

  type Bytes = seq<byte>

  const MAGIC: Bytes := [0x4D, 0x47, 0x5A, 0x43, 0x55, 0x52, 0x30, 0x31]
  const SLOT_SIZE: nat := 1024
  const PAYLOAD_LIMIT: nat := 511
  const DIGEST_SIZE: nat := 32
  const HEADER_SIZE: nat := 18
  const GENERATION_LIMIT: nat := 0x1_0000_0000_0000_0000

  /** The digest and the UTF-8 test that the script takes from its libraries. */
  datatype Codec = Codec(digest: Bytes -> Bytes, text: Bytes -> bool)

  ghost predicate Fits(codec: Codec)
  {
    forall data :: |codec.digest(data)| == DIGEST_SIZE
  }

  // ----- big-endian integers -----

  function BigEndian(n: nat, width: nat): (r: Bytes)
    ensures |r| == width
  {
    if width == 0 then [] else BigEndian(n / 256, width - 1) + [(n % 256) as byte]
  }

  function FromBigEndian(data: Bytes): (n: nat)
  {
    if data == [] then 0 else FromBigEndian(data[..|data| - 1]) * 256 + data[|data| - 1] as nat
  }

  function Range(width: nat): (n: nat)
    ensures n > 0
  {
    if width == 0 then 1 else 256 * Range(width - 1)
  }

  lemma {:induction false} BigEndianRoundTrip(n: nat, width: nat)
    requires n < Range(width)
    ensures FromBigEndian(BigEndian(n, width)) == n
  {
    if width > 0 {
      BigEndianRoundTrip(n / 256, width - 1);
      var data := BigEndian(n, width);
      assert data[..|data| - 1] == BigEndian(n / 256, width - 1);
    }
  }

  lemma RangeValues()
    ensures Range(2) == 65536 && Range(8) == GENERATION_LIMIT
  {
    assert Range(1) == 256;
    assert Range(2) == 65536;
    assert Range(3) == 16777216;
    assert Range(4) == 4294967296;
    assert Range(5) == 1099511627776;
    assert Range(6) == 281474976710656;
    assert Range(7) == 72057594037927936;
  }

  // ----- records -----

  function Zeros(n: nat): (r: Bytes)
    ensures |r| == n
  {
    seq(n, _ => 0)
  }

  function Min(a: nat, b: nat): (m: nat)
  {
    if a <= b then a else b
  }

  function Payload(cursor: Bytes): (r: Bytes)
    ensures |r| <= PAYLOAD_LIMIT && (|cursor| <= PAYLOAD_LIMIT ==> r == cursor)
  {
    cursor[..Min(|cursor|, PAYLOAD_LIMIT)]
  }

  function Header(generation: nat, size: nat): (r: Bytes)
    ensures |r| == HEADER_SIZE
  {
    MAGIC + BigEndian(generation, 8) + BigEndian(size, 2)
  }

  function Encode(codec: Codec, cursor: Bytes, generation: nat): (r: Bytes)
  {
    var body := Header(generation, |Payload(cursor)|) + Payload(cursor);
    body + Zeros(SLOT_SIZE - |body| - DIGEST_SIZE) + codec.digest(body)
  }

  function Decode(codec: Codec, record: Bytes): (r: Option<(nat, Bytes)>)
  {
    if |record| != SLOT_SIZE || record[..8] != MAGIC then None
    else
      var generation := FromBigEndian(record[8..16]);
      var size := FromBigEndian(record[16..18]);
      if size > PAYLOAD_LIMIT then None
      else
        var payload := record[HEADER_SIZE..HEADER_SIZE + size];
        if record[SLOT_SIZE - DIGEST_SIZE..] != codec.digest(record[..HEADER_SIZE] + payload) then None
        else if codec.text(payload) then Some((generation, payload)) else None
  }

  lemma EncodeFillsSlot(codec: Codec, cursor: Bytes, generation: nat)
    requires Fits(codec)
    ensures |Encode(codec, cursor, generation)| == SLOT_SIZE
  {
    assert |codec.digest(Header(generation, |Payload(cursor)|) + Payload(cursor))| == DIGEST_SIZE;
  }

  lemma PartsOfRecord(codec: Codec, cursor: Bytes, generation: nat)
    requires Fits(codec)
    ensures var record := Encode(codec, cursor, generation);
            var payload := Payload(cursor);
            && |record| == SLOT_SIZE
            && record[..HEADER_SIZE + |payload|] == Header(generation, |payload|) + payload
            && record[SLOT_SIZE - DIGEST_SIZE..] == codec.digest(Header(generation, |payload|) + payload)
            && record[..8] == MAGIC && record[..16] == MAGIC + BigEndian(generation, 8)
  {
    var payload := Payload(cursor);
    var header := Header(generation, |payload|);
    var record := Encode(codec, cursor, generation);
    assert |codec.digest(header + payload)| == DIGEST_SIZE;
    assert record[..HEADER_SIZE + |payload|] == header + payload;
    assert record[..16] == header[..16] == MAGIC + BigEndian(generation, 8);
    assert record[..8] == header[..8] == MAGIC;
  }

  lemma BodyDecodes(codec: Codec, slot: Bytes, generation: nat, payload: Bytes)
    requires generation < GENERATION_LIMIT && |payload| <= PAYLOAD_LIMIT && |slot| == SLOT_SIZE
    requires slot[..HEADER_SIZE + |payload|] == Header(generation, |payload|) + payload
    requires slot[SLOT_SIZE - DIGEST_SIZE..] == codec.digest(Header(generation, |payload|) + payload)
    ensures Decode(codec, slot) == if codec.text(payload) then Some((generation, payload)) else None
  {
    var header := Header(generation, |payload|);
    var body := slot[..HEADER_SIZE + |payload|];
    assert slot[..HEADER_SIZE] == body[..HEADER_SIZE] == header;
    assert slot[..8] == header[..8] == MAGIC;
    assert slot[8..16] == header[8..16] == BigEndian(generation, 8);
    assert slot[16..18] == header[16..18] == BigEndian(|payload|, 2);
    RangeValues();
    BigEndianRoundTrip(generation, 8);
    BigEndianRoundTrip(|payload|, 2);
    assert slot[HEADER_SIZE..HEADER_SIZE + |payload|] == body[HEADER_SIZE..] == payload;
  }

  /** Decoding inverts encoding; a cursor over the limit survives only as a valid prefix. */
  lemma DecodeInvertsEncode(codec: Codec, cursor: Bytes, generation: nat)
    requires Fits(codec) && generation < GENERATION_LIMIT
    ensures |Encode(codec, cursor, generation)| == SLOT_SIZE
    ensures Decode(codec, Encode(codec, cursor, generation))
         == if codec.text(Payload(cursor)) then Some((generation, Payload(cursor))) else None
  {
    PartsOfRecord(codec, cursor, generation);
    BodyDecodes(codec, Encode(codec, cursor, generation), generation, Payload(cursor));
  }

  // ----- the cursor file -----

  /** Where a slot begins in the file. */
  function Offset(slot: nat): (n: nat)
    ensures n == 1024 * slot
  {
    slot * SLOT_SIZE
  }

  function Slot(data: Bytes, slot: nat): (r: Bytes)
  {
    data[Min(|data|, Offset(slot))..Min(|data|, Offset(slot + 1))]
  }

  datatype Record = Record(generation: nat, slot: nat, cursor: Bytes)

  function RecordAt(codec: Codec, data: Bytes, slot: nat): (r: Option<Record>)
    ensures r.Some? ==> r.value.slot == slot
  {
    match Decode(codec, Slot(data, slot))
    case Some((generation, cursor)) => Some(Record(generation, slot, cursor))
    case None => None
  }

  /** The greatest complete record; of two with the same generation, the second slot's. */
  function Greatest(a: Option<Record>, b: Option<Record>): (r: Option<Record>)
  {
    match (a, b)
    case (Some(first), Some(second)) => if second.generation >= first.generation then b else a
    case (Some(first), None) => a
    case (None, other) => other
  }

  function Newest(codec: Codec, data: Bytes): (r: Option<Record>)
  {
    Greatest(RecordAt(codec, data, 0), RecordAt(codec, data, 1))
  }

  function UpToZero(data: Bytes): (r: Bytes)
  {
    if data == [] || data[0] == 0 then [] else [data[0]] + UpToZero(data[1..])
  }

  function Legacy(codec: Codec, data: Bytes): (r: Bytes)
  {
    var text := UpToZero(data[..Min(|data|, PAYLOAD_LIMIT)]);
    if codec.text(text) then text else []
  }

  function Read(codec: Codec, data: Bytes): (r: Bytes)
  {
    match Newest(codec, data)
    case Some(record) => record.cursor
    case None => Legacy(codec, data)
  }

  /** Positioned write: a gap before it is filled with zeros, what lies after it stays. */
  function WriteAt(data: Bytes, offset: nat, bytes: Bytes): (r: Bytes)
  {
    if bytes == [] then data
    else
      var padded := if |data| < offset then data + Zeros(offset - |data|) else data;
      padded[..offset] + bytes + padded[Min(|padded|, offset + |bytes|)..]
  }

  function NewestGeneration(codec: Codec, data: Bytes): (n: nat)
  {
    match Newest(codec, data) case Some(record) => record.generation case None => 0
  }

  /** The slot that does not hold the newest record. */
  function Spare(newest: Option<Record>): (slot: nat)
    requires newest.Some? ==> newest.value.slot < 2
    ensures slot < 2
  {
    match newest case Some(record) => 1 - record.slot case None => 1
  }

  function TargetSlot(codec: Codec, data: Bytes): (slot: nat)
    ensures slot < 2
  {
    Spare(Newest(codec, data))
  }

  predicate Exhausted(codec: Codec, data: Bytes)
  {
    NewestGeneration(codec, data) >= GENERATION_LIMIT - 1
  }

  /** The record the next write puts in the target slot. */
  function NextRecord(codec: Codec, data: Bytes, cursor: Bytes): (r: Bytes)
  {
    Encode(codec, cursor, NewestGeneration(codec, data) + 1)
  }

  /** The first `count` bytes of the next record reach the file; all of them for a complete write. */
  function Write(codec: Codec, data: Bytes, cursor: Bytes, count: nat): (r: Bytes)
  {
    var record := NextRecord(codec, data, cursor);
    WriteAt(data, Offset(TargetSlot(codec, data)), record[..Min(count, |record|)])
  }

  /** A file shorter than one slot does not begin like a record. */
  predicate WellFormed(data: Bytes)
  {
    |data| >= SLOT_SIZE || !(MAGIC <= data)
  }

  // ----- what a write changes -----

  lemma PaddingIsNoRecord(codec: Codec, data: Bytes)
    requires |data| < SLOT_SIZE && WellFormed(data)
    ensures Decode(codec, data + Zeros(SLOT_SIZE - |data|)).None?
  {
    var padded := data + Zeros(SLOT_SIZE - |data|);
    if |data| < 8 {
      assert padded[..8][7] == 0 && MAGIC[7] == 0x31;
    } else {
      assert padded[..8] == data[..8];
      assert data[..8] != MAGIC;
    }
  }

  lemma SecondSlotKept(data: Bytes, bytes: Bytes, after: Bytes)
    requires |data| >= 2 * SLOT_SIZE && 0 < |bytes| <= SLOT_SIZE && after == WriteAt(data, 0, bytes)
    ensures Slot(after, 1) == Slot(data, 1)
  {
    assert after == bytes + data[|bytes|..] && |after| == |data|;
    assert after[SLOT_SIZE..2 * SLOT_SIZE] == data[SLOT_SIZE..2 * SLOT_SIZE];
  }

  lemma FirstSlotKept(data: Bytes, bytes: Bytes, after: Bytes)
    requires 0 < |bytes| <= SLOT_SIZE && after == WriteAt(data, SLOT_SIZE, bytes)
    ensures Slot(after, 0) == if |data| >= SLOT_SIZE then Slot(data, 0) else data + Zeros(SLOT_SIZE - |data|)
  {
    var padded := if |data| < SLOT_SIZE then data + Zeros(SLOT_SIZE - |data|) else data;
    assert after[..SLOT_SIZE] == padded[..SLOT_SIZE];
  }

  lemma WriteIsWellFormed(data: Bytes, slot: nat, bytes: Bytes)
    requires slot < 2 && 0 < |bytes| && (slot == 0 ==> |data| >= 2 * SLOT_SIZE)
    ensures WellFormed(WriteAt(data, Offset(slot), bytes))
  {
    assert |WriteAt(data, Offset(slot), bytes)| >= SLOT_SIZE;
  }

  lemma SameRecord(codec: Codec, after: Bytes, data: Bytes, slot: nat)
    requires slot < 2
    requires || Slot(after, slot) == Slot(data, slot)
             || (slot == 0 && |data| < SLOT_SIZE && WellFormed(data) && Slot(after, slot) == data + Zeros(SLOT_SIZE - |data|))
    ensures RecordAt(codec, after, slot) == RecordAt(codec, data, slot)
  {
    if Slot(after, slot) != Slot(data, slot) {
      PaddingIsNoRecord(codec, data);
      assert |Slot(data, 0)| < SLOT_SIZE;
    }
  }

  /** A write to one slot leaves the record in the other as it was. */
  lemma OtherSlotKept(codec: Codec, data: Bytes, slot: nat, bytes: Bytes)
    requires slot < 2 && 0 < |bytes| <= SLOT_SIZE && WellFormed(data)
    requires slot == 0 ==> |data| >= 2 * SLOT_SIZE
    ensures RecordAt(codec, WriteAt(data, Offset(slot), bytes), 1 - slot) == RecordAt(codec, data, 1 - slot)
    ensures WellFormed(WriteAt(data, Offset(slot), bytes))
  {
    WriteIsWellFormed(data, slot, bytes);
    var after := WriteAt(data, Offset(slot), bytes);
    if slot == 0 {
      SecondSlotKept(data, bytes, after);
    } else {
      FirstSlotKept(data, bytes, after);
    }
    SameRecord(codec, after, data, 1 - slot);
  }

  lemma {:induction false} ZerosEndText(data: Bytes, n: nat)
    ensures UpToZero(data + Zeros(n)) == UpToZero(data)
  {
    if data == [] {
      assert [] + Zeros(n) == Zeros(n);
    } else if data[0] != 0 {
      ZerosEndText(data[1..], n);
      assert (data + Zeros(n))[1..] == data[1..] + Zeros(n);
    }
  }

  /** Before the first record, a write to the second slot keeps the legacy text readable. */
  lemma LegacyKept(codec: Codec, data: Bytes, bytes: Bytes)
    requires 0 < |bytes|
    ensures Legacy(codec, WriteAt(data, SLOT_SIZE, bytes)) == Legacy(codec, data)
  {
    var after := WriteAt(data, SLOT_SIZE, bytes);
    var before := data[..Min(|data|, PAYLOAD_LIMIT)];
    var prefix := after[..PAYLOAD_LIMIT];
    if |data| >= PAYLOAD_LIMIT {
      assert prefix == before;
    } else {
      assert prefix == before + Zeros(PAYLOAD_LIMIT - |data|);
      ZerosEndText(before, PAYLOAD_LIMIT - |data|);
    }
  }

  lemma NewestNeedsLength(codec: Codec, data: Bytes)
    ensures TargetSlot(codec, data) == 0 ==> |data| >= 2 * SLOT_SIZE
  {
    if TargetSlot(codec, data) == 0 {
      assert RecordAt(codec, data, 1).Some?;
      assert |Slot(data, 1)| == SLOT_SIZE;
    }
  }

  lemma PayloadWithinLimit(codec: Codec, cursor: Bytes, generation: nat)
    requires Fits(codec) && generation < GENERATION_LIMIT && |cursor| <= PAYLOAD_LIMIT && codec.text(cursor)
    ensures |Encode(codec, cursor, generation)| == SLOT_SIZE
    ensures Decode(codec, Encode(codec, cursor, generation)) == Some((generation, cursor))
  {
    DecodeInvertsEncode(codec, cursor, generation);
    assert Payload(cursor) == cursor;
  }

  /** A record of the next generation in the target slot becomes the newest. */
  lemma NewerRecordIsNewest(codec: Codec, data: Bytes, after: Bytes, written: Record)
    requires written.slot == TargetSlot(codec, data) && written.generation == NewestGeneration(codec, data) + 1
    requires RecordAt(codec, after, written.slot) == Some(written)
    requires RecordAt(codec, after, 1 - written.slot) == RecordAt(codec, data, 1 - written.slot)
    ensures Newest(codec, after) == Some(written)
  {
    NewerIsGreatest(RecordAt(codec, data, 0), RecordAt(codec, data, 1), written);
  }

  lemma NewerIsGreatest(a: Option<Record>, b: Option<Record>, written: Record)
    requires (a.Some? ==> a.value.slot == 0) && (b.Some? ==> b.value.slot == 1) && written.slot == Spare(Greatest(a, b))
    requires Greatest(a, b).Some? ==> written.generation == Greatest(a, b).value.generation + 1
    ensures written.slot == 0 ==> Greatest(Some(written), b) == Some(written)
    ensures written.slot == 1 ==> Greatest(a, Some(written)) == Some(written)
  {
  }

  /** Losing the record in the target slot changes neither the newest record nor its generation. */
  lemma LosingTargetIsHarmless(codec: Codec, data: Bytes, after: Bytes, slot: nat)
    requires slot == TargetSlot(codec, data)
    requires RecordAt(codec, after, slot).None? && RecordAt(codec, after, 1 - slot) == RecordAt(codec, data, 1 - slot)
    ensures Newest(codec, after) == Newest(codec, data)
  {
    if slot == 0 {
      LosingFirst(codec, data, after);
    } else {
      LosingSecond(codec, data, after);
    }
  }

  lemma LosingFirst(codec: Codec, data: Bytes, after: Bytes)
    requires RecordAt(codec, after, 0).None? && RecordAt(codec, after, 1) == RecordAt(codec, data, 1)
    requires Spare(Newest(codec, data)) == 0
    ensures Newest(codec, after) == Newest(codec, data)
  {
    LosingTheOther(RecordAt(codec, data, 0), RecordAt(codec, data, 1), 0);
  }

  lemma LosingSecond(codec: Codec, data: Bytes, after: Bytes)
    requires RecordAt(codec, after, 1).None? && RecordAt(codec, after, 0) == RecordAt(codec, data, 0)
    requires Spare(Newest(codec, data)) == 1
    ensures Newest(codec, after) == Newest(codec, data)
  {
    LosingTheOther(RecordAt(codec, data, 0), RecordAt(codec, data, 1), 1);
  }

  lemma LosingTheOther(a: Option<Record>, b: Option<Record>, slot: nat)
    requires (a.Some? ==> a.value.slot == 0) && (b.Some? ==> b.value.slot == 1) && slot == Spare(Greatest(a, b))
    ensures slot == 0 ==> Greatest(None, b) == Greatest(a, b)
    ensures slot == 1 ==> Greatest(a, None) == Greatest(a, b)
  {
  }

  /** The target slot lost its record, or kept it. */
  lemma SpareTargetIsHarmless(codec: Codec, data: Bytes, bytes: Bytes, after: Bytes)
    requires WellFormed(data) && 0 < |bytes| <= SLOT_SIZE
    requires after == WriteAt(data, Offset(TargetSlot(codec, data)), bytes)
    requires var record := RecordAt(codec, after, TargetSlot(codec, data));
             record.None? || record == RecordAt(codec, data, TargetSlot(codec, data))
    ensures WellFormed(after) && Newest(codec, after) == Newest(codec, data) && Read(codec, after) == Read(codec, data)
  {
    NewestNeedsLength(codec, data);
    OtherSlotKept(codec, data, TargetSlot(codec, data), bytes);
    if RecordAt(codec, after, TargetSlot(codec, data)).None? {
      LosingTargetIsHarmless(codec, data, after, TargetSlot(codec, data));
    }
    if Newest(codec, data).None? {
      LegacyKept(codec, data, bytes);
    }
  }

  // ----- torn writes -----

  /** The slot after the first `count` bytes of the record reached it. */
  function Overlay(prior: Bytes, record: Bytes, count: nat): (r: Bytes)
  {
    record[..Min(count, |record|)] + prior[Min(|prior|, Min(count, |record|))..]
  }

  /** The bytes that the write does not reach are the record's own, but for the padding no checksum covers. */
  predicate InPlace(prior: Bytes, record: Bytes, size: nat, count: nat)
    requires |record| == SLOT_SIZE
  {
    || count >= SLOT_SIZE
    || (&& |prior| == SLOT_SIZE
        && forall i :: count <= i < SLOT_SIZE && (i < HEADER_SIZE + size || SLOT_SIZE - DIGEST_SIZE <= i) ==> prior[i] == record[i])
  }

  /** When a write, whole or torn, leaves its record whole in the file. */
  predicate Lands(codec: Codec, data: Bytes, cursor: Bytes, count: nat)
  {
    && codec.text(Payload(cursor)) && |NextRecord(codec, data, cursor)| == SLOT_SIZE
    && InPlace(Slot(data, TargetSlot(codec, data)), NextRecord(codec, data, cursor), |Payload(cursor)|, count)
  }

  lemma {:induction false} BigEndianInverse(data: Bytes)
    ensures BigEndian(FromBigEndian(data), |data|) == data
  {
    if data != [] {
      BigEndianInverse(data[..|data| - 1]);
    }
  }

  predicate SameRecordBytes(slot: Bytes, record: Bytes, size: nat)
    requires |record| == SLOT_SIZE && size <= PAYLOAD_LIMIT
  {
    && |slot| == SLOT_SIZE && slot[..HEADER_SIZE + size] == record[..HEADER_SIZE + size]
    && slot[SLOT_SIZE - DIGEST_SIZE..] == record[SLOT_SIZE - DIGEST_SIZE..]
  }

  lemma DecodedBody(codec: Codec, slot: Bytes)
    requires Decode(codec, slot).Some?
    ensures var (generation, payload) := Decode(codec, slot).value;
            && |slot| == SLOT_SIZE && |payload| <= PAYLOAD_LIMIT
            && slot[..8] == MAGIC && slot[..16] == MAGIC + BigEndian(generation, 8)
            && slot[..HEADER_SIZE + |payload|] == Header(generation, |payload|) + payload
            && slot[SLOT_SIZE - DIGEST_SIZE..] == codec.digest(Header(generation, |payload|) + payload)
  {
    var (generation, payload) := Decode(codec, slot).value;
    BigEndianInverse(slot[8..16]);
    BigEndianInverse(slot[16..18]);
    assert slot[..16] == slot[..8] + slot[8..16];
    assert slot[..HEADER_SIZE] == slot[..16] + slot[16..18] == Header(generation, |payload|);
    assert slot[..HEADER_SIZE + |payload|] == slot[..HEADER_SIZE] + slot[HEADER_SIZE..HEADER_SIZE + |payload|];
  }

  /** A slot decodes as a given record exactly when it agrees with it outside the padding. */
  lemma DecodesAs(codec: Codec, slot: Bytes, cursor: Bytes, generation: nat)
    requires Fits(codec) && generation < GENERATION_LIMIT
    ensures |Encode(codec, cursor, generation)| == SLOT_SIZE
    ensures Decode(codec, slot) == Some((generation, Payload(cursor))) <==>
            codec.text(Payload(cursor)) && SameRecordBytes(slot, Encode(codec, cursor, generation), |Payload(cursor)|)
  {
    PartsOfRecord(codec, cursor, generation);
    if Decode(codec, slot) == Some((generation, Payload(cursor))) {
      DecodedBody(codec, slot);
    }
    if codec.text(Payload(cursor)) && SameRecordBytes(slot, Encode(codec, cursor, generation), |Payload(cursor)|) {
      BodyDecodes(codec, slot, generation, Payload(cursor));
    }
  }

  lemma OverlayMatches(prior: Bytes, record: Bytes, size: nat, count: nat)
    requires |record| == SLOT_SIZE && size <= PAYLOAD_LIMIT && |prior| <= SLOT_SIZE
    ensures SameRecordBytes(Overlay(prior, record, count), record, size) <==> InPlace(prior, record, size, count)
  {
    var torn := Overlay(prior, record, count);
    assert forall i :: 0 <= i < |torn| ==> torn[i] == if i < count then record[i] else prior[i];
    if SameRecordBytes(torn, record, size) && count < SLOT_SIZE {
      forall i | count <= i < SLOT_SIZE && (i < HEADER_SIZE + size || SLOT_SIZE - DIGEST_SIZE <= i) ensures prior[i] == record[i] {
        if i < HEADER_SIZE + size {
          assert torn[..HEADER_SIZE + size][i] == record[..HEADER_SIZE + size][i];
        } else {
          var at := i - (SLOT_SIZE - DIGEST_SIZE);
          assert torn[SLOT_SIZE - DIGEST_SIZE..][at] == record[SLOT_SIZE - DIGEST_SIZE..][at];
        }
      }
    }
  }

  lemma TornSlot(codec: Codec, data: Bytes, cursor: Bytes, count: nat)
    requires |NextRecord(codec, data, cursor)| == SLOT_SIZE
    ensures var slot := TargetSlot(codec, data);
            Slot(Write(codec, data, cursor, count), slot) == Overlay(Slot(data, slot), NextRecord(codec, data, cursor), count)
  {
    NewestNeedsLength(codec, data);
    OverlaidSlot(data, TargetSlot(codec, data), NextRecord(codec, data, cursor), count);
  }

  lemma OverlaidSlot(data: Bytes, slot: nat, record: Bytes, count: nat)
    requires |record| == SLOT_SIZE && slot < 2
    ensures Slot(WriteAt(data, Offset(slot), record[..Min(count, |record|)]), slot) == Overlay(Slot(data, slot), record, count)
  {
    var bytes := record[..Min(count, |record|)];
    if bytes == [] {
      assert Overlay(Slot(data, slot), record, count) == Slot(data, slot);
    } else if |data| < Offset(slot) {
      SlotPastEnd(data, slot, bytes);
    } else {
      SlotInside(data, slot, bytes);
    }
  }

  lemma SlotPastEnd(data: Bytes, slot: nat, bytes: Bytes)
    requires slot < 2 && 0 < |bytes| <= SLOT_SIZE && |data| < Offset(slot)
    ensures Slot(WriteAt(data, Offset(slot), bytes), slot) == bytes && Slot(data, slot) == []
  {
    var start := Offset(slot);
    assert WriteAt(data, start, bytes) == data + Zeros(start - |data|) + bytes;
  }

  lemma SlotInside(data: Bytes, slot: nat, bytes: Bytes)
    requires slot < 2 && 0 < |bytes| <= SLOT_SIZE && Offset(slot) <= |data|
    ensures var prior := Slot(data, slot);
            Slot(WriteAt(data, Offset(slot), bytes), slot) == bytes + prior[Min(|prior|, |bytes|)..]
  {
    var start, prior := Offset(slot), Slot(data, slot);
    var rest := data[Min(|data|, start + |bytes|)..];
    var after := WriteAt(data, start, bytes);
    assert after == data[..start] + (bytes + rest);
    assert after[start..] == bytes + rest;
    assert prior == data[start..][..|prior|];
    var end := Min(|after|, start + SLOT_SIZE);
    assert after[start..end] == after[start..][..end - start];
    assert prior[Min(|prior|, |bytes|)..] == rest[..|prior| - Min(|prior|, |bytes|)];
  }

  lemma OverlayDecodes(codec: Codec, prior: Bytes, cursor: Bytes, generation: nat, count: nat)
    requires Fits(codec) && generation < GENERATION_LIMIT && |prior| <= SLOT_SIZE
    ensures var record := Encode(codec, cursor, generation);
            && |record| == SLOT_SIZE
            && (Decode(codec, Overlay(prior, record, count)) == Some((generation, Payload(cursor))) <==>
                codec.text(Payload(cursor)) && InPlace(prior, record, |Payload(cursor)|, count))
  {
    var record := Encode(codec, cursor, generation);
    DecodesAs(codec, Overlay(prior, record, count), cursor, generation);
    OverlayMatches(prior, record, |Payload(cursor)|, count);
  }

  lemma LandsInSlot(codec: Codec, data: Bytes, after: Bytes, slot: nat, cursor: Bytes, generation: nat, count: nat)
    requires Fits(codec) && generation < GENERATION_LIMIT
    requires Slot(after, slot) == Overlay(Slot(data, slot), Encode(codec, cursor, generation), count)
    ensures |Encode(codec, cursor, generation)| == SLOT_SIZE
    ensures RecordAt(codec, after, slot) == Some(Record(generation, slot, Payload(cursor))) <==>
            codec.text(Payload(cursor)) && InPlace(Slot(data, slot), Encode(codec, cursor, generation), |Payload(cursor)|, count)
  {
    OverlayDecodes(codec, Slot(data, slot), cursor, generation, count);
  }

  /** With no assumption on the checksum: the new record is in the file exactly when the write lands. */
  lemma LandsExactly(codec: Codec, data: Bytes, cursor: Bytes, count: nat)
    requires Fits(codec) && !Exhausted(codec, data)
    ensures var slot := TargetSlot(codec, data);
            RecordAt(codec, Write(codec, data, cursor, count), slot)
              == Some(Record(NewestGeneration(codec, data) + 1, slot, Payload(cursor)))
            <==> Lands(codec, data, cursor, count)
  {
    EncodeFillsSlot(codec, cursor, NewestGeneration(codec, data) + 1);
    TornSlot(codec, data, cursor, count);
    LandsInSlot(codec, data, Write(codec, data, cursor, count), TargetSlot(codec, data), cursor,
                NewestGeneration(codec, data) + 1, count);
  }

  // ----- a torn slot and the record it last held whole -----

  /** The first `k` bytes of a header over the slot `base`. */
  predicate Covers(base: Bytes, slot: Bytes, header: Bytes, k: nat)
  {
    && k <= 16 == |header| && |slot| == SLOT_SIZE == |base|
    && slot[..k] == header[..k] && (k < 16 ==> slot[k..] == base[k..])
  }

  lemma CoversWhole(base: Bytes, slot: Bytes, header: Bytes, k: nat)
    requires Covers(base, slot, header, k)
    ensures k == 16 ==> slot[..16] == header
  {
    assert header[..16] == header;
  }

  ghost predicate Covered(base: Bytes, slot: Bytes, header: Bytes)
  {
    exists k: nat :: Covers(base, slot, header, k)
  }

  function MagicAndGeneration(generation: nat): (r: Bytes)
    ensures |r| == 16
  {
    MAGIC + BigEndian(generation, 8)
  }

  /** The slot holds what the last whole record left, under the beginning of newer ones at most. */
  ghost predicate TornFrom(codec: Codec, base: Bytes, slot: Bytes, newest: nat)
  {
    Decode(codec, base).Some? ==>
      Decode(codec, base).value.0 <= newest && Covered(base, slot, MagicAndGeneration(newest + 1))
  }

  /**
   `base` is what the target slot held when it became the target. Every write since then began
   with the same magic and generation; none has landed.
   */
  ghost predicate Since(codec: Codec, data: Bytes, base: Bytes)
  {
    TornFrom(codec, base, Slot(data, TargetSlot(codec, data)), NewestGeneration(codec, data))
  }

  lemma SinceNow(codec: Codec, data: Bytes)
    ensures Since(codec, data, Slot(data, TargetSlot(codec, data)))
  {
    var base := Slot(data, TargetSlot(codec, data));
    if Decode(codec, base).Some? {
      var header := MagicAndGeneration(NewestGeneration(codec, data) + 1);
      assert base[..0] == header[..0] && base[0..] == base;
      assert Covers(base, base, header, 0);
    }
  }

  /** One more tear over the slot. */
  lemma CoversMore(base: Bytes, slot: Bytes, header: Bytes, k: nat, record: Bytes, count: nat) returns (more: nat)
    requires Covers(base, slot, header, k)
    requires |record| == SLOT_SIZE && record[..16] == header
    ensures more <= 16 && k <= more && Min(count, 16) <= more && (more == k || more == Min(count, 16))
    ensures Covers(base, Overlay(slot, record, count), header, more)
  {
    more := if k < Min(count, 16) then Min(count, 16) else k;
    var torn := Overlay(slot, record, count);
    assert |torn| == SLOT_SIZE;
    forall i | 0 <= i < more ensures torn[i] == header[i] {
      if i < count {
        assert torn[i] == record[i] == record[..16][i];
      } else {
        assert torn[i] == slot[i] == slot[..k][i];
      }
    }
    assert torn[..more] == header[..more];
    if more < 16 {
      forall i | more <= i < SLOT_SIZE ensures torn[i] == base[i] {
        assert torn[i] == slot[i] == slot[k..][i - k] == base[k..][i - k];
      }
      assert torn[more..] == base[more..];
    }
  }

  /** A slot covered by another generation's header shows the old generation only if nothing was changed. */
  lemma OldGenerationIsUntouched(base: Bytes, slot: Bytes, header: Bytes, k: nat)
    requires Covers(base, slot, header, k)
    requires base[..16] != header && slot[..16] == base[..16]
    ensures k < 16 && slot == base && header[..k] == base[..k]
  {
    CoversWhole(base, slot, header, k);
    assert slot[..k] == slot[..16][..k] && base[..k] == base[..16][..k];
    assert slot == slot[..k] + slot[k..] && base == base[..k] + base[k..];
  }

  lemma TearShowsOldRecord(codec: Codec, base: Bytes, slot: Bytes, generation: nat, k: nat, record: Bytes, count: nat)
    requires Decode(codec, base).Some? && Decode(codec, base).value.0 < generation < GENERATION_LIMIT
    requires Covers(base, slot, MagicAndGeneration(generation), k)
    requires |record| == SLOT_SIZE && record[..16] == MagicAndGeneration(generation)
    requires Decode(codec, Overlay(slot, record, count)) == Decode(codec, base)
    ensures Overlay(slot, record, count) == slot
  {
    var header := MagicAndGeneration(generation);
    var torn := Overlay(slot, record, count);
    DecodedBody(codec, base);
    DecodedBody(codec, torn);
    GenerationsDiffer(Decode(codec, base).value.0, generation);
    var more := CoversMore(base, slot, header, k, record, count);
    OldGenerationIsUntouched(base, torn, header, more);
    assert slot[..k] == header[..k] == header[..more][..k] == base[..more][..k] == base[..k];
    assert slot == slot[..k] + slot[k..] && base == base[..k] + base[k..];
  }

  lemma GenerationsDiffer(a: nat, b: nat)
    requires a < b < GENERATION_LIMIT
    ensures MagicAndGeneration(a) != MagicAndGeneration(b)
  {
    RangeValues();
    BigEndianRoundTrip(a, 8);
    BigEndianRoundTrip(b, 8);
    assert MagicAndGeneration(a)[8..] == BigEndian(a, 8) && MagicAndGeneration(b)[8..] == BigEndian(b, 8);
  }

  /**
   What a checksum is for: a slot that passes it holds the record last written whole to that slot,
   or the one being written.
   */
  predicate Vouched(codec: Codec, data: Bytes, base: Bytes, cursor: Bytes, count: nat)
  {
    var found := Decode(codec, Slot(Write(codec, data, cursor, count), TargetSlot(codec, data)));
    found.None? || found == Decode(codec, base) || found == Decode(codec, NextRecord(codec, data, cursor))
  }

  lemma WriteThatLands(codec: Codec, data: Bytes, cursor: Bytes, count: nat)
    requires Fits(codec) && WellFormed(data) && !Exhausted(codec, data) && Lands(codec, data, cursor, count)
    ensures var after := Write(codec, data, cursor, count);
            && WellFormed(after)
            && Newest(codec, after) == Some(Record(NewestGeneration(codec, data) + 1, TargetSlot(codec, data), Payload(cursor)))
  {
    var written := Record(NewestGeneration(codec, data) + 1, TargetSlot(codec, data), Payload(cursor));
    var after := Write(codec, data, cursor, count);
    LandsExactly(codec, data, cursor, count);
    NewestNeedsLength(codec, data);
    var bytes := NextRecord(codec, data, cursor)[..Min(count, SLOT_SIZE)];
    if bytes != [] {
      OtherSlotKept(codec, data, written.slot, bytes);
    }
    NewerRecordIsNewest(codec, data, after, written);
  }

  /** After a complete write of a cursor within the limit, the next read returns it. */
  lemma CompleteWriteIsRead(codec: Codec, data: Bytes, cursor: Bytes)
    requires Fits(codec) && WellFormed(data) && !Exhausted(codec, data)
    requires |cursor| <= PAYLOAD_LIMIT && codec.text(cursor)
    ensures var after := Write(codec, data, cursor, SLOT_SIZE);
            && WellFormed(after)
            && Read(codec, after) == cursor
            && NewestGeneration(codec, after) == NewestGeneration(codec, data) + 1
  {
    EncodeFillsSlot(codec, cursor, NewestGeneration(codec, data) + 1);
    assert Payload(cursor) == cursor;
    WriteThatLands(codec, data, cursor, SLOT_SIZE);
  }

  /** A write that does not land leaves the slot without a record, or exactly as it was. */
  lemma TornTarget(codec: Codec, data: Bytes, base: Bytes, cursor: Bytes, count: nat)
    requires Fits(codec) && !Exhausted(codec, data) && Since(codec, data, base) && Vouched(codec, data, base, cursor, count)
    requires !Lands(codec, data, cursor, count)
    ensures var slot := TargetSlot(codec, data);
            var after := Write(codec, data, cursor, count);
            RecordAt(codec, after, slot).None? || Slot(after, slot) == Slot(data, slot)
  {
    var slot, generation := TargetSlot(codec, data), NewestGeneration(codec, data) + 1;
    var prior, record := Slot(data, slot), NextRecord(codec, data, cursor);
    PartsOfRecord(codec, cursor, generation);
    TornSlot(codec, data, cursor, count);
    LandsExactly(codec, data, cursor, count);
    DecodeInvertsEncode(codec, cursor, generation);
    var torn := Overlay(prior, record, count);
    if Decode(codec, torn).Some? && Decode(codec, torn) == Decode(codec, base) {
      DecodedBody(codec, base);
      var k: nat :| Covers(base, prior, MagicAndGeneration(generation), k);
      TearShowsOldRecord(codec, base, prior, generation, k, record, count);
    }
  }

  lemma SinceAfterTear(codec: Codec, data: Bytes, base: Bytes, cursor: Bytes, count: nat)
    requires Fits(codec) && Since(codec, data, base)
    requires Newest(codec, Write(codec, data, cursor, count)) == Newest(codec, data)
    ensures Since(codec, Write(codec, data, cursor, count), base)
  {
    PartsOfRecord(codec, cursor, NewestGeneration(codec, data) + 1);
    TornSlot(codec, data, cursor, count);
    TornFurther(codec, base, Slot(data, TargetSlot(codec, data)), NewestGeneration(codec, data), NextRecord(codec, data, cursor), count);
  }

  lemma TornFurther(codec: Codec, base: Bytes, slot: Bytes, newest: nat, record: Bytes, count: nat)
    requires TornFrom(codec, base, slot, newest) && |record| == SLOT_SIZE && record[..16] == MagicAndGeneration(newest + 1)
    ensures TornFrom(codec, base, Overlay(slot, record, count), newest)
  {
    if Decode(codec, base).Some? {
      CoveredMore(base, slot, MagicAndGeneration(newest + 1), record, count);
    }
  }

  lemma CoveredMore(base: Bytes, slot: Bytes, header: Bytes, record: Bytes, count: nat)
    requires Covered(base, slot, header) && |record| == SLOT_SIZE && record[..16] == header
    ensures Covered(base, Overlay(slot, record, count), header)
  {
    var k: nat :| Covers(base, slot, header, k);
    var more := CoversMore(base, slot, header, k, record, count);
  }

  /**
   An interrupted write leaves the previous cursor, or the legacy text, in force, unless the bytes
   it did not reach were in place already; then the new cursor is in force, as after a whole write.
   */
  lemma TornWriteIsHarmless(codec: Codec, data: Bytes, base: Bytes, cursor: Bytes, count: nat)
    requires Fits(codec) && WellFormed(data) && !Exhausted(codec, data)
    requires Since(codec, data, base) && Vouched(codec, data, base, cursor, count)
    ensures var after := Write(codec, data, cursor, count);
            && WellFormed(after)
            && (if Lands(codec, data, cursor, count)
                then Read(codec, after) == Payload(cursor) && NewestGeneration(codec, after) == NewestGeneration(codec, data) + 1
                else Read(codec, after) == Read(codec, data) && Newest(codec, after) == Newest(codec, data))
            && Since(codec, after, NextBase(codec, data, base, cursor, count))
  {
    var after := Write(codec, data, cursor, count);
    if Lands(codec, data, cursor, count) {
      WriteThatLands(codec, data, cursor, count);
      SinceNow(codec, after);
    } else {
      var bytes := NextRecord(codec, data, cursor)[..Min(count, |NextRecord(codec, data, cursor)|)];
      EncodeFillsSlot(codec, cursor, NewestGeneration(codec, data) + 1);
      TornTarget(codec, data, base, cursor, count);
      if bytes != [] {
        SpareTargetIsHarmless(codec, data, bytes, after);
      }
      SinceAfterTear(codec, data, base, cursor, count);
    }
  }

  /** What the slot that is now the target held when it became the target. */
  function NextBase(codec: Codec, data: Bytes, base: Bytes, cursor: Bytes, count: nat): Bytes
  {
    var after := Write(codec, data, cursor, count);
    if Lands(codec, data, cursor, count) then Slot(after, TargetSlot(codec, after)) else base
  }

  // ----- what the two kinds of tear look like, and why the checksum is needed -----

  /** A tear inside the magic over an older record changes nothing: that record still passes. */
  lemma TearInsideMagic(codec: Codec, data: Bytes, cursor: Bytes, count: nat)
    requires Fits(codec) && RecordAt(codec, data, TargetSlot(codec, data)).Some? && count <= |MAGIC|
    ensures Write(codec, data, cursor, count) == data
  {
    var slot, record := TargetSlot(codec, data), NextRecord(codec, data, cursor);
    PartsOfRecord(codec, cursor, NewestGeneration(codec, data) + 1);
    DecodedBody(codec, Slot(data, slot));
    MagicFirst(record, count);
    MagicFirst(Slot(data, slot), count);
    RewriteSame(data, slot, record[..count]);
  }

  lemma MagicFirst(slot: Bytes, count: nat)
    requires |slot| >= 16 && slot[..8] == MAGIC && count <= |MAGIC|
    ensures slot[..count] == MAGIC[..count]
  {
    assert slot[..count] == slot[..8][..count];
  }

  lemma RewriteSame(data: Bytes, slot: nat, bytes: Bytes)
    requires slot < 2 && |Slot(data, slot)| == SLOT_SIZE && |bytes| <= SLOT_SIZE && Slot(data, slot)[..|bytes|] == bytes
    ensures WriteAt(data, Offset(slot), bytes) == data
  {
    var start := Offset(slot);
    assert data[start..start + |bytes|] == Slot(data, slot)[..|bytes|];
    assert data == data[..start] + data[start..start + |bytes|] + data[start + |bytes|..];
  }

  lemma NoRecordInZeros(codec: Codec, data: Bytes)
    requires |data| == 2 * SLOT_SIZE && data[0] == 0 && data[SLOT_SIZE] == 0
    ensures Newest(codec, data).None?
  {
    assert Slot(data, 0)[..8][0] == 0 && Slot(data, 1)[..8][0] == 0;
  }

  /** A short write, which the script reports as a failure, can leave the new cursor in force. */
  lemma ShortWriteCanLand(codec: Codec, cursor: Bytes) returns (data: Bytes)
    requires Fits(codec) && |cursor| <= PAYLOAD_LIMIT && codec.text(cursor)
    ensures WellFormed(data) && Newest(codec, data).None?
    ensures Lands(codec, data, cursor, SLOT_SIZE - 1) && Read(codec, Write(codec, data, cursor, SLOT_SIZE - 1)) == cursor
  {
    EncodeFillsSlot(codec, cursor, 1);
    data := Zeros(2 * SLOT_SIZE - 1) + [Encode(codec, cursor, 1)[SLOT_SIZE - 1]];
    NoRecordInZeros(codec, data);
    assert Slot(data, 1)[SLOT_SIZE - 1] == data[2 * SLOT_SIZE - 1];
    assert Payload(cursor) == cursor;
    WriteThatLands(codec, data, cursor, SLOT_SIZE - 1);
  }

  /**
   Without that, a tear can bring back anything: here it repairs a damaged record that nobody
   wrote in this history.
   */
  lemma DamagedRecordCanReturn(codec: Codec, cursor: Bytes, other: Bytes) returns (data: Bytes)
    requires Fits(codec) && |other| <= PAYLOAD_LIMIT && codec.text(other)
    ensures WellFormed(data) && Newest(codec, data).None?
    ensures Read(codec, Write(codec, data, cursor, 1)) == other
  {
    var record := Encode(codec, other, 7);
    PayloadWithinLimit(codec, other, 7);
    data := Zeros(SLOT_SIZE + 1) + record[1..];
    NoRecordInZeros(codec, data);
    RepairedByOneByte(codec, data, cursor, other);
    var after := Write(codec, data, cursor, 1);
    assert Slot(after, 0)[..8][0] == 0;
    assert RecordAt(codec, after, 0).None? && RecordAt(codec, after, 1) == Some(Record(7, 1, other));
  }

  lemma RepairedByOneByte(codec: Codec, data: Bytes, cursor: Bytes, other: Bytes)
    requires Fits(codec) && Newest(codec, data).None? && |Encode(codec, other, 7)| == SLOT_SIZE
    requires data == Zeros(SLOT_SIZE + 1) + Encode(codec, other, 7)[1..]
    ensures Slot(Write(codec, data, cursor, 1), 1) == Encode(codec, other, 7)
  {
    PartsOfRecord(codec, cursor, 1);
    PartsOfRecord(codec, other, 7);
    TornSlot(codec, data, cursor, 1);
    FirstByteRepairs(Encode(codec, other, 7), NextRecord(codec, data, cursor), data);
  }

  lemma FirstByteRepairs(record: Bytes, next: Bytes, data: Bytes)
    requires |record| == |next| == SLOT_SIZE && record[..8] == next[..8] && data == Zeros(SLOT_SIZE + 1) + record[1..]
    ensures Overlay(Slot(data, 1), next, 1) == record
  {
    assert next[0] == next[..8][0] == record[..8][0] == record[0];
    assert Slot(data, 1) == [0] + record[1..];
  }

  // ----- whole histories -----

  /** A write of which `count` bytes reached the file; all of them unless it was interrupted. */
  datatype Attempt = Attempt(cursor: Bytes, count: nat)

  /** The generations last, and what passes the checksum has been written. */
  ghost predicate Plausible(codec: Codec, data: Bytes, base: Bytes, history: seq<Attempt>)
    decreases |history|
  {
    history == [] ||
    var (cursor, count) := (history[0].cursor, history[0].count);
    && !Exhausted(codec, data) && Vouched(codec, data, base, cursor, count)
    && Plausible(codec, Write(codec, data, cursor, count), NextBase(codec, data, base, cursor, count), history[1..])
  }

  function After(codec: Codec, data: Bytes, history: seq<Attempt>): Bytes
    decreases |history|
  {
    if history == [] then data else After(codec, Write(codec, data, history[0].cursor, history[0].count), history[1..])
  }

  /** The cursors of the attempts that left their record whole, in order. */
  function Landed(codec: Codec, data: Bytes, history: seq<Attempt>): (r: seq<Bytes>)
    decreases |history|
  {
    if history == [] then []
    else
      var (cursor, count) := (history[0].cursor, history[0].count);
      (if Lands(codec, data, cursor, count) then [Payload(cursor)] else [])
      + Landed(codec, Write(codec, data, cursor, count), history[1..])
  }

  function LastOf(cursors: seq<Bytes>, otherwise: Bytes): (r: Bytes)
  {
    if cursors == [] then otherwise else cursors[|cursors| - 1]
  }

  lemma {:induction false} LandedSurvive(codec: Codec, data: Bytes, base: Bytes, history: seq<Attempt>)
    requires Fits(codec) && WellFormed(data) && Since(codec, data, base) && Plausible(codec, data, base, history)
    ensures var after := After(codec, data, history);
            var landed := Landed(codec, data, history);
            && Read(codec, after) == LastOf(landed, Read(codec, data))
            && NewestGeneration(codec, after) == NewestGeneration(codec, data) + |landed|
    decreases |history|
  {
    if history != [] {
      var (cursor, count) := (history[0].cursor, history[0].count);
      TornWriteIsHarmless(codec, data, base, cursor, count);
      LandedSurvive(codec, Write(codec, data, cursor, count), NextBase(codec, data, base, cursor, count), history[1..]);
    }
  }

  /**
   Crash safety over every history, with tears anywhere: the file reads as the last write that
   left its record whole, or as it first did, and every such write takes one generation.
   */
  lemma LastCompleteWriteSurvives(codec: Codec, data: Bytes, history: seq<Attempt>)
    requires Fits(codec) && WellFormed(data)
    requires Plausible(codec, data, Slot(data, TargetSlot(codec, data)), history)
    ensures var after := After(codec, data, history);
            var landed := Landed(codec, data, history);
            && Read(codec, after) == LastOf(landed, Read(codec, data))
            && NewestGeneration(codec, after) == NewestGeneration(codec, data) + |landed|
  {
    SinceNow(codec, data);
    LandedSurvive(codec, data, Slot(data, TargetSlot(codec, data)), history);
  }

  // ----- the limit is exact -----

  lemma {:induction false} TextIsNoLonger(data: Bytes)
    ensures |UpToZero(data)| <= |data|
  {
    if data != [] && data[0] != 0 {
      TextIsNoLonger(data[1..]);
    }
  }

  lemma ReadIsBounded(codec: Codec, data: Bytes)
    ensures |Read(codec, data)| <= PAYLOAD_LIMIT
  {
    TextIsNoLonger(data[..Min(|data|, PAYLOAD_LIMIT)]);
  }

  /** A complete write is read back exactly when the cursor is within the payload limit. */
  lemma WriteIsReadBackExactlyWithinLimit(codec: Codec, data: Bytes, cursor: Bytes)
    requires Fits(codec) && WellFormed(data) && !Exhausted(codec, data) && codec.text(cursor)
    ensures Read(codec, Write(codec, data, cursor, SLOT_SIZE)) == cursor <==> |cursor| <= PAYLOAD_LIMIT
  {
    DecodeInvertsEncode(codec, cursor, NewestGeneration(codec, data) + 1);
    if |cursor| <= PAYLOAD_LIMIT {
      CompleteWriteIsRead(codec, data, cursor);
    } else {
      ReadIsBounded(codec, Write(codec, data, cursor, SLOT_SIZE));
    }
  }

  // ----- the file operations -----

  datatype WriteResult = Written | Short | GenerationsExhausted

  class CursorFile {
    var data: Bytes

    /** `cursor_records`: every slot that holds a complete record. */
    method CursorRecords(codec: Codec) returns (records: seq<Record>)
      ensures records == Found(RecordAt(codec, data, 0)) + Found(RecordAt(codec, data, 1))
    {
      records := [];
      for slot := 0 to 2
        invariant records == (if slot > 0 then Found(RecordAt(codec, data, 0)) else [])
                           + (if slot > 1 then Found(RecordAt(codec, data, 1)) else [])
      {
        var decoded := Decode(codec, Slot(data, slot));
        if decoded.Some? {
          records := records + [Record(decoded.value.0, slot, decoded.value.1)];
        }
      }
    }

    method NewestRecord(codec: Codec) returns (newest: Option<Record>)
      ensures newest == Newest(codec, data)
    {
      var records := CursorRecords(codec);
      newest := None;
      for i := 0 to |records|
        invariant |records| <= 2
        invariant i == 0 ==> newest == None
        invariant i == 1 ==> newest == Some(records[0])
        invariant i == 2 ==> newest == Greatest(Some(records[0]), Some(records[1]))
      {
        if newest.None? || records[i].generation > newest.value.generation
           || (records[i].generation == newest.value.generation && records[i].slot > newest.value.slot) {
          newest := Some(records[i]);
        }
      }
    }

    method ReadCursor(codec: Codec) returns (cursor: Bytes)
      ensures cursor == Read(codec, data)
    {
      var newest := NewestRecord(codec);
      cursor := if newest.Some? then newest.value.cursor else Legacy(codec, data);
    }

    /** `accepted` is how many of the record's bytes the operating system takes. */
    method WriteCursor(codec: Codec, cursor: Bytes, accepted: nat) returns (result: WriteResult)
      requires Fits(codec)
      modifies this
      ensures result.GenerationsExhausted? <==> Exhausted(codec, old(data))
      ensures result.GenerationsExhausted? ==> data == old(data)
      ensures !result.GenerationsExhausted? ==> data == Write(codec, old(data), cursor, accepted)
      ensures !result.GenerationsExhausted? ==> (result.Written? <==> accepted >= SLOT_SIZE)
    {
      var newest := NewestRecord(codec);
      var generation, slot := 0, 1;
      if newest.Some? {
        generation, slot := newest.value.generation, 1 - newest.value.slot;
      }
      assert generation == NewestGeneration(codec, data) && slot == TargetSlot(codec, data);
      if generation >= GENERATION_LIMIT - 1 {
        return GenerationsExhausted;
      }
      EncodeFillsSlot(codec, cursor, generation + 1);
      var record := Encode(codec, cursor, generation + 1);
      data := WriteAt(data, Offset(slot), record[..Min(accepted, SLOT_SIZE)]);
      result := if accepted < |record| then Short else Written;
    }
  }

  function Found(record: Option<Record>): (r: seq<Record>)
  {
    match record case Some(value) => [value] case None => []
  }
}
