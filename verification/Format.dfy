/** The snapshot wire format: epoch arithmetic, integer encodings, the framing of an epoch body, and the
    fixed-width digest row kept beside the blocks. */
module Format {
  import opened Base

  // ---- Epoch arithmetic ----

  const EPOCH_SIZE: nat := 10_000
  const FORMAT_VERSION: nat := 1

  /** First height of the one epoch whose bounds saturate. No block height comes near it. */
  const HEIGHT_LIMIT: nat := (U64_MAX / EPOCH_SIZE) * EPOCH_SIZE

  function EpochIndex(height: nat): nat { height / EPOCH_SIZE }

  /** `saturating_mul`. */
  function EpochFirst(index: nat): nat { Min(index * EPOCH_SIZE, U64_MAX) }

  /** `saturating_add`. */
  function EpochLast(index: nat): nat { Min(EpochFirst(index) + (EPOCH_SIZE - 1), U64_MAX) }

  /** Below the saturating epoch, an epoch's bounds hold exactly the heights that index to it. */
  lemma EpochHolds(height: nat, index: nat)
    requires height < HEIGHT_LIMIT
    ensures EpochIndex(height) == index <==> EpochFirst(index) <= height <= EpochLast(index)
  {
  }

  /** Consecutive epochs meet without a gap or an overlap. */
  lemma EpochsMeet(index: nat)
    requires EpochLast(index) < HEIGHT_LIMIT
    ensures EpochFirst(index) + EPOCH_SIZE - 1 == EpochLast(index)
    ensures EpochFirst(index + 1) == EpochLast(index) + 1
  {
  }

  // ---- Fixed-width integers ----

  function Pow256(width: nat): nat { if width == 0 then 1 else 256 * Pow256(width - 1) }

  function LittleEndian(n: nat, width: nat): (r: Bytes)
    ensures |r| == width
  {
    if width == 0 then [] else [n % 256] + LittleEndian(n / 256, width - 1)
  }

  function FromLittleEndian(bytes: Bytes): nat {
    if bytes == [] then 0 else bytes[0] + 256 * FromLittleEndian(bytes[1..])
  }

  function BigEndian(n: nat, width: nat): (r: Bytes)
    ensures |r| == width
  {
    if width == 0 then [] else BigEndian(n / 256, width - 1) + [n % 256]
  }

  lemma {:induction false} LittleEndianRoundTrip(n: nat, width: nat)
    requires n < Pow256(width)
    ensures FromLittleEndian(LittleEndian(n, width)) == n
  {
    if width > 0 {
      LittleEndianRoundTrip(n / 256, width - 1);
      assert LittleEndian(n, width)[1..] == LittleEndian(n / 256, width - 1);
    }
  }

  lemma {:induction false} FromLittleEndianRoundTrip(bytes: Bytes)
    ensures FromLittleEndian(bytes) < Pow256(|bytes|)
    ensures LittleEndian(FromLittleEndian(bytes), |bytes|) == bytes
  {
    if bytes != [] {
      FromLittleEndianRoundTrip(bytes[1..]);
      var rest := FromLittleEndian(bytes[1..]);
      assert (bytes[0] + 256 * rest) / 256 == rest;
      assert bytes == [bytes[0]] + bytes[1..];
    }
  }

  /** The first byte counts least: one more at the end weighs 256 times what the last one did. */
  lemma {:induction false} LaterBytesWeighMore(bytes: Bytes, last: byte)
    ensures FromLittleEndian([]) == 0
    ensures FromLittleEndian(bytes + [last]) == FromLittleEndian(bytes) + Pow256(|bytes|) * last
  {
    if bytes == [] {
      assert [last][1..] == [];
    } else {
      var tail := bytes[1..];
      assert (bytes + [last])[1..] == tail + [last];
      LaterBytesWeighMore(tail, last);
      assert 256 * (Pow256(|tail|) * last) == Pow256(|bytes|) * last;
    }
  }

  /** Big-endian is little-endian read backwards. */
  lemma {:induction false} BigIsLittleReversed(n: nat, width: nat, i: nat)
    requires i < width
    ensures BigEndian(n, width)[width - 1 - i] == LittleEndian(n, width)[i]
    decreases width
  {
    if i > 0 {
      BigIsLittleReversed(n / 256, width - 1, i - 1);
    }
  }

  lemma WidthBounds()
    ensures Pow256(1) == 256 && Pow256(4) == U32_MAX + 1 && Pow256(8) == U64_MAX + 1
  {
    assert Pow256(2) == 0x1_0000;
    assert Pow256(4) == 0x1_0000_0000;
    assert Pow256(6) == 0x1_0000_0000_0000;
  }

  lemma U64RoundTrip(n: u64)
    ensures FromLittleEndian(LittleEndian(n, 8)) == n
  {
    WidthBounds();
    LittleEndianRoundTrip(n, 8);
  }

  // ---- UTF-8, as `str::from_utf8` accepts it ----

  predicate Continues(bytes: Bytes, at: nat, lo: nat, hi: nat) {
    at < |bytes| && lo <= bytes[at] <= hi
  }

  /** Length of the well-formed sequence at the front, or 0 if there is none. */
  function Utf8Sequence(bytes: Bytes): (n: nat)
    requires bytes != []
    ensures n <= |bytes|
  {
    var b := bytes[0];
    if b < 0x80 then 1
    else if 0xC2 <= b <= 0xDF then
      if Continues(bytes, 1, 0x80, 0xBF) then 2 else 0
    else if 0xE0 <= b <= 0xEF then
      var lo, hi := if b == 0xE0 then 0xA0 else 0x80, if b == 0xED then 0x9F else 0xBF;
      if Continues(bytes, 1, lo, hi) && Continues(bytes, 2, 0x80, 0xBF) then 3 else 0
    else if 0xF0 <= b <= 0xF4 then
      var lo, hi := if b == 0xF0 then 0x90 else 0x80, if b == 0xF4 then 0x8F else 0xBF;
      if Continues(bytes, 1, lo, hi) && Continues(bytes, 2, 0x80, 0xBF) && Continues(bytes, 3, 0x80, 0xBF)
      then 4 else 0
    else 0
  }

  predicate ValidUtf8(bytes: Bytes)
    decreases |bytes|
  {
    bytes == [] || (var n := Utf8Sequence(bytes); n > 0 && ValidUtf8(bytes[n..]))
  }

  predicate Ascii(bytes: Bytes) {
    forall i :: 0 <= i < |bytes| ==> bytes[i] < 0x80
  }

  lemma {:induction false} AsciiIsUtf8(bytes: Bytes)
    requires Ascii(bytes)
    ensures ValidUtf8(bytes)
    decreases |bytes|
  {
    if bytes != [] {
      AsciiIsUtf8(bytes[1..]);
    }
  }

  // ---- Epoch bodies ----

  /** `LWDSNAP` followed by the format version. */
  const MAGIC: Bytes := [0x4C, 0x57, 0x44, 0x53, 0x4E, 0x41, 0x50, 0x01]

  datatype FormatError = Malformed | InvalidChain

  datatype EpochHeader = EpochHeader(chain: Bytes, start: u64, count: u32)

  /** A chain name, as its UTF-8 bytes, that `write_header` agrees to carry. */
  predicate ValidChain(chain: Bytes) {
    chain != [] && Ascii(chain) && |chain| <= 255
  }

  function HeaderBytes(chain: Bytes, start: u64, count: u32): Bytes
    requires |chain| <= 255
  {
    MAGIC + [|chain|] + chain + LittleEndian(start, 8) + LittleEndian(count, 4)
  }

  function WriteHeader(chain: Bytes, start: u64, count: u32): Result<Bytes, FormatError> {
    if !ValidChain(chain) then Err(InvalidChain) else Ok(HeaderBytes(chain, start, count))
  }

  function RecordBytes(record: Bytes): Bytes { LittleEndian(|record|, 4) + record }

  function WriteRecord(record: Bytes): Result<Bytes, FormatError> {
    if |record| > U32_MAX then Err(Malformed) else Ok(RecordBytes(record))
  }

  function RecordsBytes(records: seq<Bytes>): Bytes {
    if records == [] then [] else RecordBytes(records[0]) + RecordsBytes(records[1..])
  }

  predicate Encodable(records: seq<Bytes>) {
    && |records| <= U32_MAX
    && forall i :: 0 <= i < |records| ==> |records[i]| <= U32_MAX
  }

  /** The body of an epoch whose first record is at height `start`. */
  function EpochBody(chain: Bytes, start: u64, records: seq<Bytes>): Bytes
    requires |chain| <= 255 && |records| <= U32_MAX
  {
    HeaderBytes(chain, start, |records|) + RecordsBytes(records)
  }

  lemma {:induction false} RecordsAppend(records: seq<Bytes>, record: Bytes)
    ensures RecordsBytes(records + [record]) == RecordsBytes(records) + RecordBytes(record)
  {
    if records == [] {
      assert records + [record] == [record];
      assert RecordsBytes([record][1..]) == [];
    } else {
      assert (records + [record])[1..] == records[1..] + [record];
      RecordsAppend(records[1..], record);
    }
  }

  lemma {:induction false} RecordsBounded(records: seq<Bytes>)
    requires Encodable(records)
    ensures |RecordsBytes(records)| <= |records| * (U32_MAX + 4)
  {
    if records != [] {
      RecordsBounded(records[1..]);
    }
  }

  /** What is left of `rest` after `count` length-prefixed records, with the records. */
  function ParseRecords(rest: Bytes, count: nat): Option<(seq<Bytes>, Bytes)> {
    if count == 0 then Some(([], rest))
    else if |rest| < 4 then None
    else
      var length := FromLittleEndian(rest[..4]);
      if |rest| - 4 < length then None
      else
        match ParseRecords(rest[4 + length..], count - 1)
        case None => None
        case Some((records, tail)) => Some(([rest[4..4 + length]] + records, tail))
  }

  /** `parse_epoch`: the header and the records, provided nothing is short and nothing is left over. */
  function ParseEpoch(body: Bytes): Result<(EpochHeader, seq<Bytes>), FormatError> {
    if |body| < 9 || body[..8] != MAGIC then Err(Malformed)
    else
      var n: nat := body[8];
      if |body| < 9 + n + 12 || !ValidUtf8(body[9..9 + n]) then Err(Malformed)
      else
        WidthBounds();
        FromLittleEndianRoundTrip(body[9 + n..17 + n]);
        FromLittleEndianRoundTrip(body[17 + n..21 + n]);
        var start := FromLittleEndian(body[9 + n..17 + n]);
        var count := FromLittleEndian(body[17 + n..21 + n]);
        match ParseRecords(body[21 + n..], count)
        case Some((records, tail)) =>
          if tail == [] then Ok((EpochHeader(body[9..9 + n], start, count), records)) else Err(Malformed)
        case None => Err(Malformed)
  }

  /** Where everything stands in an epoch body: the magic bytes of version one, the length of the chain name and the
      name, the first height, the record count, and the records. */
  lemma BodyLayout(chain: Bytes, start: u64, records: seq<Bytes>)
    requires |chain| <= 255 && |records| <= U32_MAX
    ensures var body, n := EpochBody(chain, start, records), |chain|;
            && |body| >= 21 + n
            && body[..8] == [0x4C, 0x57, 0x44, 0x53, 0x4E, 0x41, 0x50, 0x01]
            && body[8] == n && body[9..9 + n] == chain
            && body[9 + n..17 + n] == LittleEndian(start, 8) && body[17 + n..21 + n] == LittleEndian(|records|, 4)
            && body[21 + n..] == RecordsBytes(records)
  {
    HeaderFields(chain, start, |records|, RecordsBytes(records));
  }

  /** A record is its length in four bytes and its payload, one after the other. */
  lemma RecordsLayout(records: seq<Bytes>, record: Bytes)
    ensures RecordsBytes([]) == []
    ensures RecordsBytes(records + [record]) == RecordsBytes(records) + (LittleEndian(|record|, 4) + record)
  {
    RecordsAppend(records, record);
  }

  lemma U32RoundTrip(n: u32)
    ensures FromLittleEndian(LittleEndian(n, 4)) == n
  {
    WidthBounds();
    LittleEndianRoundTrip(n, 4);
  }

  lemma U32Bytes(bytes: Bytes)
    requires |bytes| == 4
    ensures FromLittleEndian(bytes) <= U32_MAX && LittleEndian(FromLittleEndian(bytes), 4) == bytes
  {
    WidthBounds();
    FromLittleEndianRoundTrip(bytes);
  }

  lemma RecordFields(record: Bytes, more: Bytes)
    ensures var rest := RecordBytes(record) + more;
            && |rest| == 4 + |record| + |more|
            && rest[..4] == LittleEndian(|record|, 4)
            && rest[4..4 + |record|] == record && rest[4 + |record|..] == more
  {
  }

  lemma {:induction false} ParseRecordsUndoes(records: seq<Bytes>, tail: Bytes)
    requires Encodable(records)
    ensures ParseRecords(RecordsBytes(records) + tail, |records|) == Some((records, tail))
  {
    if records == [] {
      assert RecordsBytes(records) + tail == tail;
    } else {
      var first, more := records[0], RecordsBytes(records[1..]) + tail;
      ParseRecordsUndoes(records[1..], tail);
      ParseFirst(first, more, records[1..], tail);
      RecordsSplit(records, tail);
      assert records == [first] + records[1..];
    }
  }

  lemma RecordsSplit(records: seq<Bytes>, tail: Bytes)
    requires records != []
    ensures RecordsBytes(records) + tail == RecordBytes(records[0]) + (RecordsBytes(records[1..]) + tail)
  {
    Assoc(RecordBytes(records[0]), RecordsBytes(records[1..]), tail);
  }

  lemma ParseFirst(first: Bytes, more: Bytes, records: seq<Bytes>, tail: Bytes)
    requires |first| <= U32_MAX && ParseRecords(more, |records|) == Some((records, tail))
    ensures ParseRecords(RecordBytes(first) + more, |records| + 1) == Some(([first] + records, tail))
  {
    U32RoundTrip(|first|);
    RecordFields(first, more);
  }

  lemma {:induction false} RecordsParseBack(rest: Bytes, count: nat, records: seq<Bytes>, tail: Bytes)
    requires ParseRecords(rest, count) == Some((records, tail))
    ensures |records| == count
    ensures rest == RecordsBytes(records) + tail
    ensures forall i :: 0 <= i < |records| ==> |records[i]| <= U32_MAX
    decreases count
  {
    if count > 0 {
      var length := FromLittleEndian(rest[..4]);
      U32Bytes(rest[..4]);
      var inner, first, more := rest[4 + length..], rest[4..4 + length], records[1..];
      assert ParseRecords(inner, count - 1).value.0 == more;
      RecordsParseBack(inner, count - 1, more, tail);
      assert rest[..4] == LittleEndian(|first|, 4);
      RecordsFront(rest, first, more, tail);
      assert records == [first] + more;
    }
  }

  lemma RecordsFront(rest: Bytes, first: Bytes, more: seq<Bytes>, tail: Bytes)
    requires |rest| >= 4 + |first| && rest[..4] == LittleEndian(|first|, 4) && rest[4..4 + |first|] == first
    requires rest[4 + |first|..] == RecordsBytes(more) + tail
    ensures rest == RecordsBytes([first] + more) + tail
  {
    assert ([first] + more)[1..] == more;
    assert rest == RecordBytes(first) + rest[4 + |first|..];
  }

  lemma HeaderFields(chain: Bytes, start: u64, count: u32, rest: Bytes)
    requires |chain| <= 255
    ensures var body := HeaderBytes(chain, start, count) + rest;
            var n := |chain|;
            && |body| == 21 + n + |rest|
            && body[..8] == MAGIC && body[8] == n && body[9..9 + n] == chain
            && body[9 + n..17 + n] == LittleEndian(start, 8)
            && body[17 + n..21 + n] == LittleEndian(count, 4)
            && body[21 + n..] == rest
  {
  }

  lemma ParseHeader(chain: Bytes, start: u64, records: seq<Bytes>, rest: Bytes)
    requires |chain| <= 255 && |records| <= U32_MAX && ValidUtf8(chain)
    requires ParseRecords(rest, |records|) == Some((records, []))
    ensures ParseEpoch(HeaderBytes(chain, start, |records|) + rest)
         == Ok((EpochHeader(chain, start, |records|), records))
  {
    HeaderFields(chain, start, |records|, rest);
    U64RoundTrip(start);
    U32RoundTrip(|records|);
  }

  /** Parsing gives back exactly what was written, for every chain name and record list that can be. */
  lemma ParseUndoesWrite(chain: Bytes, start: u64, records: seq<Bytes>)
    requires ValidChain(chain) && Encodable(records)
    ensures ParseEpoch(EpochBody(chain, start, records)) == Ok((EpochHeader(chain, start, |records|), records))
  {
    var rest := RecordsBytes(records);
    AsciiIsUtf8(chain);
    ParseRecordsUndoes(records, []);
    assert rest + [] == rest;
    ParseHeader(chain, start, records, rest);
  }

  /** An accepted body is the one its parts serialize to, byte for byte. Only the writer's refusal of an
      empty or non-ASCII chain name stands between the two. */
  lemma WriteUndoesParse(body: Bytes)
    requires ParseEpoch(body).Ok?
    ensures var (header, records) := ParseEpoch(body).value;
            && |records| == header.count && Encodable(records) && |header.chain| <= 255
            && body == EpochBody(header.chain, header.start, records)
            && (WriteHeader(header.chain, header.start, header.count).Ok?
                <==> header.chain != [] && Ascii(header.chain))
  {
    var (header, records) := ParseEpoch(body).value;
    var n: nat := body[8];
    RecordsParseBack(body[21 + n..], header.count, records, []);
    FromLittleEndianRoundTrip(body[9 + n..17 + n]);
    U32Bytes(body[17 + n..21 + n]);
    assert body[21 + n..] == RecordsBytes(records);
    SplitBody(body, n);
  }

  lemma SplitBody(body: Bytes, n: nat)
    requires |body| >= 21 + n
    ensures body == body[..8] + [body[8]] + body[9..9 + n] + body[9 + n..17 + n] + body[17 + n..21 + n] + body[21 + n..]
  {
    assert body == body[..8] + [body[8]] + body[9..9 + n] + body[9 + n..17 + n] + body[17 + n..21 + n] + body[21 + n..];
  }

  /** An offset into a body that only moves forward, and never past the end. */
  class Cursor {
    const body: Bytes
    var offset: nat

    constructor (body: Bytes)
      ensures this.body == body && offset == 0
    {
      this.body := body;
      offset := 0;
    }

    method Take(length: nat) returns (taken: Option<Bytes>)
      requires offset <= |body|
      modifies this
      ensures old(offset) <= offset <= |body|
      ensures taken.Some? <==> old(offset) + length <= |body|
      ensures taken.Some? ==> offset == old(offset) + length && taken.value == body[old(offset)..offset]
      ensures taken.None? ==> offset == old(offset)
    {
      var end := offset + length;
      if end > |body| {
        return None;
      }
      taken := Some(body[offset..end]);
      offset := end;
    }
  }

  lemma {:induction false} ParseRecordsFrom(rest: Bytes, done: nat, count: nat, records: seq<Bytes>, tail: Bytes)
    requires done <= count && ParseRecords(rest, done) == Some((records, tail))
    ensures ParseRecords(rest, count) ==
            match ParseRecords(tail, count - done)
            case None => None
            case Some((more, end)) => Some((records + more, end))
    decreases done
  {
    if done == 0 {
      assert forall more: seq<Bytes> :: [] + more == more;
    } else {
      var length := FromLittleEndian(rest[..4]);
      var inner := rest[4 + length..];
      ParseRecordsFrom(inner, done - 1, count - 1, records[1..], tail);
      if ParseRecords(tail, count - done).Some? {
        var more := ParseRecords(tail, count - done).value.0;
        assert [records[0]] + (records[1..] + more) == records + more;
      }
    }
  }

  method ReadRecords(cursor: Cursor, count: nat) returns (r: Option<seq<Bytes>>)
    requires cursor.offset <= |cursor.body|
    modifies cursor
    ensures cursor.offset <= |cursor.body|
    ensures r.Some? <==> ParseRecords(cursor.body[old(cursor.offset)..], count).Some?
    ensures r.Some? ==> ParseRecords(cursor.body[old(cursor.offset)..], count)
                        == Some((r.value, cursor.body[cursor.offset..]))
  {
    var records: seq<Bytes> := [];
    ghost var whole := cursor.body[cursor.offset..];
    for i := 0 to count
      invariant cursor.offset <= |cursor.body|
      invariant ParseRecords(whole, i) == Some((records, cursor.body[cursor.offset..]))
    {
      ghost var tail := cursor.body[cursor.offset..];
      ParseRecordsFrom(whole, i, i + 1, records, tail);
      ParseRecordsFrom(whole, i, count, records, tail);
      var prefix := cursor.Take(4);
      if prefix.None? {
        return None;
      }
      assert prefix.value == tail[..4];
      var length := FromLittleEndian(prefix.value);
      var record := cursor.Take(length);
      if record.None? {
        return None;
      }
      assert record.value == tail[4..4 + length];
      assert cursor.body[cursor.offset..] == tail[4 + length..];
      assert ParseRecords(tail[4 + length..], 0) == Some(([], tail[4 + length..]));
      assert [record.value] + [] == [record.value];
      assert ParseRecords(tail, 1) == Some(([record.value], tail[4 + length..]));
      records := records + [record.value];
    }
    r := Some(records);
  }

  /** `parse_epoch`, reading forward through a cursor. */
  method ReadEpoch(body: Bytes) returns (r: Result<(EpochHeader, seq<Bytes>), FormatError>)
    ensures r == ParseEpoch(body)
  {
    var cursor := new Cursor(body);
    var magic := cursor.Take(8);
    if magic.None? || magic.value != MAGIC {
      return Err(Malformed);
    }
    var size := cursor.Take(1);
    if size.None? {
      return Err(Malformed);
    }
    var chain := cursor.Take(size.value[0]);
    if chain.None? || !ValidUtf8(chain.value) {
      return Err(Malformed);
    }
    var start := cursor.Take(8);
    if start.None? {
      return Err(Malformed);
    }
    var count := cursor.Take(4);
    if count.None? {
      return Err(Malformed);
    }
    WidthBounds();
    FromLittleEndianRoundTrip(start.value);
    FromLittleEndianRoundTrip(count.value);
    var header := EpochHeader(chain.value, FromLittleEndian(start.value), FromLittleEndian(count.value));
    var records := ReadRecords(cursor, header.count);
    if records.None? || cursor.offset != |body| {
      return Err(Malformed);
    }
    r := Ok((header, records.value));
  }

  // ---- Digest rows ----

  datatype EpochDigest = EpochDigest(start: u64, end: u64, bytes: u64, content: Bytes, anchor: Bytes)
  {
    predicate Valid() { |content| == 32 && |anchor| == 32 }
  }

  function EncodeDigest(d: EpochDigest): Bytes {
    LittleEndian(d.start, 8) + LittleEndian(d.end, 8) + LittleEndian(d.bytes, 8) + d.content + d.anchor
  }

  function DecodeDigest(row: Bytes): Option<EpochDigest> {
    if |row| != 88 then None
    else
      WidthBounds();
      FromLittleEndianRoundTrip(row[..8]);
      FromLittleEndianRoundTrip(row[8..16]);
      FromLittleEndianRoundTrip(row[16..24]);
      Some(EpochDigest(FromLittleEndian(row[..8]), FromLittleEndian(row[8..16]), FromLittleEndian(row[16..24]),
                       row[24..56], row[56..]))
  }

  lemma DigestRoundTrip(d: EpochDigest)
    requires d.Valid()
    ensures |EncodeDigest(d)| == 88 && DecodeDigest(EncodeDigest(d)) == Some(d)
  {
    var row := EncodeDigest(d);
    WidthBounds();
    LittleEndianRoundTrip(d.start, 8);
    LittleEndianRoundTrip(d.end, 8);
    LittleEndianRoundTrip(d.bytes, 8);
    assert row[..8] == LittleEndian(d.start, 8);
    assert row[8..16] == LittleEndian(d.end, 8);
    assert row[16..24] == LittleEndian(d.bytes, 8);
    assert row[24..56] == d.content;
    assert row[56..] == d.anchor;
  }

  /** Where everything stands in a row. */
  lemma DigestLayout(d: EpochDigest)
    requires d.Valid()
    ensures var row := EncodeDigest(d);
            && |row| == 88
            && row[..8] == LittleEndian(d.start, 8) && row[8..16] == LittleEndian(d.end, 8) && row[16..24] == LittleEndian(d.bytes, 8)
            && row[24..56] == d.content && row[56..] == d.anchor
  {
  }

  /** Every 88-byte row is some digest's encoding, and nothing else decodes. */
  lemma RowRoundTrip(row: Bytes)
    ensures DecodeDigest(row).Some? <==> |row| == 88
    ensures |row| == 88 ==> DecodeDigest(row).value.Valid() && EncodeDigest(DecodeDigest(row).value) == row
  {
    if |row| == 88 {
      FieldRoundTrip(row[..8]);
      FieldRoundTrip(row[8..16]);
      FieldRoundTrip(row[16..24]);
      Partition(row);
    }
  }

  lemma FieldRoundTrip(x: Bytes)
    requires |x| == 8
    ensures LittleEndian(FromLittleEndian(x), 8) == x
  {
    FromLittleEndianRoundTrip(x);
  }

  lemma Partition(row: Bytes)
    requires |row| == 88
    ensures row[..8] + row[8..16] + row[16..24] + row[24..56] + row[56..] == row
  {
  }

  /** `to_be_bytes` of a height. */
  function HeightBytes(height: nat): Bytes { BigEndian(height, 8) }

  /** What the anchor hasher has been fed after the blocks from `start` on: `height_be || hash` each. */
  function AnchorInput(start: nat, hashes: seq<Bytes>): Bytes
    decreases hashes
  {
    if hashes == [] then []
    else HeightBytes(start) + hashes[0] + AnchorInput(start + 1, hashes[1..])
  }

  lemma {:induction false} AnchorAppend(start: nat, hashes: seq<Bytes>, hash: Bytes)
    ensures AnchorInput(start, hashes + [hash])
         == AnchorInput(start, hashes) + (HeightBytes(start + |hashes|) + hash)
    decreases hashes
  {
    if hashes == [] {
      assert hashes + [hash] == [hash];
      assert AnchorInput(start + 1, [hash][1..]) == [];
    } else {
      var first, tail := HeightBytes(start) + hashes[0], hashes[1..];
      assert (hashes + [hash])[1..] == tail + [hash];
      AnchorAppend(start + 1, tail, hash);
      Assoc(first, AnchorInput(start + 1, tail), HeightBytes(start + |hashes|) + hash);
    }
  }
}
