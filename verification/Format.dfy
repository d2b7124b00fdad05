/** The Binary Wire Journal format: 64-byte file header, 64-byte record
    headers, bounded payloads (internal/evidence/bwj.go). */
module Format {
  import opened Wrappers
  import opened Bytes
  import opened Ids

  const FILE_HEADER_SIZE: nat := 64
  const RECORD_HEADER_SIZE: nat := 64
  const MAX_DATA_PAYLOAD: nat := 65536
  const VERSION: byte := 1

  const FILE_MAGIC: Bytes := Text("NAIHBWJ1")
  const RECORD_MAGIC: Bytes := Text("BWJR")

  const CONNECTION_OPEN: byte := 1
  const DATA: byte := 2
  const CONNECTION_CLOSE: byte := 3
  const PARSER_ERROR: byte := 4
  const LIMIT_REACHED: byte := 5

  const NOT_APPLICABLE: byte := 0
  const INBOUND: byte := 1
  const OUTBOUND: byte := 2

  const FLAG_PARSER_FAILED: byte := 0x02
  const FLAG_STREAMING: byte := 0x04
  const FLAG_LIMIT: byte := 0x08

  /** What a caller asks the journal to record. */
  datatype Draft = Draft(kind: byte, direction: byte, flags: byte, connection: ID, request: ID, payload: Bytes)

  /** A draft as it stands in a file: stamped and numbered. */
  datatype Record = Record(draft: Draft, stamp: int64, number: uint64)

  datatype FileHeader = FileHeader(created: int64, run: ID, sequence: uint64)

  datatype LogFile = LogFile(header: FileHeader, records: seq<Record>)

  /** The bits of 0xf0 are clear. */
  predicate FlagsAllowed(flags: byte) {
    flags / 16 == 0
  }

  /** validatePayload: None when the payload fits its record type. */
  predicate PayloadAllowed(kind: byte, length: nat) {
    if kind == CONNECTION_OPEN then length == 0
    else if kind == DATA then length <= MAX_DATA_PAYLOAD
    else if kind == CONNECTION_CLOSE then length == 2
    else if kind == PARSER_ERROR || kind == LIMIT_REACHED then length == 10
    else false
  }

  predicate DirectionAllowed(kind: byte, direction: byte) {
    if kind == DATA then direction == INBOUND || direction == OUTBOUND else direction == NOT_APPLICABLE
  }

  predicate WellFormed(d: Draft) {
    FlagsAllowed(d.flags) && PayloadAllowed(d.kind, |d.payload|) && DirectionAllowed(d.kind, d.direction)
  }

  // ---------- encoding ----------

  function EncodeFileHeader(h: FileHeader): (s: Bytes)
    ensures |s| == FILE_HEADER_SIZE
  {
    FILE_MAGIC + PutLE(VERSION, 2) + PutLE(FILE_HEADER_SIZE, 2) + PutLE(ToUint64(h.created), 8)
    + h.run + PutLE(h.sequence, 8) + seq(20, _ => 0)
  }

  function EncodeRecordHeader(r: Record): (s: Bytes)
    ensures |s| == RECORD_HEADER_SIZE
  {
    RECORD_MAGIC + [VERSION, r.draft.kind, r.draft.direction, r.draft.flags]
    + PutLE(ToUint64(r.stamp), 8) + PutLE(r.number, 8)
    + r.draft.connection + r.draft.request + PutLE(|r.draft.payload|, 8)
  }

  function EncodeRecord(r: Record): (s: Bytes)
    ensures |s| == RECORD_HEADER_SIZE + |r.draft.payload|
  {
    EncodeRecordHeader(r) + r.draft.payload
  }

  function EncodeRecords(rs: seq<Record>): (s: Bytes)
    ensures |s| >= RECORD_HEADER_SIZE * |rs|
  {
    if rs == [] then [] else EncodeRecord(rs[0]) + EncodeRecords(rs[1..])
  }

  function EncodeFile(f: LogFile): (s: Bytes)
    ensures |s| >= FILE_HEADER_SIZE + RECORD_HEADER_SIZE * |f.records|
  {
    EncodeFileHeader(f.header) + EncodeRecords(f.records)
  }

  lemma {:induction false} EncodeRecordsAppend(a: seq<Record>, b: seq<Record>)
    ensures EncodeRecords(a + b) == EncodeRecords(a) + EncodeRecords(b)
  {
    hide EncodeRecord;
    if a == [] {
      assert a + b == b;
    } else {
      EncodeRecordsAppend(a[1..], b);
      Assoc(EncodeRecord(a[0]), EncodeRecords(a[1..]), EncodeRecords(b));
      assert (a + b)[1..] == a[1..] + b && (a + b)[0] == a[0];
    }
  }

  lemma EncodeRecordsSnoc(a: seq<Record>, r: Record)
    ensures EncodeRecords(a + [r]) == EncodeRecords(a) + EncodeRecord(r)
  {
    EncodeRecordsAppend(a, [r]);
    assert EncodeRecords([r]) == EncodeRecord(r);
  }

  // ---------- the fields of a header, by position ----------

  datatype RecordFields = RecordFields(kind: byte, direction: byte, flags: byte, stamp: int64, number: uint64,
                                       connection: ID, request: ID, length: uint64)

  function GetUint64(s: Bytes): (v: uint64)
    requires |s| == 8
  {
    PutGetLE(s);
    Pow256Of8();
    GetLE(s)
  }

  function FieldsOf(h: Bytes): RecordFields
    requires |h| == RECORD_HEADER_SIZE
  {
    RecordFields(h[5], h[6], h[7], ToInt64(GetUint64(h[8..16])), GetUint64(h[16..24]), h[24..40], h[40..56],
                 GetUint64(h[56..64]))
  }

  lemma TailSlice(front: Bytes, tail: Bytes, i: nat, j: nat)
    requires i == |front| && j == |front + tail|
    ensures (front + tail)[i..j] == tail
  {
  }

  lemma FrontSlice(front: Bytes, tail: Bytes, i: nat, j: nat)
    requires i <= j <= |front|
    ensures (front + tail)[i..j] == front[i..j]
  {
  }

  /** Every field of an encoded file header, at its place. */
  lemma FileHeaderFields(h: FileHeader)
    ensures var e := EncodeFileHeader(h);
            && e[0..8] == Text("NAIHBWJ1") && GetLE(e[8..10]) == 1 && GetLE(e[10..12]) == 64
            && GetLE(e[12..20]) == ToUint64(h.created) && e[20..36] == h.run && GetLE(e[36..44]) == h.sequence
            && e[44..64] == seq(20, _ => 0)
  {
    hide PutLE, GetLE, Text;
    Pow256Of8();
    GetPutLE(VERSION, 2);
    GetPutLE(FILE_HEADER_SIZE, 2);
    Uint64RoundTrip(ToUint64(h.created));
    Uint64RoundTrip(h.sequence);
    var version, size := PutLE(VERSION, 2), PutLE(FILE_HEADER_SIZE, 2);
    var created, sequence := PutLE(ToUint64(h.created), 8), PutLE(h.sequence, 8);
    var zeros: Bytes := seq(20, _ => 0);
    var e := EncodeFileHeader(h);
    assert e == [] + FILE_MAGIC + (version + size + created + h.run + sequence + zeros);
    assert e == FILE_MAGIC + version + (size + created + h.run + sequence + zeros);
    assert e == (FILE_MAGIC + version) + size + (created + h.run + sequence + zeros);
    assert e == (FILE_MAGIC + version + size) + created + (h.run + sequence + zeros);
    assert e == (FILE_MAGIC + version + size + created) + h.run + (sequence + zeros);
    assert e == (FILE_MAGIC + version + size + created + h.run) + sequence + zeros;
    MiddleSlice([], FILE_MAGIC, version + size + created + h.run + sequence + zeros);
    MiddleSlice(FILE_MAGIC, version, size + created + h.run + sequence + zeros);
    MiddleSlice(FILE_MAGIC + version, size, created + h.run + sequence + zeros);
    MiddleSlice(FILE_MAGIC + version + size, created, h.run + sequence + zeros);
    MiddleSlice(FILE_MAGIC + version + size + created, h.run, sequence + zeros);
    MiddleSlice(FILE_MAGIC + version + size + created + h.run, sequence, zeros);
  }

  lemma MiddleSlice(front: Bytes, field: Bytes, back: Bytes)
    ensures (front + field + back)[|front|..|front| + |field|] == field
    ensures (front + field + back)[|front| + |field|..] == back
  {
  }

  /** Every field of an encoded record header, at its place. */
  lemma RecordHeaderFields(r: Record)
    requires |r.draft.payload| < TWO_64
    ensures var h := EncodeRecordHeader(r);
            && h[0..4] == RECORD_MAGIC && h[4] == VERSION
            && h[5] == r.draft.kind && h[6] == r.draft.direction && h[7] == r.draft.flags
            && GetLE(h[8..16]) == ToUint64(r.stamp) && GetLE(h[16..24]) == r.number
            && h[24..40] == r.draft.connection && h[40..56] == r.draft.request && GetLE(h[56..64]) == |r.draft.payload|
            && FieldsOf(h) == RecordFields(r.draft.kind, r.draft.direction, r.draft.flags, r.stamp, r.number,
                                           r.draft.connection, r.draft.request, |r.draft.payload|)
  {
    hide PutLE, GetLE;
    var stamp, number, length := PutLE(ToUint64(r.stamp), 8), PutLE(r.number, 8), PutLE(|r.draft.payload|, 8);
    var h8 := RECORD_MAGIC + [VERSION, r.draft.kind, r.draft.direction, r.draft.flags];
    var h16 := h8 + stamp;
    var h24 := h16 + number;
    var h40 := h24 + r.draft.connection;
    var h56 := h40 + r.draft.request;
    TailSlice(h8, stamp, 8, 16);
    TailSlice(h16, number, 16, 24);
    TailSlice(h24, r.draft.connection, 24, 40);
    TailSlice(h40, r.draft.request, 40, 56);
    TailSlice(h56, length, 56, 64);
    forall i: nat, j: nat | i <= j <= 56
      ensures (h56 + length)[i..j] == h56[i..j]
    {
      FrontSlice(h56, length, i, j);
    }
    FrontSlice(h16, number, 8, 16);
    FrontSlice(h24, r.draft.connection, 8, 16);
    FrontSlice(h24, r.draft.connection, 16, 24);
    forall i: nat, j: nat | i <= j <= 40
      ensures h56[i..j] == h40[i..j]
    {
      FrontSlice(h40, r.draft.request, i, j);
    }
    assert EncodeRecordHeader(r) == h56 + length;
    Uint64RoundTrip(ToUint64(r.stamp));
    Uint64RoundTrip(r.number);
    Uint64RoundTrip(|r.draft.payload|);
  }

  /** A record header that passes the magic and version test is the encoding of its own fields. */
  lemma RecordHeaderIsCanonical(h: Bytes, r: Record)
    requires |h| == RECORD_HEADER_SIZE && h[0..4] == RECORD_MAGIC && h[4] == VERSION
    requires |r.draft.payload| < TWO_64
    requires FieldsOf(h) == RecordFields(r.draft.kind, r.draft.direction, r.draft.flags, r.stamp, r.number,
                                         r.draft.connection, r.draft.request, |r.draft.payload|)
    ensures EncodeRecordHeader(r) == h
  {
    PutGetLE(h[8..16]);
    PutGetLE(h[16..24]);
    PutGetLE(h[56..64]);
    Pow256Of8();
    assert h == h[0..4] + [h[4], h[5], h[6], h[7]] + h[8..16] + h[16..24] + h[24..40] + h[40..56] + h[56..64];
  }
}
