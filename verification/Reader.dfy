/** The truncation-tolerant journal reader (ReadBWJFile, internal/evidence/bwj.go). */
module Reader {
  import opened Wrappers
  import opened Bytes
  import opened Ids
  import opened Format

  datatype ReadError =
    | HeaderCutShort
    | BadFileMagic
    | BadVersion
    | ReservedHeaderBytes
    | BadRecordMagic
    | ReservedFlags
    | NumberNotIncreasing
    | DataTooLong
    | MetadataTooLong
    | PayloadRejected
    | BadDirection

  datatype ReadResult = ReadResult(header: FileHeader, records: seq<Record>, truncatedTail: bool)

  /** What stands at the front of the remaining bytes. */
  datatype Next = EndOfFile | CutShort | Rejected(error: ReadError) | Found(record: Record)

  datatype Scan = Scan(records: seq<Record>, truncated: bool)

  function DecodeFileHeader(file: Bytes): (r: Result<FileHeader, ReadError>)
    ensures r.Ok? ==> |file| >= FILE_HEADER_SIZE
  {
    if |file| < FILE_HEADER_SIZE then Err(HeaderCutShort)
    else if file[0..8] != FILE_MAGIC then Err(BadFileMagic)
    else if GetLE(file[8..10]) != VERSION || GetLE(file[10..12]) != FILE_HEADER_SIZE then Err(BadVersion)
    else if exists i | 44 <= i < 64 :: file[i] != 0 then Err(ReservedHeaderBytes)
    else Ok(FileHeader(ToInt64(GetUint64(file[12..20])), file[20..36], GetUint64(file[36..44])))
  }

  function NextRecord(rest: Bytes, last: uint64): (n: Next)
    ensures n.EndOfFile? <==> rest == []
    ensures n.Found? ==> |EncodeRecord(n.record)| <= |rest| && n.record.number > last && WellFormed(n.record.draft)
  {
    if rest == [] then EndOfFile
    else if |rest| < RECORD_HEADER_SIZE then CutShort
    else if rest[0..4] != RECORD_MAGIC || rest[4] != VERSION then Rejected(BadRecordMagic)
    else
      var f := FieldsOf(rest[..RECORD_HEADER_SIZE]);
      if !FlagsAllowed(f.flags) then Rejected(ReservedFlags)
      else if f.number == 0 || f.number <= last then Rejected(NumberNotIncreasing)
      else if f.length > MAX_DATA_PAYLOAD && f.kind == DATA then Rejected(DataTooLong)
      else if f.length > 10 && f.kind != DATA then Rejected(MetadataTooLong)
      else if |rest| - RECORD_HEADER_SIZE < f.length then CutShort
      else
        var payload := rest[RECORD_HEADER_SIZE..RECORD_HEADER_SIZE + f.length];
        if !PayloadAllowed(f.kind, |payload|) then Rejected(PayloadRejected)
        else if !DirectionAllowed(f.kind, f.direction) then Rejected(BadDirection)
        else Found(Record(Draft(f.kind, f.direction, f.flags, f.connection, f.request, payload), f.stamp, f.number))
  }

  /** What the reader makes of the front of the remaining bytes, by their
      places: which check refuses it first, whether it is cut short, or the
      record it is. What a header announces is checked before what is there. */
  lemma NextRecordIsExact(rest: Bytes, last: uint64)
    requires |rest| >= 64
    ensures var n := NextRecord(rest, last);
            var number, length := GetLE(rest[16..24]), GetLE(rest[56..64]);
            if rest[0..4] != Text("BWJR") || rest[4] != 1 then n == Rejected(BadRecordMagic)
            else if rest[7] >= 16 then n == Rejected(ReservedFlags)
            else if number == 0 || number <= last then n == Rejected(NumberNotIncreasing)
            else if rest[5] == 2 && length > 65536 then n == Rejected(DataTooLong)
            else if rest[5] != 2 && length > 10 then n == Rejected(MetadataTooLong)
            else if |rest| - 64 < length then n == CutShort
            else if !PayloadAllowed(rest[5], length) then n == Rejected(PayloadRejected)
            else if (rest[5] == 2) == (rest[6] == 0) || rest[6] > 2 then n == Rejected(BadDirection)
            else n.Found? && n.record.draft.payload == rest[64..64 + length] && n.record.number == number
                 && n.record.draft.kind == rest[5] && n.record.draft.direction == rest[6] && n.record.draft.flags == rest[7]
                 && n.record.draft.connection == rest[24..40] && n.record.draft.request == rest[40..56]
                 && ToUint64(n.record.stamp) == GetLE(rest[8..16])
  {
    hide GetLE, Text;
    var h := rest[..64];
    assert h[8..16] == rest[8..16] && h[16..24] == rest[16..24] && h[24..40] == rest[24..40];
    assert h[40..56] == rest[40..56] && h[56..64] == rest[56..64];
    assert h[5] == rest[5] && h[6] == rest[6] && h[7] == rest[7];
  }

  /** All records of a file body, from the front. */
  function ReadRecords(rest: Bytes, last: uint64): Result<Scan, ReadError>
    decreases |rest|
  {
    match NextRecord(rest, last)
    case EndOfFile => Ok(Scan([], false))
    case CutShort => Ok(Scan([], true))
    case Rejected(e) => Err(e)
    case Found(r) =>
      Prepend([r], ReadRecords(rest[|EncodeRecord(r)|..], r.number))
  }

  function ReadFile(file: Bytes): Result<ReadResult, ReadError> {
    match DecodeFileHeader(file)
    case Err(e) => Err(e)
    case Ok(h) =>
      match ReadRecords(file[FILE_HEADER_SIZE..], 0)
      case Err(e) => Err(e)
      case Ok(s) => Ok(ReadResult(h, s.records, s.truncated))
  }

  function Prepend(front: seq<Record>, r: Result<Scan, ReadError>): Result<Scan, ReadError> {
    match r
    case Ok(s) => Ok(Scan(front + s.records, s.truncated))
    case Err(e) => Err(e)
  }

  lemma PrependNothing(r: Result<Scan, ReadError>)
    ensures Prepend([], r) == r
  {
    assert r.Ok? ==> [] + r.value.records == r.value.records;
  }

  lemma PrependTwice(front: seq<Record>, r: Record, rest: Result<Scan, ReadError>)
    ensures Prepend(front, Prepend([r], rest)) == Prepend(front + [r], rest)
  {
    assert rest.Ok? ==> front + ([r] + rest.value.records) == front + [r] + rest.value.records;
  }

  /** The reading loop. */
  method ReadBWJFile(file: Bytes) returns (r: Result<ReadResult, ReadError>)
    ensures r == ReadFile(file)
  {
    hide NextRecord, DecodeFileHeader, EncodeRecord;
    var header: FileHeader;
    match DecodeFileHeader(file) {
      case Err(e) => return Err(e);
      case Ok(h) => header := h;
    }
    var records: seq<Record> := [];
    var truncated := false;
    var position := FILE_HEADER_SIZE;
    var lastNumber: uint64 := 0;
    PrependNothing(ReadRecords(file[position..], lastNumber));
    while true
      invariant FILE_HEADER_SIZE <= position <= |file|
      invariant ReadRecords(file[FILE_HEADER_SIZE..], 0) == Prepend(records, ReadRecords(file[position..], lastNumber))
      decreases |file| - position
    {
      match NextRecord(file[position..], lastNumber) {
        case EndOfFile =>
          break;
        case CutShort =>
          truncated := true;
          break;
        case Rejected(e) =>
          return Err(e);
        case Found(record) =>
          var size := |EncodeRecord(record)|;
          assert file[position..][size..] == file[position + size..];
          PrependTwice(records, record, ReadRecords(file[position + size..], record.number));
          records := records + [record];
          lastNumber := record.number;
          position := position + size;
      }
    }
    assert records + [] == records;
    r := Ok(ReadResult(header, records, truncated));
  }

  // ---------- well-formed record sequences ----------

  /** Well-formed records whose numbers strictly increase from `last`. */
  predicate Readable(rs: seq<Record>, last: uint64) {
    rs != [] ==> WellFormed(rs[0].draft) && rs[0].number > last && Readable(rs[1..], rs[0].number)
  }

  /** Number of records that lie wholly within the first `cut` bytes. */
  function WholeWithin(rs: seq<Record>, cut: nat): (m: nat)
    ensures m <= |rs|
    ensures |EncodeRecords(rs[..m])| <= cut
    ensures m < |rs| ==> cut < |EncodeRecords(rs[..m + 1])|
  {
    if rs == [] || cut < |EncodeRecord(rs[0])| then
      assert rs[..0] == [];
      assert rs != [] ==> rs[..1] == [rs[0]];
      0
    else
      var m := WholeWithin(rs[1..], cut - |EncodeRecord(rs[0])|);
      assert rs[..m + 1][1..] == rs[1..][..m];
      assert m + 1 < |rs| ==> rs[..m + 2][1..] == rs[1..][..m + 1];
      1 + m
  }

  lemma NextOfEncoded(r: Record, after: Bytes, last: uint64)
    requires WellFormed(r.draft) && r.number > last
    ensures NextRecord(EncodeRecord(r) + after, last) == Found(r)
  {
    var rest := EncodeRecord(r) + after;
    RecordHeaderFields(r);
    assert rest[..RECORD_HEADER_SIZE] == EncodeRecordHeader(r);
    assert rest[0..4] == EncodeRecordHeader(r)[0..4] && rest[4] == EncodeRecordHeader(r)[4];
    assert rest[RECORD_HEADER_SIZE..RECORD_HEADER_SIZE + |r.draft.payload|] == r.draft.payload;
  }

  lemma NextOfCut(r: Record, cut: nat, last: uint64)
    requires WellFormed(r.draft) && r.number > last && cut < |EncodeRecord(r)|
    ensures NextRecord(EncodeRecord(r)[..cut], last) == if cut == 0 then EndOfFile else CutShort
  {
    if cut >= RECORD_HEADER_SIZE {
      var rest := EncodeRecord(r)[..cut];
      RecordHeaderFields(r);
      assert rest[..RECORD_HEADER_SIZE] == EncodeRecordHeader(r);
      assert rest[0..4] == EncodeRecordHeader(r)[0..4] && rest[4] == EncodeRecordHeader(r)[4];
    }
  }

  /** What reading a body cut at `cut` must yield. */
  function CutScan(rs: seq<Record>, cut: nat): Scan {
    var whole := rs[..WholeWithin(rs, cut)];
    Scan(whole, cut != |EncodeRecords(whole)|)
  }

  lemma CutScanStep(rs: seq<Record>, cut: nat)
    requires rs != [] && cut >= |EncodeRecord(rs[0])|
    ensures var tail := CutScan(rs[1..], cut - |EncodeRecord(rs[0])|);
            CutScan(rs, cut) == Scan([rs[0]] + tail.records, tail.truncated)
  {
    hide EncodeRecord;
    var m := WholeWithin(rs[1..], cut - |EncodeRecord(rs[0])|);
    assert rs[..m + 1] == [rs[0]] + rs[1..][..m];
    assert rs[..m + 1][1..] == rs[1..][..m];
    assert WholeWithin(rs, cut) == m + 1;
    assert EncodeRecords(rs[..m + 1]) == EncodeRecord(rs[0]) + EncodeRecords(rs[1..][..m]);
  }

  lemma CutScanNone(rs: seq<Record>, cut: nat)
    requires rs != [] ==> cut < |EncodeRecord(rs[0])|
    requires rs == [] ==> cut == 0
    ensures CutScan(rs, cut) == Scan([], cut != 0)
  {
    hide EncodeRecord;
    assert WholeWithin(rs, cut) == 0;
    assert rs[..0] == [];
  }

  /** Reading a file body cut anywhere yields exactly the whole records, and
      flags the tail exactly when the cut is not on a record boundary. */
  lemma {:induction false} ReadCutRecords(rs: seq<Record>, cut: nat, last: uint64)
    requires Readable(rs, last) && cut <= |EncodeRecords(rs)|
    ensures ReadRecords(EncodeRecords(rs)[..cut], last) == Ok(CutScan(rs, cut))
  {
    hide NextRecord, EncodeRecord, CutScan;
    if rs == [] {
      CutScanNone(rs, cut);
    } else {
      var size := |EncodeRecord(rs[0])|;
      if cut < size {
        NextOfCut(rs[0], cut, last);
        assert EncodeRecords(rs)[..cut] == EncodeRecord(rs[0])[..cut];
        CutScanNone(rs, cut);
      } else {
        var after := EncodeRecords(rs[1..])[..cut - size];
        NextOfEncoded(rs[0], after, last);
        assert EncodeRecords(rs)[..cut] == EncodeRecord(rs[0]) + after;
        assert (EncodeRecord(rs[0]) + after)[size..] == after;
        ReadCutRecords(rs[1..], cut - size, rs[0].number);
        CutScanStep(rs, cut);
      }
    }
  }

  /** A whole body followed by the beginning of one more record. */
  lemma ReadWithRemnant(rs: seq<Record>, extra: Record, cut: nat)
    requires Readable(rs + [extra], 0) && cut <= |EncodeRecord(extra)|
    ensures ReadRecords(EncodeRecords(rs) + EncodeRecord(extra)[..cut], 0)
            == Ok(if cut == |EncodeRecord(extra)| then Scan(rs + [extra], false) else Scan(rs, cut != 0))
  {
    hide EncodeRecord, ReadRecords, Readable, EncodeRecords;
    EncodeRecordsSnoc(rs, extra);
    var whole := EncodeRecords(rs + [extra]);
    var k := |EncodeRecords(rs)| + cut;
    assert whole[..k] == EncodeRecords(rs) + EncodeRecord(extra)[..cut];
    ReadCutRecords(rs + [extra], k, 0);
    var m := WholeWithin(rs + [extra], k);
    assert (rs + [extra])[..|rs|] == rs;
    assert (rs + [extra])[..|rs| + 1] == rs + [extra];
    if m < |rs| {
      PrefixEncodes(rs + [extra], m + 1, |rs|);
      assert false;
    }
  }

  lemma PrefixEncodes(rs: seq<Record>, i: nat, j: nat)
    requires i <= j <= |rs|
    ensures |EncodeRecords(rs[..i])| <= |EncodeRecords(rs[..j])|
  {
    assert rs[..j] == rs[..i] + rs[i..j];
    EncodeRecordsAppend(rs[..i], rs[i..j]);
  }

  lemma FileHeaderReads(h: FileHeader, body: Bytes)
    ensures DecodeFileHeader(EncodeFileHeader(h) + body) == Ok(h)
  {
    hide PutLE, GetLE;
    var e := EncodeFileHeader(h);
    var file := e + body;
    Pow256Of8();
    GetPutLE(VERSION, 2);
    GetPutLE(FILE_HEADER_SIZE, 2);
    Uint64RoundTrip(ToUint64(h.created));
    Uint64RoundTrip(h.sequence);
    assert file[0..8] == FILE_MAGIC;
    assert file[8..10] == PutLE(VERSION, 2);
    assert file[10..12] == PutLE(FILE_HEADER_SIZE, 2);
    assert file[12..20] == PutLE(ToUint64(h.created), 8);
    assert file[20..36] == h.run;
    assert file[36..44] == PutLE(h.sequence, 8);
    assert forall i | 44 <= i < 64 :: file[i] == 0;
  }

  lemma ReadFileOf(h: FileHeader, body: Bytes)
    ensures ReadFile(EncodeFileHeader(h) + body) ==
            match ReadRecords(body, 0)
            case Err(e) => Err(e)
            case Ok(s) => Ok(ReadResult(h, s.records, s.truncated))
  {
    hide EncodeFileHeader, DecodeFileHeader, ReadRecords;
    FileHeaderReads(h, body);
    assert (EncodeFileHeader(h) + body)[FILE_HEADER_SIZE..] == body;
  }

  lemma CutHeader(file: Bytes)
    requires |file| < FILE_HEADER_SIZE
    ensures ReadFile(file).Err?
  {
  }

  /** Any prefix of a well-formed file: below 64 bytes the reader reports an
      error; from 64 bytes on it never does, returns exactly the records that
      are whole, and sets the flag exactly off a record boundary. */
  lemma CutFile(f: LogFile, cut: nat)
    requires Readable(f.records, 0) && cut <= |EncodeFile(f)|
    ensures cut < FILE_HEADER_SIZE <==> ReadFile(EncodeFile(f)[..cut]).Err?
    ensures cut >= FILE_HEADER_SIZE ==>
              var m := WholeWithin(f.records, cut - FILE_HEADER_SIZE);
              ReadFile(EncodeFile(f)[..cut])
              == Ok(ReadResult(f.header, f.records[..m], cut != |EncodeFile(f.(records := f.records[..m]))|))
  {
    hide EncodeFileHeader, DecodeFileHeader, EncodeRecord, ReadRecords, ReadFile, Readable, WholeWithin;
    if cut < FILE_HEADER_SIZE {
      CutHeader(EncodeFile(f)[..cut]);
    } else {
      var k := cut - FILE_HEADER_SIZE;
      assert EncodeFile(f)[..cut] == EncodeFileHeader(f.header) + EncodeRecords(f.records)[..k];
      ReadFileOf(f.header, EncodeRecords(f.records)[..k]);
      ReadCutRecords(f.records, k, 0);
    }
  }

  /** A complete file reads back as written. */
  lemma FileRoundTrip(f: LogFile)
    requires Readable(f.records, 0)
    ensures ReadFile(EncodeFile(f)) == Ok(ReadResult(f.header, f.records, false))
  {
    hide EncodeFileHeader, EncodeRecord, ReadFile, Readable, WholeWithin;
    var size := |EncodeFile(f)|;
    CutFile(f, size);
    assert EncodeFile(f)[..size] == EncodeFile(f);
    var m := WholeWithin(f.records, size - FILE_HEADER_SIZE);
    if m < |f.records| {
      assert f.records[..|f.records|] == f.records;
      PrefixEncodes(f.records, m + 1, |f.records|);
      assert false;
    }
    assert f.records[..m] == f.records;
  }

  // ---------- the reader accepts nothing else ----------

  lemma FoundIsEncoded(rest: Bytes, last: uint64)
    requires NextRecord(rest, last).Found?
    ensures var r := NextRecord(rest, last).record; rest[..|EncodeRecord(r)|] == EncodeRecord(r)
  {
    var r := NextRecord(rest, last).record;
    var h := rest[..RECORD_HEADER_SIZE];
    assert h[0..4] == rest[0..4];
    RecordHeaderIsCanonical(h, r);
    assert rest[..|EncodeRecord(r)|] == h + rest[RECORD_HEADER_SIZE..|EncodeRecord(r)|];
  }

  /** Whatever the record reader accepts is the encoding of what it returned,
      followed by nothing, or by a cut record when the flag is set. */
  lemma {:induction false} ReadIsCanonical(rest: Bytes, last: uint64)
    requires ReadRecords(rest, last).Ok?
    ensures var s := ReadRecords(rest, last).value;
            var e := EncodeRecords(s.records);
            && Readable(s.records, last)
            && |e| <= |rest| && rest[..|e|] == e
            && (s.truncated <==> |e| != |rest|)
    decreases |rest|
  {
    hide NextRecord, EncodeRecord;
    match NextRecord(rest, last)
    case EndOfFile =>
    case CutShort =>
      assert rest[..0] == [];
    case Found(r) =>
      var size := |EncodeRecord(r)|;
      FoundIsEncoded(rest, last);
      ReadIsCanonical(rest[size..], r.number);
      var tail := ReadRecords(rest[size..], r.number).value;
      var e := EncodeRecords([r] + tail.records);
      assert ([r] + tail.records)[1..] == tail.records;
      assert e == EncodeRecord(r) + EncodeRecords(tail.records);
      assert rest[..|e|] == rest[..size] + rest[size..][..|e| - size];
  }

  lemma FileHeaderIsCanonical(file: Bytes)
    requires DecodeFileHeader(file).Ok?
    ensures |file| >= FILE_HEADER_SIZE
    ensures file[..FILE_HEADER_SIZE] == EncodeFileHeader(DecodeFileHeader(file).value)
  {
    Pow256Of8();
    PutGetLE(file[8..10]);
    PutGetLE(file[10..12]);
    PutGetLE(file[12..20]);
    PutGetLE(file[36..44]);
    assert file[44..64] == seq(20, _ => 0);
    assert file[..64] == file[0..8] + file[8..10] + file[10..12] + file[12..20] + file[20..36] + file[36..44] + file[44..64];
  }

  /** The format is one-to-one: a file that reads without a truncated tail is
      the encoding of what was read; one with it starts with that encoding. */
  lemma ReadFileIsCanonical(file: Bytes)
    requires ReadFile(file).Ok?
    ensures var r := ReadFile(file).value;
            var e := EncodeFile(LogFile(r.header, r.records));
            && |e| <= |file| && file[..|e|] == e
            && (r.truncatedTail <==> file != e)
  {
    hide EncodeFileHeader, DecodeFileHeader, EncodeRecords, ReadRecords, Readable;
    var r := ReadFile(file).value;
    var e := EncodeFile(LogFile(r.header, r.records));
    FileHeaderIsCanonical(file);
    ReadIsCanonical(file[FILE_HEADER_SIZE..], 0);
    assert file[..|e|] == file[..FILE_HEADER_SIZE] + file[FILE_HEADER_SIZE..][..|e| - FILE_HEADER_SIZE];
    assert file[..|file|] == file;
  }
}
