/** The journal as a value: files of records, what a failed write left behind,
    and how one call moves it. Any interleaving of connections is a sequence of
    these calls, because the writer holds its mutex for one record
    (internal/evidence/bwj.go). */
module Journal {
  import opened Wrappers
  import opened Bytes
  import opened Ids
  import opened Format
  import opened Reader

  datatype JournalError =
    | InvalidDirection
    | ReservedFlagsSet
    | PayloadRefused
    | WriterClosed
    | SyncFailed
    | CloseFailed
    | CreateFailed
    | FileHeaderFailed
    | RecordHeaderFailed
    | PayloadFailed

  datatype Settings = Settings(run: ID, rotateSize: int64, rotateAge: int)

  /** What a failed write left on disk beyond the acknowledged records. */
  datatype Remnant =
    | Nothing
    | PartOfRecord(record: Record, count: nat)
    | PartOfHeader(header: FileHeader, count: nat)

  datatype Log = Log(files: seq<LogFile>, remnant: Remnant, createdAt: int, open: bool,
                     failed: Option<JournalError>, closed: bool)

  /** One answer of the file to a write call: bytes taken, and whether it also reported an error. */
  datatype Reply = Reply(taken: nat, error: bool)

  datatype Delivery = Delivery(count: nat, ok: bool)

  /** Everything a call takes from its surroundings: clock readings, the
      outcome of sync, close and create, and the replies of the file. */
  datatype Env = Env(now: int, headerStamp: int64, created: int, recordStamp: int64, sync: bool, close: bool, create: bool,
                     fileHeader: seq<Reply>, recordHeader: seq<Reply>, payload: seq<Reply>)

  datatype Op = Write(draft: Draft, env: Env) | Close

  /** How much of `size` bytes the full-write loop gets across. */
  function Deliver(size: nat, replies: seq<Reply>): (d: Delivery)
    ensures d.count <= size
    ensures d.ok ==> d.count == size
  {
    if size == 0 then Delivery(0, true)
    else if replies == [] then Delivery(0, false)
    else
      var n := Min(replies[0].taken, size);
      if replies[0].error || n == 0 then Delivery(n, false)
      else
        var rest := Deliver(size - n, replies[1..]);
        Delivery(n + rest.count, rest.ok)
  }

  lemma DeliverNothing(replies: seq<Reply>)
    ensures Deliver(0, replies) == Delivery(0, true)
  {
  }

  function LastFile(log: Log): LogFile
    requires log.files != []
  {
    log.files[|log.files| - 1]
  }

  function NextHeader(st: Settings, log: Log, stamp: int64): FileHeader {
    FileHeader(stamp, st.run, (|log.files| + 1) % TWO_64)
  }

  function OpenNext(st: Settings, log: Log, env: Env): (r: (Log, Option<JournalError>))
    ensures log.files != [] ==> r.0.files != []
  {
    var header := NextHeader(st, log, env.headerStamp);
    var d := Deliver(FILE_HEADER_SIZE, env.fileHeader);
    if !env.create then (log.(open := false), Some(CreateFailed))
    else if !d.ok then (log.(open := false, remnant := PartOfHeader(header, d.count)), Some(FileHeaderFailed))
    else (log.(open := true, createdAt := env.created, files := log.files + [LogFile(header, [])]), None)
  }

  function Rotate(st: Settings, log: Log, env: Env): (r: (Log, Option<JournalError>))
    ensures log.files != [] ==> r.0.files != []
  {
    if log.open && !env.sync then (log, Some(SyncFailed))
    else if log.open && !env.close then (log, Some(CloseFailed))
    else OpenNext(st, log, env)
  }

  predicate ShouldRotate(st: Settings, log: Log, next: nat, now: int)
    requires log.files != []
  {
    || !log.open
    || (st.rotateSize > 0 && |EncodeFile(LastFile(log))| > FILE_HEADER_SIZE
        && |EncodeFile(LastFile(log))| + next > st.rotateSize)
    || (st.rotateAge > 0 && now - log.createdAt >= st.rotateAge)
  }

  function NumberedRecord(log: Log, d: Draft, stamp: int64): Record
    requires log.files != []
  {
    Record(d, stamp, (|LastFile(log).records| + 1) % TWO_64)
  }

  function Append(log: Log, d: Draft, env: Env): (r: (Log, Option<JournalError>))
    requires log.files != []
    ensures r.0.files != []
  {
    var r := NumberedRecord(log, d, env.recordStamp);
    var head := Deliver(RECORD_HEADER_SIZE, env.recordHeader);
    var body := Deliver(|d.payload|, env.payload);
    if !head.ok then
      (log.(failed := Some(RecordHeaderFailed), remnant := PartOfRecord(r, head.count)), Some(RecordHeaderFailed))
    else if !body.ok then
      (log.(failed := Some(PayloadFailed), remnant := PartOfRecord(r, RECORD_HEADER_SIZE + body.count)),
       Some(PayloadFailed))
    else
      var f := LastFile(log);
      (log.(files := log.files[|log.files| - 1 := f.(records := f.records + [r])]), None)
  }

  /** One record through the writer. */
  function WriteRecord(st: Settings, log: Log, d: Draft, env: Env): (r: (Log, Option<JournalError>))
    requires log.files != []
    ensures r.0.files != []
  {
    if !FlagsAllowed(d.flags) then (log, Some(ReservedFlagsSet))
    else if !PayloadAllowed(d.kind, |d.payload|) then (log, Some(PayloadRefused))
    else if log.closed then (log, Some(WriterClosed))
    else if log.failed.Some? then (log, log.failed)
    else if ShouldRotate(st, log, RECORD_HEADER_SIZE + |d.payload|, env.now) then
      var (rotated, err) := Rotate(st, log, env);
      if err.Some? then (rotated.(failed := err), err) else Append(rotated, d, env)
    else Append(log, d, env)
  }

  function CloseLog(log: Log): Log {
    log.(closed := true, open := false)
  }

  function Apply(st: Settings, log: Log, op: Op): (r: (Log, Option<JournalError>))
    requires log.files != []
    ensures r.0.files != []
  {
    match op
    case Write(d, env) => WriteRecord(st, log, d, env)
    case Close => (CloseLog(log), None)
  }

  // ---------- the files on disk ----------

  function Encodings(files: seq<LogFile>): (r: seq<Bytes>)
    ensures |r| == |files|
  {
    seq(|files|, i requires 0 <= i < |files| => EncodeFile(files[i]))
  }

  function DiskOf(files: seq<LogFile>, remnant: Remnant): seq<Bytes> {
    var whole := Encodings(files);
    var last := |whole| - 1;
    match remnant
    case Nothing => whole
    case PartOfRecord(r, n) =>
      if whole == [] then whole
      else whole[last := whole[last] + EncodeRecord(r)[..Min(n, |EncodeRecord(r)|)]]
    case PartOfHeader(h, n) => whole + [EncodeFileHeader(h)[..Min(n, FILE_HEADER_SIZE)]]
  }

  function Disk(log: Log): seq<Bytes> {
    DiskOf(log.files, log.remnant)
  }

  // ---------- what every call keeps ----------

  /** The numbering a file's records carry, starting at 1. */
  ghost predicate Numbered(rs: seq<Record>) {
    && |rs| < TWO_64
    && forall i | 0 <= i < |rs| :: WellFormed(rs[i].draft) && rs[i].number == i + 1
  }

  function LargestFile(st: Settings): int {
    Max(st.rotateSize, FILE_HEADER_SIZE + RECORD_HEADER_SIZE + MAX_DATA_PAYLOAD)
  }

  /** A file of this journal: its place in the run, its numbering, and its
      size, within the rotate size unless it holds at most one record. */
  ghost predicate FileInv(st: Settings, f: LogFile, position: nat) {
    && f.header.run == st.run
    && f.header.sequence == (position + 1) % TWO_64
    && Numbered(f.records)
    && |EncodeFile(f)| <= LargestFile(st)
    && (|f.records| <= 1 || |EncodeFile(f)| <= st.rotateSize)
  }

  ghost predicate RemnantInv(st: Settings, log: Log)
    requires log.files != []
  {
    match log.remnant
    case Nothing => true
    case PartOfRecord(r, n) =>
      && n <= |EncodeRecord(r)|
      && FileInv(st, LastFile(log).(records := LastFile(log).records + [r]), |log.files| - 1)
    case PartOfHeader(h, n) =>
      && n <= FILE_HEADER_SIZE
      && FileInv(st, LogFile(h, []), |log.files|)
  }

  ghost predicate LogInv(st: Settings, log: Log) {
    && st.rotateSize > 0
    && log.files != []
    && (forall i | 0 <= i < |log.files| :: FileInv(st, log.files[i], i))
    && RemnantInv(st, log)
    && (log.failed.None? ==> log.remnant.Nothing?)
    && (log.failed.None? && !log.closed ==> log.open)
  }

  lemma AppendFits(st: Settings, f: LogFile, position: nat, r: Record)
    requires st.rotateSize > 0 && FileInv(st, f, position)
    requires WellFormed(r.draft) && r.number == (|f.records| + 1) % TWO_64
    requires |EncodeFile(f)| + |EncodeRecord(r)| <= st.rotateSize || f.records == []
    ensures FileInv(st, f.(records := f.records + [r]), position)
    ensures |EncodeFile(f.(records := f.records + [r]))| == |EncodeFile(f)| + |EncodeRecord(r)|
  {
    hide EncodeRecord, EncodeFileHeader;
    EncodeRecordsSnoc(f.records, r);
    var g := f.(records := f.records + [r]);
    assert |EncodeFile(g)| == |EncodeFile(f)| + |EncodeRecord(r)|;
    assert |EncodeFile(g)| >= FILE_HEADER_SIZE + RECORD_HEADER_SIZE * |g.records|;
    if f.records == [] {
      assert |EncodeFile(f)| == FILE_HEADER_SIZE by {
        assert EncodeRecords(f.records) == [];
      }
    }
    assert |EncodeFile(g)| <= LargestFile(st);
    assert |g.records| < TWO_64;
  }

  lemma AppendKeepsInv(st: Settings, log: Log, d: Draft, env: Env)
    requires LogInv(st, log) && log.failed.None? && WellFormed(d)
    requires var f := LastFile(log);
             |EncodeFile(f)| + RECORD_HEADER_SIZE + |d.payload| <= st.rotateSize || f.records == []
    ensures LogInv(st, Append(log, d, env).0)
  {
    hide EncodeRecord, EncodeFile;
    var r := NumberedRecord(log, d, env.recordStamp);
    AppendFits(st, LastFile(log), |log.files| - 1, r);
  }

  lemma EmptyFileSize(f: LogFile)
    ensures |EncodeFile(f)| <= FILE_HEADER_SIZE <==> f.records == []
  {
  }

  /** Every call, with any surroundings, keeps the journal's invariant. */
  lemma ApplyKeepsInv(st: Settings, log: Log, op: Op)
    requires LogInv(st, log)
    requires op.Write? ==> DirectionAllowed(op.draft.kind, op.draft.direction)
    ensures LogInv(st, Apply(st, log, op).0)
  {
    hide FileInv, EncodeFile, Append, Rotate;
    if op.Write? {
      var d, env := op.draft, op.env;
      if WellFormed(d) && !log.closed && log.failed.None? {
        EmptyFileSize(LastFile(log));
        if ShouldRotate(st, log, RECORD_HEADER_SIZE + |d.payload|, env.now) {
          RotateKeepsInv(st, log, env);
          if Rotate(st, log, env).1.None? {
            AppendKeepsInv(st, Rotate(st, log, env).0, d, env);
          }
        } else {
          AppendKeepsInv(st, log, d, env);
        }
      }
    }
  }

  /** A rotation opens an empty file, or fails and leaves at most a part of its header. */
  lemma RotateKeepsInv(st: Settings, log: Log, env: Env)
    requires LogInv(st, log) && log.failed.None? && !log.closed
    ensures var (rotated, err) := Rotate(st, log, env);
            && LogInv(st, rotated.(failed := err))
            && rotated.failed == log.failed
            && (err.None? ==> LogInv(st, rotated) && LastFile(rotated).records == [])
  {
    hide EncodeFileHeader, EncodeRecord, Deliver;
    assert EncodeRecords([]) == [];
    assert FileInv(st, LogFile(NextHeader(st, log, env.headerStamp), []), |log.files|);
  }

  // ---------- where a record goes ----------

  /** No room in the last file, or its time is over. */
  ghost predicate NeedsNewFile(st: Settings, log: Log, d: Draft, env: Env)
    requires log.files != []
  {
    || (LastFile(log).records != [] && |EncodeFile(LastFile(log))| + RECORD_HEADER_SIZE + |d.payload| > st.rotateSize)
    || (st.rotateAge > 0 && env.now - log.createdAt >= st.rotateAge)
  }

  /** A record that was taken stands in the last file if that is young enough,
      and empty or with room for it; otherwise alone in a new one. */
  ghost predicate Placed(st: Settings, log: Log, d: Draft, env: Env, next: Log)
    requires log.files != []
  {
    var last := LastFile(log);
    if NeedsNewFile(st, log, d, env) then
      && next.files == log.files + [LogFile(FileHeader(env.headerStamp, st.run, (|log.files| + 1) % TWO_64),
                                            [Record(d, env.recordStamp, 1)])]
      && next.createdAt == env.created
    else
      && next.files == log.files[..|log.files| - 1]
                       + [last.(records := last.records + [Record(d, env.recordStamp, (|last.records| + 1) % TWO_64)])]
      && next.createdAt == log.createdAt
  }

  /** Every way a call can fail, and that it fails in no other: a draft the
      format has no place for, a closed or failed journal, and then whatever of
      the disk the call needs and does not get, in this order. Only the last
      kind leaves the journal failed; the others leave it as it was. */
  lemma RefusalsAreExact(st: Settings, log: Log, d: Draft, env: Env)
    requires LogInv(st, log)
    ensures var (next, err) := WriteRecord(st, log, d, env);
            var fits := d.flags < 16 && PayloadAllowed(d.kind, |d.payload|);
            var alive := fits && !log.closed && log.failed.None?;
            var turn := alive && NeedsNewFile(st, log, d, env);
            var made := env.sync && env.close && env.create && Deliver(FILE_HEADER_SIZE, env.fileHeader).ok;
            var ready := alive && (turn ==> made);
            && (err == Some(ReservedFlagsSet) <==> d.flags >= 16 || (fits && !log.closed && log.failed == Some(ReservedFlagsSet)))
            && (d.flags < 16 && !fits ==> err == Some(PayloadRefused))
            && (fits && log.closed ==> err == Some(WriterClosed))
            && (fits && !log.closed && log.failed.Some? ==> err == log.failed)
            && (!alive ==> next == log && err.Some?)
            && (turn && !env.sync ==> err == Some(SyncFailed))
            && (turn && env.sync && !env.close ==> err == Some(CloseFailed))
            && (turn && env.sync && env.close && !env.create ==> err == Some(CreateFailed))
            && (turn && env.sync && env.close && env.create && !made ==> err == Some(FileHeaderFailed))
            && (ready && !Deliver(RECORD_HEADER_SIZE, env.recordHeader).ok ==> err == Some(RecordHeaderFailed))
            && (ready && Deliver(RECORD_HEADER_SIZE, env.recordHeader).ok && !Deliver(|d.payload|, env.payload).ok ==>
                  err == Some(PayloadFailed))
            && (err.None? <==> ready && Deliver(RECORD_HEADER_SIZE, env.recordHeader).ok && Deliver(|d.payload|, env.payload).ok)
            && (alive ==> next.failed == err)
  {
    hide EncodeRecord, EncodeFile, Deliver;
    EmptyFileSize(LastFile(log));
  }

  /** A call that succeeds places its record so, and leaves the journal as healthy as it was. */
  lemma RecordIsPlaced(st: Settings, log: Log, d: Draft, env: Env)
    requires LogInv(st, log) && WellFormed(d) && WriteRecord(st, log, d, env).1.None?
    ensures var next := WriteRecord(st, log, d, env).0;
            && Placed(st, log, d, env, next)
            && next.open && next.remnant.Nothing? && next.failed.None? && !next.closed
  {
    hide EncodeRecord, EncodeFile, Deliver;
    EmptyFileSize(LastFile(log));
    ApplyKeepsInv(st, log, Write(d, env));
    if ShouldRotate(st, log, RECORD_HEADER_SIZE + |d.payload|, env.now) {
      var rotated := Rotate(st, log, env).0;
      var r := NumberedRecord(rotated, d, env.recordStamp);
      LastReplaced(rotated.files, LastFile(rotated).(records := LastFile(rotated).records + [r]));
      assert rotated.files[..|log.files|] == log.files && [] + [r] == [r];
    } else {
      LastReplaced(log.files, LastFile(log).(records := LastFile(log).records + [NumberedRecord(log, d, env.recordStamp)]));
    }
  }

  lemma LastReplaced(files: seq<LogFile>, f: LogFile)
    requires files != []
    ensures files[|files| - 1 := f] == files[..|files| - 1] + [f]
  {
  }
}
