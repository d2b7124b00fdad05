/** Whole runs of the journal: any sequence of calls, any rotations, any fault. */
module Runs {
  import opened Wrappers
  import opened Bytes
  import opened Ids
  import opened Format
  import opened Reader
  import opened Journal

  function Run(st: Settings, log: Log, ops: seq<Op>): (r: (Log, seq<Option<JournalError>>))
    requires log.files != []
    ensures |r.1| == |ops| && r.0.files != []
    decreases |ops|
  {
    if ops == [] then (log, [])
    else
      var (next, outcome) := Apply(st, log, ops[0]);
      var (end, outcomes) := Run(st, next, ops[1..]);
      (end, [outcome] + outcomes)
  }

  /** The calls come from the writer's public methods, which fix the direction of every record. */
  predicate Issued(ops: seq<Op>) {
    forall i | 0 <= i < |ops| :: ops[i].Write? ==> DirectionAllowed(ops[i].draft.kind, ops[i].draft.direction)
  }

  /** The drafts whose calls reported success, in order. */
  function Acknowledged(ops: seq<Op>, outcomes: seq<Option<JournalError>>): seq<Draft>
    requires |ops| == |outcomes|
  {
    if ops == [] then []
    else (if ops[0].Write? && outcomes[0].None? then [ops[0].draft] else []) + Acknowledged(ops[1..], outcomes[1..])
  }

  function DraftsOf(rs: seq<Record>): (ds: seq<Draft>)
    ensures |ds| == |rs|
  {
    seq(|rs|, i requires 0 <= i < |rs| => rs[i].draft)
  }

  /** The drafts standing in the files, in file order. */
  function Recorded(files: seq<LogFile>): seq<Draft> {
    if files == [] then []
    else Recorded(files[..|files| - 1]) + DraftsOf(files[|files| - 1].records)
  }

  /** A new journal: one file, no record. */
  ghost predicate Fresh(st: Settings, log: Log) {
    LogInv(st, log) && |log.files| == 1 && log.files[0].records == [] && log.remnant.Nothing? && log.failed.None? && !log.closed
  }

  lemma {:induction false} RunKeepsInv(st: Settings, log: Log, ops: seq<Op>)
    requires LogInv(st, log) && Issued(ops)
    ensures LogInv(st, Run(st, log, ops).0)
    decreases |ops|
  {
    if ops != [] {
      ApplyKeepsInv(st, log, ops[0]);
      RunKeepsInv(st, Apply(st, log, ops[0]).0, ops[1..]);
    }
  }

  lemma ExtendLastFile(files: seq<LogFile>, r: Record)
    requires files != []
    ensures var f := files[|files| - 1];
            Recorded(files[|files| - 1 := f.(records := f.records + [r])]) == Recorded(files) + [r.draft]
  {
    var last := |files| - 1;
    var f := files[last];
    var g := f.(records := f.records + [r]);
    assert files[last := g][..last] == files[..last];
    assert DraftsOf(g.records) == DraftsOf(f.records) + [r.draft];
  }

  lemma OpenRecords(files: seq<LogFile>, h: FileHeader)
    ensures Recorded(files + [LogFile(h, [])]) == Recorded(files)
  {
    assert (files + [LogFile(h, [])])[..|files|] == files;
    assert DraftsOf([]) == [];
  }

  lemma RotateRecords(st: Settings, log: Log, env: Env)
    requires log.files != []
    ensures Recorded(Rotate(st, log, env).0.files) == Recorded(log.files)
  {
    OpenRecords(log.files, NextHeader(st, log, env.headerStamp));
  }

  lemma AppendRecords(log: Log, d: Draft, env: Env)
    requires log.files != []
    ensures var (next, outcome) := Append(log, d, env);
            Recorded(next.files) == Recorded(log.files) + if outcome.None? then [d] else []
  {
    hide Recorded;
    ExtendLastFile(log.files, NumberedRecord(log, d, env.recordStamp));
  }

  /** A call adds its draft to the journal exactly when it reports success. */
  lemma ApplyRecords(st: Settings, log: Log, op: Op)
    requires log.files != []
    ensures var (next, outcome) := Apply(st, log, op);
            Recorded(next.files) == Recorded(log.files) + if op.Write? && outcome.None? then [op.draft] else []
  {
    hide EncodeFile, Append, Rotate, Recorded, ShouldRotate;
    if op.Write? {
      var d, env := op.draft, op.env;
      RotateRecords(st, log, env);
      AppendRecords(log, d, env);
      AppendRecords(Rotate(st, log, env).0, d, env);
    }
  }

  lemma RunUnfolds(st: Settings, log: Log, ops: seq<Op>)
    requires log.files != [] && ops != []
    ensures var (next, outcome) := Apply(st, log, ops[0]);
            var (end, outcomes) := Run(st, next, ops[1..]);
            && Run(st, log, ops) == (end, [outcome] + outcomes)
            && Run(st, log, ops).1[1..] == outcomes
            && forall i | 0 < i < |ops| :: Run(st, log, ops).1[i] == outcomes[i - 1] && ops[i] == ops[1..][i - 1]
  {
    hide Apply;
  }

  /** Over any run, the journal holds exactly the acknowledged drafts, in call order. */
  lemma {:induction false} RunRecordsAcknowledged(st: Settings, log: Log, ops: seq<Op>)
    requires log.files != []
    ensures var (end, outcomes) := Run(st, log, ops);
            Recorded(end.files) == Recorded(log.files) + Acknowledged(ops, outcomes)
    decreases |ops|
  {
    hide Apply, Recorded;
    if ops == [] {
    } else {
      var next := Apply(st, log, ops[0]).0;
      RunUnfolds(st, log, ops);
      ApplyRecords(st, log, ops[0]);
      RunRecordsAcknowledged(st, next, ops[1..]);
    }
  }

  // ---------- failure ----------

  /** After a failure no call writes anything or reports success. */
  lemma {:induction false} FailureIsSticky(st: Settings, log: Log, ops: seq<Op>)
    requires log.files != [] && log.failed.Some?
    ensures var (end, outcomes) := Run(st, log, ops);
            && Disk(end) == Disk(log) && end.failed == log.failed
            && end.files == log.files && end.remnant == log.remnant
            && forall i | 0 <= i < |ops| && ops[i].Write? :: outcomes[i].Some?
    decreases |ops|
  {
    hide Append, Rotate, ShouldRotate, EncodeFile;
    if ops != [] {
      RunUnfolds(st, log, ops);
      FailureIsSticky(st, Apply(st, log, ops[0]).0, ops[1..]);
    }
  }

  lemma FirstFailure(st: Settings, log: Log, op: Op)
    requires log.files != [] && log.failed.None? && log.remnant.Nothing?
    ensures var (next, outcome) := Apply(st, log, op);
            next.failed.Some? ==>
              && op.Write? && outcome == next.failed
              && (next.remnant.PartOfRecord? ==> next.remnant.record.draft == op.draft)
  {
    hide ShouldRotate, EncodeFile;
  }

  /** The i-th call is the one that failed, and every write call from it on was refused. */
  ghost predicate FailedAt(ops: seq<Op>, outcomes: seq<Option<JournalError>>, end: Log, i: nat)
    requires |ops| == |outcomes|
  {
    && i < |ops| && ops[i].Write? && outcomes[i] == end.failed
    && (end.remnant.PartOfRecord? ==> end.remnant.record.draft == ops[i].draft)
    && forall j | i <= j < |ops| && ops[j].Write? :: outcomes[j].Some?
  }

  /** Whatever stands half-written at the end of a run came from the single
      call that failed. */
  lemma {:induction false} RemnantIsTheFailedCall(st: Settings, log: Log, ops: seq<Op>)
    requires LogInv(st, log) && log.failed.None? && Issued(ops)
    ensures var (end, outcomes) := Run(st, log, ops);
            end.failed.Some? ==> exists i: nat :: FailedAt(ops, outcomes, end, i)
    decreases |ops|
  {
    hide Apply, LogInv, EncodeFile;
    HealthyLeavesNothing(st, log);
    if ops != [] {
      var next := Apply(st, log, ops[0]).0;
      RunUnfolds(st, log, ops);
      ApplyKeepsInv(st, log, ops[0]);
      FirstFailure(st, log, ops[0]);
      var (end, outcomes) := Run(st, log, ops);
      if next.failed.Some? {
        FailureIsSticky(st, next, ops[1..]);
        assert FailedAt(ops, outcomes, end, 0);
      } else {
        RemnantIsTheFailedCall(st, next, ops[1..]);
        if end.failed.Some? {
          var i: nat :| FailedAt(ops[1..], outcomes[1..], end, i);
          assert FailedAt(ops, outcomes, end, i + 1);
        }
      }
    }
  }

  lemma HealthyLeavesNothing(st: Settings, log: Log)
    requires LogInv(st, log) && log.failed.None?
    ensures log.files != [] && log.remnant.Nothing?
  {
  }

  /** A call that the disk serves: a well-formed draft, and nothing it needs from the disk fails. */
  predicate Serviceable(op: Op) {
    && op.Write? && WellFormed(op.draft)
    && op.env.sync && op.env.close && op.env.create
    && Deliver(FILE_HEADER_SIZE, op.env.fileHeader).ok && Deliver(RECORD_HEADER_SIZE, op.env.recordHeader).ok
    && Deliver(|op.draft.payload|, op.env.payload).ok
  }

  lemma ServiceableSucceeds(st: Settings, log: Log, op: Op)
    requires log.files != [] && log.failed.None? && !log.closed && Serviceable(op)
    ensures var (next, outcome) := Apply(st, log, op);
            outcome.None? && next.failed.None? && !next.closed
  {
    hide EncodeFile, ShouldRotate, Deliver;
  }

  /** A journal refuses no well-formed record of its own accord: while the disk
      serves every call, every call succeeds, whatever rotates in between. */
  lemma {:induction false} ServedDiskRefusesNothing(st: Settings, log: Log, ops: seq<Op>)
    requires log.files != [] && log.failed.None? && !log.closed
    requires forall i | 0 <= i < |ops| :: Serviceable(ops[i])
    ensures forall i | 0 <= i < |ops| :: Run(st, log, ops).1[i].None?
    ensures Run(st, log, ops).0.failed.None?
    decreases |ops|
  {
    hide Apply, Serviceable;
    if ops != [] {
      ServiceableSucceeds(st, log, ops[0]);
      RunUnfolds(st, log, ops);
      ServedDiskRefusesNothing(st, Apply(st, log, ops[0]).0, ops[1..]);
    }
  }

  // ---------- reading a journal back ----------

  /** Files read in the order given; the first unreadable one stops the reading. */
  function ReadAll(listing: seq<Bytes>): Result<seq<ReadResult>, ReadError> {
    if listing == [] then Ok([])
    else
      match (ReadFile(listing[0]), ReadAll(listing[1..]))
      case (Err(e), _) => Err(e)
      case (_, Err(e)) => Err(e)
      case (Ok(r), Ok(rs)) => Ok([r] + rs)
  }

  lemma {:induction false} ReadAllPointwise(listing: seq<Bytes>)
    ensures ReadAll(listing).Ok? <==> forall i | 0 <= i < |listing| :: ReadFile(listing[i]).Ok?
    ensures ReadAll(listing).Ok? ==>
              && |ReadAll(listing).value| == |listing|
              && forall i | 0 <= i < |listing| :: ReadFile(listing[i]) == Ok(ReadAll(listing).value[i])
  {
    hide ReadFile;
    if listing != [] {
      ReadAllPointwise(listing[1..]);
      assert forall i | 0 < i < |listing| :: listing[i] == listing[1..][i - 1];
    }
  }

  lemma {:induction false} NumberedIsReadable(rs: seq<Record>, last: uint64)
    requires |rs| + last < TWO_64
    requires forall i | 0 <= i < |rs| :: WellFormed(rs[i].draft) && rs[i].number == last + i + 1
    ensures Readable(rs, last)
  {
    if rs != [] {
      NumberedIsReadable(rs[1..], rs[0].number);
    }
  }

  /** Whether the failed record nevertheless stands whole on disk. */
  predicate FailedRecordIsWhole(log: Log) {
    log.remnant.PartOfRecord? && log.remnant.count == |EncodeRecord(log.remnant.record)|
  }

  predicate FailedRecordIsCut(log: Log) {
    log.remnant.PartOfRecord? && 0 < log.remnant.count < |EncodeRecord(log.remnant.record)|
  }

  /** The files of a journal as a reader sees them. */
  function Visible(log: Log): seq<LogFile>
    requires log.files != []
  {
    match log.remnant
    case Nothing => log.files
    case PartOfRecord(r, n) =>
      var f := log.files[|log.files| - 1];
      if n == |EncodeRecord(r)| then log.files[|log.files| - 1 := f.(records := f.records + [r])] else log.files
    case PartOfHeader(h, n) => log.files + [LogFile(h, [])]
  }

  lemma ReadLastFile(f: LogFile, r: Record, n: nat)
    requires Numbered(f.records + [r]) && n <= |EncodeRecord(r)|
    ensures ReadFile(EncodeFile(f) + EncodeRecord(r)[..n])
            == Ok(if n == |EncodeRecord(r)| then ReadResult(f.header, f.records + [r], false)
                  else ReadResult(f.header, f.records, n != 0))
  {
    hide EncodeRecord, EncodeFileHeader, ReadRecords, EncodeRecords, ReadFile, Readable;
    NumberedIsReadable(f.records + [r], 0);
    ReadWithRemnant(f.records, r, n);
    var body := EncodeRecords(f.records) + EncodeRecord(r)[..n];
    ReadFileOf(f.header, body);
    assert EncodeFile(f) + EncodeRecord(r)[..n] == EncodeFileHeader(f.header) + body;
  }

  /** Reading the disk of a journal in any reachable state. The reader fails
      exactly when a new file's header was cut short. Otherwise it returns the
      acknowledged records, followed by the failed record when every one of
      its bytes had reached the disk; only the last file can have a truncated
      tail, exactly when the failed record is there in part. */
  lemma ReadBack(st: Settings, log: Log)
    requires LogInv(st, log)
    ensures ReadAll(Disk(log)).Err? <==> log.remnant.PartOfHeader? && log.remnant.count < FILE_HEADER_SIZE
    ensures ReadAll(Disk(log)).Ok? ==>
              var rs := ReadAll(Disk(log)).value;
              && |rs| == |Visible(log)|
              && forall i | 0 <= i < |rs| :: rs[i] == SeenAs(log, i)
    ensures Recorded(Visible(log)) == Recorded(log.files) + if FailedRecordIsWhole(log) then [log.remnant.record.draft] else []
  {
    hide EncodeRecord, EncodeFileHeader, EncodeFile, ReadFile, SeenAs, Disk, FileInv;
    var disk := Disk(log);
    DiskShape(log);
    forall i | 0 <= i < |log.files|
      ensures ReadFile(disk[i]) == Ok(SeenAs(log, i))
    {
      WholeFileReads(st, log, i);
    }
    if log.remnant.PartOfRecord? {
      ExtendLastFile(log.files, log.remnant.record);
    } else if log.remnant.PartOfHeader? {
      OpenRecords(log.files, log.remnant.header);
      HeaderOnlyReads(log);
    }
    ReadAllPointwise(disk);
  }

  /** The i-th file of a journal as the reader returns it. */
  function SeenAs(log: Log, i: nat): ReadResult
    requires log.files != [] && i < |Visible(log)|
  {
    var f := Visible(log)[i];
    ReadResult(f.header, f.records, FailedRecordIsCut(log) && i == |log.files| - 1)
  }

  lemma DiskShape(log: Log)
    requires log.files != []
    ensures |Disk(log)| == |Visible(log)| == |log.files| + if log.remnant.PartOfHeader? then 1 else 0
  {
  }

  lemma WholeFileReads(st: Settings, log: Log, i: nat)
    requires LogInv(st, log) && i < |log.files|
    ensures i < |Disk(log)| && i < |Visible(log)| && ReadFile(Disk(log)[i]) == Ok(SeenAs(log, i))
  {
    hide EncodeRecord, EncodeFileHeader, EncodeFile, ReadFile;
    if log.remnant.PartOfRecord? && i == |log.files| - 1 {
      ReadLastFile(LastFile(log), log.remnant.record, log.remnant.count);
    } else {
      NumberedIsReadable(log.files[i].records, 0);
      FileRoundTrip(log.files[i]);
    }
  }

  lemma HeaderOnlyReads(log: Log)
    requires log.files != [] && log.remnant.PartOfHeader? && log.remnant.count <= FILE_HEADER_SIZE
    ensures |Disk(log)| == |Visible(log)| == |log.files| + 1
    ensures var file := Disk(log)[|log.files|];
            && (ReadFile(file).Err? <==> log.remnant.count < FILE_HEADER_SIZE)
            && (ReadFile(file).Ok? ==> ReadFile(file).value == SeenAs(log, |log.files|))
  {
    hide EncodeFileHeader, ReadFile;
    var f := LogFile(log.remnant.header, []);
    var cut := log.remnant.count;
    assert EncodeRecords([]) == [];
    assert EncodeFile(f) == EncodeFileHeader(f.header);
    CutFile(f, cut);
    assert Disk(log)[|log.files|] == EncodeFile(f)[..cut];
    if cut == FILE_HEADER_SIZE {
      FileRoundTrip(f);
      assert EncodeFile(f)[..cut] == EncodeFile(f);
    }
  }

  /** No file on disk exceeds the larger of the rotate size and one full record. */
  lemma DiskIsBounded(st: Settings, log: Log)
    requires LogInv(st, log)
    ensures forall i | 0 <= i < |Disk(log)| :: |Disk(log)[i]| <= LargestFile(st)
    ensures forall i | 0 <= i < |log.files| :: |log.files[i].records| <= 1 || |EncodeFile(log.files[i])| <= st.rotateSize
  {
    hide EncodeRecord, EncodeFileHeader, EncodeFile;
    if log.remnant.PartOfRecord? {
      assert |EncodeFile(LastFile(log))| + |EncodeRecord(log.remnant.record)|
          == |EncodeFile(LastFile(log).(records := LastFile(log).records + [log.remnant.record]))| by {
        EncodedSize(LastFile(log), log.remnant.record);
      }
    }
  }

  lemma EncodedSize(f: LogFile, r: Record)
    ensures |EncodeFile(f.(records := f.records + [r]))| == |EncodeFile(f)| + |EncodeRecord(r)|
  {
    hide EncodeRecord, EncodeFileHeader;
    EncodeRecordsSnoc(f.records, r);
  }
}
