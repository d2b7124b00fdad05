/** Which replies of the disk make a journal unreadable, and which leave a
    refused record standing whole (writeFull, openNextLocked and writeRecord,
    internal/evidence/bwj.go). */
module Failures {
  import opened Wrappers
  import opened Bytes
  import opened Ids
  import opened Format
  import opened Drafts
  import opened Reader
  import opened Journal
  import opened Runs
  import opened Sharing

  // ---------- one write ----------

  /** The reply that took the last of `size` bytes also reported an error. */
  predicate LastByteErred(size: nat, replies: seq<Reply>)
    decreases replies
  {
    && size > 0 && replies != []
    && var n := Min(replies[0].taken, size);
       if n == size then replies[0].error else !replies[0].error && n > 0 && LastByteErred(size - n, replies[1..])
  }

  /** All bytes are out although the write failed, exactly then. */
  lemma {:induction false} LateError(size: nat, replies: seq<Reply>)
    ensures LastByteErred(size, replies) <==> Deliver(size, replies).count == size && !Deliver(size, replies).ok
    decreases replies
  {
    if size > 0 && replies != [] {
      var n := Min(replies[0].taken, size);
      if !replies[0].error && 0 < n < size {
        LateError(size - n, replies[1..]);
      } else if n == size {
        DeliverNothing(replies[1..]);
      }
    }
  }

  // ---------- one call ----------

  /** The call opens a new file first. */
  predicate Rotates(st: Settings, log: Log, op: Op)
    requires log.files != [] && op.Write?
  {
    ShouldRotate(st, log, RECORD_HEADER_SIZE + |op.draft.payload|, op.env.now)
  }

  /** Up to the new file's header the disk served the call. */
  predicate NewFileReached(log: Log, env: Env) {
    (log.open ==> env.sync && env.close) && env.create
  }

  /** The new file's header was cut short. */
  predicate CutsHeader(st: Settings, log: Log, op: Op)
    requires log.files != []
  {
    && op.Write? && Rotates(st, log, op) && NewFileReached(log, op.env)
    && Deliver(FILE_HEADER_SIZE, op.env.fileHeader).count < FILE_HEADER_SIZE
  }

  /** The reply that took the record's last byte reported an error. */
  predicate LeavesWhole(st: Settings, log: Log, op: Op)
    requires log.files != []
  {
    && op.Write?
    && (Rotates(st, log, op) ==> NewFileReached(log, op.env) && Deliver(FILE_HEADER_SIZE, op.env.fileHeader).ok)
    && if op.draft.payload == [] then LastByteErred(RECORD_HEADER_SIZE, op.env.recordHeader)
       else Deliver(RECORD_HEADER_SIZE, op.env.recordHeader).ok && LastByteErred(|op.draft.payload|, op.env.payload)
  }

  /** What one call on a living journal leaves behind is decided by the disk's replies to it. */
  lemma CallLeaves(st: Settings, log: Log, op: Op)
    requires LogInv(st, log) && !Dead(log) && (op.Write? ==> WellFormed(op.draft))
    ensures var next := Apply(st, log, op).0;
            && (FailedRecordIsWhole(next) <==> LeavesWhole(st, log, op))
            && (next.remnant.PartOfHeader? && next.remnant.count < FILE_HEADER_SIZE <==> CutsHeader(st, log, op))
  {
    hide ShouldRotate, EncodeFile, FileInv, Deliver;
    LivingIsClean(st, log);
    if op.Write? {
      LateError(RECORD_HEADER_SIZE, op.env.recordHeader);
      LateError(|op.draft.payload|, op.env.payload);
      DeliverNothing(op.env.payload);
      EncodedRecordSize(NumberedRecord(log, op.draft, op.env.recordStamp));
      EncodedRecordSize(NumberedRecord(Rotate(st, log, op.env).0, op.draft, op.env.recordStamp));
    }
  }

  lemma LivingIsClean(st: Settings, log: Log)
    requires LogInv(st, log) && !Dead(log)
    ensures log.files != [] && log.remnant.Nothing? && log.failed.None? && !log.closed
  {
    hide FileInv;
  }

  lemma EncodedRecordSize(r: Record)
    ensures |EncodeRecord(r)| == RECORD_HEADER_SIZE + |r.draft.payload|
  {
  }

  // ---------- a whole run ----------

  /** The call that ended the journal, and the journal it found. */
  function LastStand(st: Settings, log: Log, ops: seq<Op>): (r: Option<(Log, Op)>)
    requires log.files != []
    ensures r.Some? ==> r.value.0.files != [] && r.value.1 in ops
    decreases |ops|
  {
    if ops == [] then None
    else
      var next := Apply(st, log, ops[0]).0;
      if Dead(next) then Some((log, ops[0])) else LastStand(st, next, ops[1..])
  }

  lemma CallOnTheLiving(st: Settings, log: Log, op: Op)
    requires LogInv(st, log) && !Dead(log) && (op.Write? ==> WellFormed(op.draft))
    ensures LogInv(st, Apply(st, log, op).0)
    ensures op.Write? && Apply(st, log, op).1.None? <==> !Dead(Apply(st, log, op).0)
  {
    hide ShouldRotate, EncodeFile, FileInv;
    ApplyKeepsInv(st, log, op);
  }

  /** What a run leaves behind was decided by the replies to the one call that ended the journal. */
  lemma {:induction false} RunLeaves(st: Settings, log: Log, ops: seq<Op>)
    requires LogInv(st, log) && !Dead(log) && AllWellFormed(ops)
    ensures var end, last := Run(st, log, ops).0, LastStand(st, log, ops);
            && (FailedRecordIsWhole(end) <==> last.Some? && LeavesWhole(st, last.value.0, last.value.1))
            && (FailedRecordIsWhole(end) ==> end.remnant.record.draft == last.value.1.draft)
            && (end.remnant.PartOfHeader? && end.remnant.count < FILE_HEADER_SIZE <==>
                  last.Some? && CutsHeader(st, last.value.0, last.value.1))
    decreases |ops|
  {
    hide Apply, LogInv, EncodeFile, EncodeRecord, Dead, WellFormed, LeavesWhole, CutsHeader;
    LivingIsClean(st, log);
    if ops != [] {
      var next := Apply(st, log, ops[0]).0;
      RunUnfolds(st, log, ops);
      CallOnTheLiving(st, log, ops[0]);
      if Dead(next) {
        DeadKeepsRemnant(st, next, ops[1..]);
        CallLeaves(st, log, ops[0]);
        RemnantIsOfTheCall(st, log, ops[0]);
      } else {
        RunLeaves(st, next, ops[1..]);
      }
    }
  }

  lemma RemnantIsOfTheCall(st: Settings, log: Log, op: Op)
    requires LogInv(st, log) && !Dead(log) && (op.Write? ==> WellFormed(op.draft))
    ensures var next := Apply(st, log, op).0;
            next.remnant.PartOfRecord? ==> op.Write? && next.remnant.record.draft == op.draft
  {
    hide ShouldRotate, EncodeFile, FileInv, EncodeRecord;
    LivingIsClean(st, log);
  }

  /** Reading back a run from a new journal: it fails exactly when the call
      that ended the journal had the header of a new file cut short; otherwise
      it gives the acknowledged records, and one more exactly when that call's
      record lost nothing but its acknowledgement. */
  lemma ReadBackOfARun(st: Settings, log: Log, ops: seq<Op>)
    requires Fresh(st, log) && AllWellFormed(ops)
    ensures var (end, outcomes) := Run(st, log, ops);
            var last := LastStand(st, log, ops);
            && (ReadAll(Disk(end)).Err? <==> last.Some? && CutsHeader(st, last.value.0, last.value.1))
            && Recorded(Visible(end))
               == Acknowledged(ops, outcomes)
                  + if last.Some? && LeavesWhole(st, last.value.0, last.value.1) then [last.value.1.draft] else []
  {
    hide Run, LogInv, Recorded, Visible, ReadAll, SeenAs, Disk, Acknowledged, LeavesWhole, CutsHeader, LastStand;
    var end := Run(st, log, ops).0;
    RunKeepsInv(st, log, ops);
    RunRecordsAcknowledged(st, log, ops);
    RunLeaves(st, log, ops);
    ReadBack(st, end);
    NothingRecorded(log);
    assert [] + Acknowledged(ops, Run(st, log, ops).1) == Acknowledged(ops, Run(st, log, ops).1);
  }

  lemma NothingRecorded(log: Log)
    requires |log.files| == 1 && log.files[0].records == []
    ensures Recorded(log.files) == []
  {
    assert log.files[..0] == [] && DraftsOf([]) == [];
  }

  // ---------- both happen ----------

  const SETTINGS: Settings := Settings(NO_ID, 1000, 10)

  function NewLog(): Log {
    Log([LogFile(FileHeader(0, NO_ID, 1), [])], Nothing, 0, true, None, false)
  }

  lemma NewLogIsFresh()
    ensures Fresh(SETTINGS, NewLog()) && !Dead(NewLog())
  {
    var f := NewLog().files[0];
    assert EncodeRecords([]) == [];
    assert |EncodeFile(f)| == FILE_HEADER_SIZE;
    assert FileInv(SETTINGS, f, 0);
  }

  /** An OPEN record at some time, the disk answering as given. */
  function OpenAt(now: int, fileHeader: seq<Reply>, recordHeader: seq<Reply>): Op {
    Write(OpenDraft(NO_ID), Env(now, 0, 0, 0, true, true, true, fileHeader, recordHeader, []))
  }

  /** A refused record can stand whole: here the write of an OPEN record takes
      all its bytes and reports an error, and the reader returns the record. */
  lemma RefusedRecordIsFound()
    ensures var ops := [OpenAt(0, [], [Reply(RECORD_HEADER_SIZE, true)])];
            var (end, outcomes) := Run(SETTINGS, NewLog(), ops);
            && outcomes[0].Some? && Acknowledged(ops, outcomes) == []
            && ReadAll(Disk(end)).Ok? && Recorded(Visible(end)) == [OpenDraft(NO_ID)]
  {
    hide Disk, Visible, ReadAll, Recorded, EncodeRecord, Fresh, LogInv;
    var op := OpenAt(0, [], [Reply(RECORD_HEADER_SIZE, true)]);
    var log := NewLog();
    NewLogIsFresh();
    OneCall(SETTINGS, log, op);
    assert !Rotates(SETTINGS, log, op) by {
      assert EncodeRecords([]) == [];
    }
    assert LeavesWhole(SETTINGS, log, op);
    assert [] + [OpenDraft(NO_ID)] == [OpenDraft(NO_ID)];
  }

  /** A file header can be cut: here the file has reached its age, the new
      one's header is cut after ten bytes, and the reader refuses the journal. */
  lemma CutHeaderIsRefused()
    ensures var ops := [OpenAt(10, [Reply(10, true)], [])];
            var (end, outcomes) := Run(SETTINGS, NewLog(), ops);
            outcomes[0].Some? && ReadAll(Disk(end)).Err?
  {
    hide Disk, Visible, ReadAll, Recorded, EncodeRecord, Fresh, LogInv;
    var op := OpenAt(10, [Reply(10, true)], []);
    var log := NewLog();
    NewLogIsFresh();
    OneCall(SETTINGS, log, op);
    assert CutsHeader(SETTINGS, log, op);
  }

  /** A run of one call that ends the journal. */
  lemma OneCall(st: Settings, log: Log, op: Op)
    requires Fresh(st, log) && !Dead(log) && op.Write? && WellFormed(op.draft)
    ensures var (end, outcomes) := Run(st, log, [op]);
            && outcomes == [Apply(st, log, op).1]
            && (outcomes[0].Some? ==>
                  && Acknowledged([op], outcomes) == []
                  && (ReadAll(Disk(end)).Err? <==> CutsHeader(st, log, op))
                  && Recorded(Visible(end)) == [] + if LeavesWhole(st, log, op) then [op.draft] else [])
  {
    hide Apply, LogInv, Recorded, Visible, ReadAll, Disk, LeavesWhole, CutsHeader, Dead, WellFormed;
    assert [op][1..] == [];
    RunUnfolds(st, log, [op]);
    CallOnTheLiving(st, log, op);
    ReadBackOfARun(st, log, [op]);
  }
}
