/** The journal writer object (BWJWriter, internal/evidence/bwj.go). Its
    directory is an append-only list of files; `log` is the value the bytes on
    disk stand for. */
module Writer {
  import opened Wrappers
  import opened Bytes
  import opened Ids
  import opened Format
  import opened Drafts
  import opened Reader
  import opened Journal
  import opened Runs

  /** A directory after more bytes were appended to one of its files. */
  function Extend(disk: seq<Bytes>, target: nat, more: Bytes): (r: seq<Bytes>)
    requires target < |disk|
    ensures |r| == |disk|
  {
    disk[target := disk[target] + more]
  }

  lemma ExtendTwice(disk: seq<Bytes>, target: nat, a: Bytes, b: Bytes)
    requires target < |disk|
    ensures Extend(disk, target, []) == disk
    ensures Extend(Extend(disk, target, a), target, b) == Extend(disk, target, a + b)
  {
    assert disk[target] + a + b == disk[target] + (a + b);
    assert disk[target] + [] == disk[target];
  }

  /** One record more, of this connection and with this meaning. */
  ghost predicate Gained(before: Log, after: Log, connection: ID, meaning: Meaning) {
    exists d: Draft ::
      Recorded(after.files) == Recorded(before.files) + [d] && d.connection == connection && MeaningOf(d) == meaning
  }

  lemma OpenIsOpening(connection: ID)
    ensures MeaningOf(OpenDraft(connection)) == Opening
  {
  }

  class BWJWriter {
    const settings: Settings
    var disk: seq<Bytes>
    var file: Option<nat>
    var fileSequence: uint64
    var recordSequence: uint64
    var createdAt: int
    var bytesWritten: int
    var closed: bool
    var failed: Option<JournalError>
    ghost var log: Log

    /** The open file's counters agree with what is on disk. */
    ghost predicate Counts()
      reads this
    {
      && log.files != []
      && file == Some(|log.files| - 1)
      && fileSequence == |log.files| % TWO_64
      && recordSequence == |LastFile(log).records|
      && createdAt == log.createdAt
      && bytesWritten == |EncodeFile(LastFile(log))|
    }

    ghost predicate Valid()
      reads this
    {
      && LogInv(settings, log)
      && disk == Disk(log)
      && closed == log.closed
      && failed == log.failed
      && (file.Some? <==> log.open)
      && (file.Some? ==> file.value < |disk|)
      && (failed.None? && !closed ==> Counts())
    }

    constructor Blank(st: Settings)
      ensures settings == st && disk == [] && file.None? && fileSequence == 0 && !closed && failed.None?
      ensures log == Log([], Nothing, 0, false, None, false)
    {
      settings := st;
      disk, file, fileSequence, recordSequence := [], None, 0, 0;
      createdAt, bytesWritten, closed, failed := 0, 0, false, None;
      log := Log([], Nothing, 0, false, None, false);
    }

    /** writeFull: repeats short writes; stops at an error or at no progress. */
    method WriteFull(target: nat, data: Bytes, replies: seq<Reply>) returns (ok: bool)
      requires target < |disk|
      modifies this`disk
      ensures var d := Deliver(|data|, replies);
              ok == d.ok && disk == Extend(old(disk), target, data[..d.count])
    {
      var rest := data;
      var i := 0;
      ExtendTwice(disk, target, [], []);
      assert data[..0] == [];
      while |rest| > 0
        invariant i <= |replies| && |rest| <= |data| && rest == data[|data| - |rest|..]
        invariant disk == Extend(old(disk), target, data[..|data| - |rest|])
        invariant Deliver(|data|, replies)
                  == Delivery(|data| - |rest| + Deliver(|rest|, replies[i..]).count, Deliver(|rest|, replies[i..]).ok)
        decreases |rest|
      {
        if i == |replies| {
          return false;
        }
        var n := Min(replies[i].taken, |rest|);
        var bad := replies[i].error;
        ghost var sent := |data| - |rest|;
        ExtendTwice(old(disk), target, data[..sent], rest[..n]);
        assert rest[..n] == data[sent..sent + n];
        assert data[..sent] + rest[..n] == data[..sent + n];
        disk := Extend(disk, target, rest[..n]);
        rest := rest[n..];
        i := i + 1;
        if bad || n == 0 {
          return false;
        }
      }
      return true;
    }

    method OpenNextLocked(env: Env) returns (err: Option<JournalError>)
      requires file.None? && fileSequence == |log.files| % TWO_64
      requires log.remnant.Nothing? && disk == Disk(log)
      modifies this`disk, this`file, this`fileSequence, this`recordSequence, this`createdAt, this`bytesWritten, this`log
      ensures (log, err) == OpenNext(settings, old(log), env)
      ensures disk == Disk(log)
      ensures err.None? ==> Counts()
      ensures err.Some? ==> file.None?
    {
      hide EncodeFileHeader, EncodeFile, DiskOf, Extend, Deliver;
      ghost var before := log;
      log := OpenNext(settings, before, env).0;
      fileSequence := (fileSequence + 1) % TWO_64;
      UncreatedDisk(settings, before, env);
      if !env.create {
        return Some(CreateFailed);
      }
      var header := EncodeFileHeader(FileHeader(env.headerStamp, settings.run, fileSequence));
      disk := disk + [[]];
      OpenedDisk(settings, before, env);
      var ok := WriteFull(|disk| - 1, header, env.fileHeader);
      if !ok {
        return Some(FileHeaderFailed);
      }
      file := Some(|disk| - 1);
      recordSequence := 0;
      createdAt := env.created;
      bytesWritten := FILE_HEADER_SIZE;
      EmptyFile(LogFile(NextHeader(settings, before, env.headerStamp), []));
      return None;
    }

    method RotateLocked(env: Env) returns (err: Option<JournalError>)
      requires Valid() && failed.None? && !closed
      modifies this`disk, this`file, this`fileSequence, this`recordSequence, this`createdAt, this`bytesWritten, this`log
      ensures (log, err) == Rotate(settings, old(log), env)
      ensures disk == Disk(log)
      ensures err.None? ==> Counts()
      ensures err.Some? ==> (file.Some? <==> log.open) && (file.Some? ==> file.value < |disk|)
    {
      if !env.sync {
        return Some(SyncFailed);
      }
      if !env.close {
        return Some(CloseFailed);
      }
      file := None;
      err := OpenNextLocked(env);
    }

    function ShouldRotateLocked(next: nat, now: int): bool
      reads this
    {
      || file.None?
      || (settings.rotateSize > 0 && bytesWritten > FILE_HEADER_SIZE && bytesWritten + next > settings.rotateSize)
      || (settings.rotateAge > 0 && now - createdAt >= settings.rotateAge)
    }

    /** One record. The whole new journal is the value-level step; Valid ties
        the bytes on disk to it. */
    method WriteRecord(d: Draft, env: Env) returns (err: Option<JournalError>)
      requires Valid() && DirectionAllowed(d.kind, d.direction)
      modifies this
      ensures Valid()
      ensures (log, err) == Journal.WriteRecord(settings, old(log), d, env)
      ensures err.None? ==> Placed(settings, old(log), d, env, log)
    {
      hide EncodeFile, DiskOf, RemnantInv, Deliver, Placed;
      ApplyKeepsInv(settings, log, Write(d, env));
      if Journal.WriteRecord(settings, log, d, env).1.None? {
        RecordIsPlaced(settings, log, d, env);
      }
      if !FlagsAllowed(d.flags) {
        return Some(ReservedFlagsSet);
      }
      if !PayloadAllowed(d.kind, |d.payload|) {
        return Some(PayloadRefused);
      }
      if closed {
        return Some(WriterClosed);
      }
      if failed.Some? {
        return failed;
      }
      if ShouldRotateLocked(RECORD_HEADER_SIZE + |d.payload|, env.now) {
        var rotation := RotateLocked(env);
        if rotation.Some? {
          failed := rotation;
          log := log.(failed := rotation);
          return failed;
        }
      }
      err := AppendLocked(d, env);
    }

    method AppendLocked(d: Draft, env: Env) returns (err: Option<JournalError>)
      requires Counts() && disk == Disk(log) && log.remnant.Nothing?
      requires closed == log.closed && failed == log.failed && failed.None? && !closed && log.open
      requires WellFormed(d) && |LastFile(log).records| < TWO_64
      requires LogInv(settings, Append(log, d, env).0)
      modifies this
      ensures Valid()
      ensures (log, err) == Append(old(log), d, env)
    {
      hide LogInv, EncodeFile, EncodeRecordHeader, EncodeRecord, DiskOf, Extend, Deliver;
      ghost var before := log;
      log := Append(before, d, env).0;
      LastFileIsCounted(settings, log);
      DiskShape(before);
      recordSequence := (recordSequence + 1) % TWO_64;
      var record := Record(d, env.recordStamp, recordSequence);
      AppendedDisk(before, d, env);
      EncodedSize(LastFile(before), record);
      var ok := WriteFull(file.value, EncodeRecordHeader(record), env.recordHeader);
      if !ok {
        ExtendTwice(disk, file.value, [], []);
        failed := Some(RecordHeaderFailed);
        return failed;
      }
      if |d.payload| > 0 {
        ok := WriteFull(file.value, d.payload, env.payload);
        if !ok {
          failed := Some(PayloadFailed);
          return failed;
        }
      } else {
        DeliverNothing(env.payload);
        ExtendTwice(disk, file.value, [], []);
      }
      bytesWritten := bytesWritten + RECORD_HEADER_SIZE + |d.payload|;
      return None;
    }

    /** Splits the data into records of at most 65536 bytes. What is recorded
        is a front part of the pieces, all of them exactly on success. */
    method WriteData(connection: ID, request: ID, direction: byte, flags: byte, data: Bytes, envs: nat -> Env)
      returns (err: Option<JournalError>, ghost written: nat)
      requires Valid()
      modifies this
      ensures Valid()
      ensures direction != INBOUND && direction != OUTBOUND ==> err == Some(InvalidDirection) && log == old(log)
      ensures var pieces := Pieces(Draft(DATA, direction, flags, connection, request, []), data);
              && written <= |pieces|
              && Recorded(log.files) == Recorded(old(log.files)) + pieces[..written]
              && (err.None? <==> written == |pieces| && (direction == INBOUND || direction == OUTBOUND))
    {
      hide FileInv, RemnantInv, Recorded, Journal.WriteRecord, DiskOf, EncodeFile, Counts;
      written := 0;
      var template := Draft(DATA, direction, flags, connection, request, []);
      if direction != INBOUND && direction != OUTBOUND {
        return Some(InvalidDirection), 0;
      }
      var rest := data;
      var i := 0;
      ghost var pieces := Pieces(template, data);
      assert pieces[..0] == [];
      while |rest| > 0
        invariant Valid()
        invariant i <= |pieces| && pieces[i..] == Pieces(template, rest)
        invariant Recorded(log.files) == Recorded(old(log.files)) + pieces[..i]
        decreases |rest|
      {
        var n := Min(|rest|, MAX_DATA_PAYLOAD);
        var d := template.(payload := rest[..n]);
        ApplyRecords(settings, log, Write(d, envs(i)));
        var outcome := WriteRecord(d, envs(i));
        assert pieces[i..] == [d] + Pieces(template, rest[n..]);
        if outcome.Some? {
          return outcome, i;
        }
        assert pieces[..i + 1] == pieces[..i] + [d];
        i := i + 1;
        rest := rest[n..];
      }
      return None, i;
    }

    method WriteConnectionOpen(connection: ID, env: Env) returns (err: Option<JournalError>)
      requires Valid()
      modifies this
      ensures Valid()
      ensures (log, err) == Journal.WriteRecord(settings, old(log), OpenDraft(connection), env)
      ensures err.None? ==> Gained(old(log), log, connection, Opening)
    {
      hide Journal.WriteRecord, Counts, FileInv, RemnantInv, Recorded, Placed, DiskOf, PutLE, MeaningOf;
      var d := OpenDraft(connection);
      OpenIsOpening(connection);
      ApplyRecords(settings, log, Write(d, env));
      err := WriteRecord(d, env);
    }

    method WriteConnectionClose(connection: ID, reason: uint16, env: Env) returns (err: Option<JournalError>)
      requires Valid()
      modifies this
      ensures Valid()
      ensures (log, err) == Journal.WriteRecord(settings, old(log), CloseDraft(connection, reason), env)
      ensures err.None? ==> Gained(old(log), log, connection, Closing(reason))
    {
      hide Journal.WriteRecord, Counts, FileInv, RemnantInv, Recorded, Placed, DiskOf, PutLE, MeaningOf;
      var d := CloseDraft(connection, reason);
      CloseTellsItsReason(connection, reason);
      ApplyRecords(settings, log, Write(d, env));
      err := WriteRecord(d, env);
    }

    method WriteParserError(connection: ID, code: uint16, position: uint64, env: Env) returns (err: Option<JournalError>)
      requires Valid()
      modifies this
      ensures Valid()
      ensures (log, err) == Journal.WriteRecord(settings, old(log), ParserErrorDraft(connection, code, position), env)
      ensures err.None? ==> Gained(old(log), log, connection, Refusal(code, position))
    {
      hide Journal.WriteRecord, Counts, FileInv, RemnantInv, Recorded, Placed, DiskOf, PutLE, MeaningOf;
      var d := ParserErrorDraft(connection, code, position);
      ParserErrorTellsWhere(connection, code, position);
      ApplyRecords(settings, log, Write(d, env));
      err := WriteRecord(d, env);
    }

    method WriteLimit(connection: ID, code: uint16, observed: uint64, env: Env) returns (err: Option<JournalError>)
      requires Valid()
      modifies this
      ensures Valid()
      ensures (log, err) == Journal.WriteRecord(settings, old(log), LimitDraft(connection, code, observed), env)
      ensures err.None? ==> Gained(old(log), log, connection, LimitHit(code, observed))
    {
      hide Journal.WriteRecord, Counts, FileInv, RemnantInv, Recorded, Placed, DiskOf, PutLE, MeaningOf;
      var d := LimitDraft(connection, code, observed);
      LimitTellsWhat(connection, code, observed);
      ApplyRecords(settings, log, Write(d, env));
      err := WriteRecord(d, env);
    }

    /** Closes once. What it reports is what went wrong before, and with the
        last file; a failure of the past is reported even when no file is open. */
    method Close(env: Env) returns (errors: seq<JournalError>)
      requires Valid()
      modifies this
      ensures Valid() && disk == old(disk)
      ensures log == if old(closed) then old(log) else CloseLog(old(log))
      ensures forall e :: e in errors <==>
                && !old(closed)
                && (old(failed) == Some(e) || (old(file).Some? && ((e == SyncFailed && !env.sync) || (e == CloseFailed && !env.close))))
    {
      errors := [];
      if closed {
        return;
      }
      closed := true;
      log := CloseLog(log);
      if failed.Some? {
        errors := [failed.value];
      }
      if file.None? {
        return;
      }
      if !env.sync {
        errors := errors + [SyncFailed];
      }
      if !env.close {
        errors := errors + [CloseFailed];
      }
      file := None;
    }
  }

  /** NewBWJWriter: the writer exists once its first file stands. Its invariant
      speaks of file sizes, and so needs a rotate size. */
  method NewBWJWriter(st: Settings, env: Env) returns (r: Result<BWJWriter, JournalError>)
    ensures r.Ok? <==> env.create && Deliver(FILE_HEADER_SIZE, env.fileHeader).ok
    ensures r.Err? ==> r.error == if env.create then FileHeaderFailed else CreateFailed
    ensures r.Ok? ==>
              && fresh(r.value) && r.value.settings == st && r.value.Counts() && !r.value.closed && r.value.failed.None?
              && r.value.log == Log([LogFile(FileHeader(env.headerStamp, st.run, 1), [])], Nothing, env.created, true, None, false)
              && r.value.disk == [EncodeFileHeader(FileHeader(env.headerStamp, st.run, 1))]
              && (st.rotateSize > 0 ==> r.value.Valid() && Fresh(st, r.value.log))
  {
    var w := new BWJWriter.Blank(st);
    var err := w.OpenNextLocked(env);
    if err.Some? {
      return Err(err.value);
    }
    EmptyFile(LastFile(w.log));
    return Ok(w);
  }

  lemma LastFileIsCounted(st: Settings, log: Log)
    requires LogInv(st, log)
    ensures |LastFile(log).records| < TWO_64
    ensures log.failed.None? ==> log.remnant.Nothing?
  {
  }

  lemma EmptyFile(f: LogFile)
    requires f.records == []
    ensures EncodeFile(f) == EncodeFileHeader(f.header)
  {
    assert EncodeRecords([]) == [];
  }

  lemma UncreatedDisk(st: Settings, before: Log, env: Env)
    requires before.remnant.Nothing?
    ensures |Disk(before)| == |before.files|
    ensures !env.create ==> Disk(OpenNext(st, before, env).0) == Disk(before)
  {
  }

  lemma OpenedDisk(st: Settings, before: Log, env: Env)
    requires before.remnant.Nothing? && env.create
    ensures var header := EncodeFileHeader(NextHeader(st, before, env.headerStamp));
            Disk(OpenNext(st, before, env).0)
            == Extend(Disk(before) + [[]], |Disk(before)|, header[..Deliver(FILE_HEADER_SIZE, env.fileHeader).count])
  {
    hide EncodeFileHeader, EncodeRecords;
    EmptyFile(LogFile(NextHeader(st, before, env.headerStamp), []));
    var header := EncodeFileHeader(NextHeader(st, before, env.headerStamp));
    assert header[..FILE_HEADER_SIZE] == header;
    var sent := header[..Deliver(FILE_HEADER_SIZE, env.fileHeader).count];
    assert [] + sent == sent;
  }

  lemma AppendedDisk(before: Log, d: Draft, env: Env)
    requires before.files != [] && before.remnant.Nothing?
    ensures var r := NumberedRecord(before, d, env.recordStamp);
            var last := |before.files| - 1;
            var head := Deliver(RECORD_HEADER_SIZE, env.recordHeader);
            var body := Deliver(|d.payload|, env.payload);
            Disk(Append(before, d, env).0)
            == Extend(Extend(Disk(before), last, EncodeRecordHeader(r)[..head.count]), last,
                      if head.ok then d.payload[..body.count] else [])
  {
    hide EncodeRecordHeader, EncodeFileHeader, EncodeRecords;
    var r := NumberedRecord(before, d, env.recordStamp);
    var f := LastFile(before);
    EncodeRecordsSnoc(f.records, r);
    assert EncodeFile(f.(records := f.records + [r])) == EncodeFile(f) + EncodeRecord(r);
    var head := Deliver(RECORD_HEADER_SIZE, env.recordHeader);
    var body := Deliver(|d.payload|, env.payload);
    ExtendTwice(Disk(before), |before.files| - 1, EncodeRecordHeader(r)[..head.count],
                if head.ok then d.payload[..body.count] else []);
    assert EncodeRecordHeader(r)[..head.count] + [] == EncodeRecordHeader(r)[..head.count];
    if head.ok {
      assert EncodeRecordHeader(r)[..head.count] == EncodeRecordHeader(r);
      assert EncodeRecord(r)[..RECORD_HEADER_SIZE + body.count] == EncodeRecordHeader(r) + d.payload[..body.count];
      assert body.ok ==> d.payload[..body.count] == d.payload;
    } else {
      assert EncodeRecord(r)[..head.count] == EncodeRecordHeader(r)[..head.count];
    }
  }
}
