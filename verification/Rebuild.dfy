/** Offline reconstruction of the byte streams from journal files
    (reconstructStreams, internal/index/index.go). */
module Rebuild {
  import opened Wrappers
  import opened Bytes
  import opened Sorting
  import opened Ids
  import opened Format
  import opened Drafts
  import opened Reader
  import opened Journal
  import opened Runs

  datatype Key = Key(run: Bytes, connection: Bytes)

  datatype Streams = Streams(inbound: Bytes, outbound: Bytes)

  function KeyOf(run: ID, connection: ID): Key {
    Key(FormatID(run), FormatID(connection))
  }

  /** The zero value of a missing key is a pair of empty streams. */
  function Lookup(wire: map<Key, Streams>, key: Key): Streams {
    if key in wire then wire[key] else Streams([], [])
  }

  function AddRecord(wire: map<Key, Streams>, run: ID, d: Draft): map<Key, Streams> {
    if d.kind != DATA then wire
    else
      var key := KeyOf(run, d.connection);
      var s := Lookup(wire, key);
      wire[key := if d.direction == INBOUND then s.(inbound := s.inbound + d.payload)
                  else if d.direction == OUTBOUND then s.(outbound := s.outbound + d.payload)
                  else s]
  }

  function AddRecords(wire: map<Key, Streams>, run: ID, ds: seq<Draft>): map<Key, Streams> {
    if ds == [] then wire
    else AddRecord(AddRecords(wire, run, ds[..|ds| - 1]), run, ds[|ds| - 1])
  }

  function Fold(files: seq<ReadResult>): map<Key, Streams> {
    if files == [] then map[]
    else
      var last := files[|files| - 1];
      AddRecords(Fold(files[..|files| - 1]), last.header.run, DraftsOf(last.records))
  }

  // ---------- sorting the files ----------

  /** The order of sort.Slice's comparison: run text, then file sequence. */
  predicate FileLess(a: ReadResult, b: ReadResult) {
    if a.header.run != b.header.run then Less(FormatID(a.header.run), FormatID(b.header.run))
    else a.header.sequence < b.header.sequence
  }

  /** Any result sort.Slice may give: a permutation without inversions. */
  ghost predicate SortedListing(items: seq<ReadResult>, sorted: seq<ReadResult>) {
    && multiset(items) == multiset(sorted)
    && Ordered(FileLess, sorted)
  }

  function SortFiles(items: seq<ReadResult>): seq<ReadResult> {
    SortBy(FileLess, items)
  }

  lemma FileOrderIsTransitive(a: ReadResult, b: ReadResult, c: ReadResult)
    requires !FileLess(b, a) && !FileLess(c, b)
    ensures !FileLess(c, a)
  {
    var ta, tb, tc := FormatID(a.header.run), FormatID(b.header.run), FormatID(c.header.run);
    LessIsTotal(ta, tb);
    LessIsTotal(tb, tc);
    LessIsTotal(ta, tc);
    if ta == tb { FormatIsInjective(a.header.run, b.header.run); }
    if tb == tc { FormatIsInjective(b.header.run, c.header.run); }
    if Less(ta, tb) && Less(tb, tc) { LessIsTransitive(ta, tb, tc); }
  }

  lemma FileOrderIsTotal(a: ReadResult, b: ReadResult)
    ensures FileLess(a, b) ==> !FileLess(b, a)
  {
    LessIsTotal(FormatID(a.header.run), FormatID(b.header.run));
  }

  lemma FileOrderCompares()
    ensures Comparison(FileLess)
  {
    hide FileLess;
    forall a, b
      ensures FileLess(a, b) ==> !FileLess(b, a)
    {
      FileOrderIsTotal(a, b);
    }
    forall a, b, c
      ensures !FileLess(b, a) && !FileLess(c, b) ==> !FileLess(c, a)
    {
      if !FileLess(b, a) && !FileLess(c, b) {
        FileOrderIsTransitive(a, b, c);
      }
    }
  }

  lemma SortFilesSorts(items: seq<ReadResult>)
    ensures SortedListing(items, SortFiles(items))
  {
    hide FileLess;
    FileOrderCompares();
    SortSorts(FileLess, items);
  }

  method ReadFiles(listing: seq<Bytes>) returns (r: Result<seq<ReadResult>, ReadError>)
    ensures r == ReadAll(listing)
  {
    hide ReadFile;
    var items: seq<ReadResult> := [];
    var i := 0;
    assert listing[0..] == listing;
    assert forall rest: seq<ReadResult> :: [] + rest == rest;
    while i < |listing|
      invariant i <= |listing|
      invariant ReadAll(listing) ==
                match ReadAll(listing[i..])
                case Err(e) => Err(e)
                case Ok(rest) => Ok(items + rest)
    {
      var result := ReadBWJFile(listing[i]);
      assert listing[i..][1..] == listing[i + 1..];
      match result {
        case Err(e) => return Err(e);
        case Ok(item) =>
          assert forall rest: seq<ReadResult> :: items + ([item] + rest) == items + [item] + rest;
          items := items + [item];
      }
      i := i + 1;
    }
    assert items + [] == items;
    r := Ok(items);
  }

  /** Reads every listed file, sorts, and folds the data records into streams. */
  method ReconstructStreams(listing: seq<Bytes>) returns (r: Result<map<Key, Streams>, ReadError>)
    ensures match ReadAll(listing)
            case Err(e) => r == Err(e)
            case Ok(items) => r == Ok(Fold(SortFiles(items)))
  {
    hide ReadAll, AddRecord, SortFiles;
    var items: seq<ReadResult>;
    var read := ReadFiles(listing);
    match read {
      case Err(e) => return Err(e);
      case Ok(rs) => items := rs;
    }
    var sorted := SortFiles(items);
    var wire: map<Key, Streams> := map[];
    var i := 0;
    while i < |sorted|
      invariant i <= |sorted|
      invariant wire == Fold(sorted[..i])
    {
      var drafts := DraftsOf(sorted[i].records);
      ghost var before := wire;
      var k := 0;
      while k < |drafts|
        invariant k <= |drafts|
        invariant wire == AddRecords(before, sorted[i].header.run, drafts[..k])
      {
        assert drafts[..k + 1][..k] == drafts[..k];
        wire := AddRecord(wire, sorted[i].header.run, drafts[k]);
        k := k + 1;
      }
      assert drafts[..k] == drafts;
      assert sorted[..i + 1][..i] == sorted[..i];
      i := i + 1;
    }
    assert sorted[..i] == sorted;
    r := Ok(wire);
  }

  // ---------- what the fold computes ----------

  /** The data payloads of one connection and direction, in order. */
  function DataOf(ds: seq<Draft>, connection: ID, direction: byte): Bytes {
    if ds == [] then []
    else
      DataOf(ds[..|ds| - 1], connection, direction)
      + var d := ds[|ds| - 1];
        if d.kind == DATA && d.connection == connection && d.direction == direction then d.payload else []
  }

  function StreamsOf(ds: seq<Draft>, connection: ID): Streams {
    Streams(DataOf(ds, connection, INBOUND), DataOf(ds, connection, OUTBOUND))
  }

  lemma {:induction false} DataOfAppend(a: seq<Draft>, b: seq<Draft>, connection: ID, direction: byte)
    ensures DataOf(a + b, connection, direction) == DataOf(a, connection, direction) + DataOf(b, connection, direction)
  {
    if b == [] {
      assert a + b == a;
    } else {
      DataOfAppend(a, b[..|b| - 1], connection, direction);
      var d := b[|b| - 1];
      Assoc(DataOf(a, connection, direction), DataOf(b[..|b| - 1], connection, direction),
            if d.kind == DATA && d.connection == connection && d.direction == direction then d.payload else []);
      assert (a + b)[..|a + b| - 1] == a + b[..|b| - 1];
    }
  }

  /** The files of one run, in the order they stand. */
  function OfRun(files: seq<ReadResult>, run: ID): seq<ReadResult> {
    if files == [] then []
    else OfRun(files[..|files| - 1], run)
         + if files[|files| - 1].header.run == run then [files[|files| - 1]] else []
  }

  function DraftsIn(files: seq<ReadResult>): seq<Draft> {
    if files == [] then []
    else DraftsIn(files[..|files| - 1]) + DraftsOf(files[|files| - 1].records)
  }

  lemma {:induction false} AddRecordsAdds(wire: map<Key, Streams>, run: ID, ds: seq<Draft>, connection: ID)
    ensures var before, after := Lookup(wire, KeyOf(run, connection)), Lookup(AddRecords(wire, run, ds), KeyOf(run, connection));
            && after.inbound == before.inbound + DataOf(ds, connection, INBOUND)
            && after.outbound == before.outbound + DataOf(ds, connection, OUTBOUND)
  {
    hide FormatID;
    if ds != [] {
      var d := ds[|ds| - 1];
      AddRecordsAdds(wire, run, ds[..|ds| - 1], connection);
      if KeyOf(run, d.connection) == KeyOf(run, connection) {
        FormatIsInjective(d.connection, connection);
      }
    }
  }

  lemma {:induction false} AddRecordsElsewhere(wire: map<Key, Streams>, run: ID, ds: seq<Draft>, other: ID, connection: ID)
    requires run != other
    ensures Lookup(AddRecords(wire, run, ds), KeyOf(other, connection)) == Lookup(wire, KeyOf(other, connection))
  {
    hide FormatID;
    if ds != [] {
      AddRecordsElsewhere(wire, run, ds[..|ds| - 1], other, connection);
      if FormatID(run) == FormatID(other) {
        FormatIsInjective(run, other);
      }
    }
  }

  /** The streams of a connection depend only on the files of its run, taken in order. */
  lemma {:induction false} FoldIsConcatenation(files: seq<ReadResult>, run: ID, connection: ID)
    ensures Lookup(Fold(files), KeyOf(run, connection)) == StreamsOf(DraftsIn(OfRun(files, run)), connection)
  {
    hide FormatID;
    if files != [] {
      var front, last := files[..|files| - 1], files[|files| - 1];
      var ds := DraftsOf(last.records);
      FoldIsConcatenation(front, run, connection);
      if last.header.run == run {
        AddRecordsAdds(Fold(front), run, ds, connection);
        var own := OfRun(front, run);
        assert (own + [last])[..|own + [last]| - 1] == own;
        DataOfAppend(DraftsIn(own), ds, connection, INBOUND);
        DataOfAppend(DraftsIn(own), ds, connection, OUTBOUND);
      } else {
        AddRecordsElsewhere(Fold(front), last.header.run, ds, run, connection);
        assert OfRun(files, run) == OfRun(front, run);
      }
    }
  }

  // ---------- any listing order ----------

  /** Strictly increasing file sequences. */
  ghost predicate InOrder(files: seq<ReadResult>) {
    forall i, j | 0 <= i < j < |files| :: files[i].header.sequence < files[j].header.sequence
  }

  ghost predicate NonDescending(files: seq<ReadResult>) {
    forall i, j | 0 <= i < j < |files| :: files[i].header.sequence <= files[j].header.sequence
  }

  lemma SmallestIsFirst(sorted: seq<ReadResult>, own: seq<ReadResult>)
    requires multiset(sorted) == multiset(own) && InOrder(own) && NonDescending(sorted) && own != []
    ensures sorted != [] && sorted[0] == own[0]
  {
    assert |multiset(sorted)| == |multiset(own)|;
    assert own[0] in multiset(sorted) && sorted[0] in multiset(own);
    var i :| 0 <= i < |own| && own[i] == sorted[0];
    var j :| 0 <= j < |sorted| && sorted[j] == own[0];
    assert sorted[0].header.sequence <= sorted[j].header.sequence;
  }

  lemma WithoutFirst(files: seq<ReadResult>)
    requires files != []
    ensures multiset(files[1..]) == multiset(files) - multiset{files[0]}
  {
    assert files == [files[0]] + files[1..];
  }

  lemma {:induction false} SortedIsUnique(sorted: seq<ReadResult>, own: seq<ReadResult>)
    requires multiset(sorted) == multiset(own) && InOrder(own) && NonDescending(sorted)
    ensures sorted == own
  {
    if own == [] {
      assert |multiset(sorted)| == 0;
    } else {
      SmallestIsFirst(sorted, own);
      assert sorted == [sorted[0]] + sorted[1..] && own == [own[0]] + own[1..];
      WithoutFirst(sorted);
      WithoutFirst(own);
      SortedIsUnique(sorted[1..], own[1..]);
    }
  }

  lemma {:induction false} OfRunMembers(files: seq<ReadResult>, run: ID)
    ensures forall f :: multiset(OfRun(files, run))[f] == if f.header.run == run then multiset(files)[f] else 0
  {
    if files != [] {
      OfRunMembers(files[..|files| - 1], run);
      assert files == files[..|files| - 1] + [files[|files| - 1]];
    }
  }

  lemma {:induction false} OfRunKeepsOrder(files: seq<ReadResult>, run: ID)
    requires Ordered(FileLess, files)
    ensures var own := OfRun(files, run);
            && (forall f | f in own :: f in files && f.header.run == run)
            && NonDescending(own)
  {
    if files != [] {
      OfRunKeepsOrder(files[..|files| - 1], run);
    }
  }

  lemma {:induction false} OfRunAll(files: seq<ReadResult>, run: ID)
    ensures (forall f | f in files :: f.header.run == run) ==> OfRun(files, run) == files
    ensures (forall f | f in files :: f.header.run != run) ==> OfRun(files, run) == []
  {
    if files != [] {
      OfRunAll(files[..|files| - 1], run);
      assert files == files[..|files| - 1] + [files[|files| - 1]];
    }
  }

  /** Whatever the order the files are listed in, and whatever other runs'
      files stand among them, sorting restores one run's files in order. */
  lemma SortingRestoresARun(own: seq<ReadResult>, others: seq<ReadResult>, run: ID,
                            items: seq<ReadResult>, sorted: seq<ReadResult>)
    requires InOrder(own) && (forall f | f in own :: f.header.run == run)
    requires forall f | f in others :: f.header.run != run
    requires multiset(items) == multiset(own + others)
    requires SortedListing(items, sorted)
    ensures OfRun(sorted, run) == own
  {
    OfRunMembers(sorted, run);
    OfRunKeepsOrder(sorted, run);
    forall f: ReadResult
      ensures multiset(OfRun(sorted, run))[f] == multiset(own)[f]
    {
      if f.header.run == run {
        assert f !in others;
      } else {
        assert f !in own;
      }
    }
    assert multiset(OfRun(sorted, run)) == multiset(own);
    SortedIsUnique(OfRun(sorted, run), own);
  }

  lemma {:induction false} ReadAllAppend(a: seq<Bytes>, b: seq<Bytes>)
    ensures ReadAll(a + b).Ok? <==> ReadAll(a).Ok? && ReadAll(b).Ok?
    ensures ReadAll(a + b).Ok? ==> ReadAll(a + b).value == ReadAll(a).value + ReadAll(b).value
  {
    hide ReadFile;
    if a == [] {
      assert a + b == b;
    } else {
      ReadAllAppend(a[1..], b);
      assert (a + b)[1..] == a[1..] + b;
    }
  }

  lemma ReadAllMiddle(front: seq<Bytes>, x: Bytes, back: seq<Bytes>)
    requires ReadAll(front + [x] + back).Ok?
    ensures ReadFile(x).Ok? && ReadAll(front + back).Ok?
    ensures multiset(ReadAll(front + [x] + back).value) == multiset(ReadAll(front + back).value) + multiset{ReadFile(x).value}
  {
    hide ReadFile;
    ReadAllAppend(front + [x], back);
    ReadAllAppend(front, [x]);
    ReadAllAppend(front, back);
    assert ReadAll([x]).Ok? && ReadAll([x]).value == [ReadFile(x).value];
  }

  lemma RemoveFirst<T>(a: seq<T>, b: seq<T>) returns (i: nat)
    requires a != [] && multiset(a) == multiset(b)
    ensures i < |b| && b == b[..i] + [a[0]] + b[i + 1..]
    ensures multiset(a[1..]) == multiset(b[..i] + b[i + 1..])
  {
    assert a[0] in multiset(b);
    i :| 0 <= i < |b| && b[i] == a[0];
    assert b == b[..i] + [a[0]] + b[i + 1..];
    assert a == [a[0]] + a[1..];
    assert multiset(a[1..]) == multiset(a) - multiset{a[0]};
    assert multiset(b[..i] + b[i + 1..]) == multiset(b) - multiset{a[0]};
  }

  /** Reading a permutation of files gives a permutation of results. */
  lemma {:induction false} ReadAllPermuted(a: seq<Bytes>, b: seq<Bytes>)
    requires multiset(a) == multiset(b) && ReadAll(b).Ok?
    ensures ReadAll(a).Ok? && multiset(ReadAll(a).value) == multiset(ReadAll(b).value)
  {
    hide ReadFile;
    if a == [] {
      assert |multiset(b)| == 0;
    } else {
      var i := RemoveFirst(a, b);
      var less := b[..i] + b[i + 1..];
      ReadAllMiddle(b[..i], a[0], b[i + 1..]);
      ReadAllPermuted(a[1..], less);
      assert ReadAll(a).value == [ReadFile(a[0]).value] + ReadAll(a[1..]).value;
    }
  }

  // ---------- the journal round trip ----------

  lemma {:induction false} SeenDrafts(log: Log, rs: seq<ReadResult>, n: nat)
    requires log.files != [] && n <= |rs| == |Visible(log)|
    requires forall i | 0 <= i < |rs| :: rs[i] == SeenAs(log, i)
    ensures DraftsIn(rs[..n]) == Recorded(Visible(log)[..n])
  {
    hide Visible;
    if n > 0 {
      SeenDrafts(log, rs, n - 1);
      assert rs[..n][..n - 1] == rs[..n - 1];
      assert Visible(log)[..n][..n - 1] == Visible(log)[..n - 1];
    }
  }

  lemma VisibleIsInOrder(st: Settings, log: Log, rs: seq<ReadResult>)
    requires LogInv(st, log) && |Visible(log)| + 1 < TWO_64
    requires |rs| == |Visible(log)| && forall i | 0 <= i < |rs| :: rs[i] == SeenAs(log, i)
    ensures InOrder(rs)
    ensures forall f | f in rs :: f.header.run == st.run
  {
    hide LogInv, SeenAs, Visible;
    forall i | 0 <= i < |rs|
      ensures rs[i].header.sequence == i + 1 && rs[i].header.run == st.run
    {
      VisibleHeader(st, log, i);
    }
  }

  lemma VisibleHeader(st: Settings, log: Log, i: nat)
    requires LogInv(st, log) && i < |Visible(log)| && i + 1 < TWO_64
    ensures SeenAs(log, i).header.sequence == i + 1 && SeenAs(log, i).header.run == st.run
  {
    hide EncodeFile, EncodeRecord, Numbered;
    assert i < |log.files| ==> FileInv(st, log.files[i], i);
  }

  /** A journal in any reachable, readable state, listed in any order among any
      files of other runs: its files give back its records, in order, and the
      rebuilt streams of each of its connections are the recorded payloads. */
  lemma JournalRoundTrip(st: Settings, log: Log, others: seq<Bytes>, listing: seq<Bytes>,
                         sorted: seq<ReadResult>, connection: ID)
    requires LogInv(st, log) && |Visible(log)| + 1 < TWO_64
    requires ReadAll(Disk(log)).Ok? && ReadAll(others).Ok?
    requires forall f | f in ReadAll(others).value :: f.header.run != st.run
    requires multiset(listing) == multiset(Disk(log) + others)
    ensures ReadAll(listing).Ok?
    ensures SortedListing(ReadAll(listing).value, sorted) ==>
              && DraftsIn(OfRun(sorted, st.run)) == Recorded(Visible(log))
              && Lookup(Fold(sorted), KeyOf(st.run, connection)) == StreamsOf(Recorded(Visible(log)), connection)
  {
    hide ReadFile, ReadAll, FormatID, DiskOf, FileInv, RemnantInv, Visible, Fold, StreamsOf, SortedListing;
    hide Lookup, OfRun, DraftsIn, Recorded, SeenAs, Ascending, FailedRecordIsWhole;
    var own := ReadAll(Disk(log)).value;
    ReadBack(st, log);
    ReadAllAppend(Disk(log), others);
    ReadAllPermuted(listing, Disk(log) + others);
    if SortedListing(ReadAll(listing).value, sorted) {
      VisibleIsInOrder(st, log, own);
      SortingRestoresARun(own, ReadAll(others).value, st.run, ReadAll(listing).value, sorted);
      FoldIsConcatenation(sorted, st.run, connection);
      SeenDrafts(log, own, |own|);
      assert own[..|own|] == own && Visible(log)[..|own|] == Visible(log);
    }
  }
}
