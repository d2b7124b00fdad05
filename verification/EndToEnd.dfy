/** From the socket to the index: every exchange event points at exactly the
    bytes it claims, through the shared journal, its rotations, the order of
    the directory listing and the rebuild (internal/engine/connection.go,
    internal/evidence/bwj.go, internal/index/index.go). */
module EndToEnd {
  import opened Wrappers
  import opened Bytes
  import opened Ids
  import opened Format
  import opened Drafts
  import opened Reader
  import opened Journal
  import opened Runs
  import opened Rebuild
  import opened Sharing
  import opened Traces
  import opened ConnectionIO
  import opened Parsing
  import opened Rendering
  import opened Routes
  import opened Lives
  import opened Handling
  import opened Exchanges
  import Indexer

  // ---------- what survives of one connection ----------

  lemma FreshIsEmpty(st: Settings, log: Log)
    requires Fresh(st, log)
    ensures Recorded(log.files) == []
  {
    assert log.files[..0] == [] && DraftsOf([]) == [];
  }

  /** The failed record belongs to a connection whose call was refused. */
  lemma FailedRecordIsForeign(st: Settings, log: Log, ops: seq<Op>, connection: ID)
    requires LogInv(st, log) && log.failed.None? && AllWellFormed(ops)
    requires Served(ops, Run(st, log, ops).1, connection)
    ensures var end := Run(st, log, ops).0;
            end.remnant.PartOfRecord? ==> end.remnant.record.draft.connection != connection
  {
    hide Run, FileInv, RemnantInv;
    RunKeepsInv(st, log, ops);
    RemnantIsTheFailedCall(st, log, ops);
    var (end, outcomes) := Run(st, log, ops);
    if end.failed.Some? {
      var i: nat :| FailedAt(ops, outcomes, end, i);
    }
  }

  /** The streams a reader recovers for a connection that was served in full
      are the data of its own calls, even if the journal failed later. */
  lemma ServedStreamsSurvive(st: Settings, log: Log, ops: seq<Op>, connection: ID)
    requires Fresh(st, log) && AllWellFormed(ops) && Served(ops, Run(st, log, ops).1, connection)
    ensures LogInv(st, Run(st, log, ops).0)
    ensures StreamsOf(Recorded(Visible(Run(st, log, ops).0)), connection) == StreamsOf(CallsOf(ops, connection), connection)
  {
    hide Run, LogInv, Recorded, Visible, DataOf, Own, ReadAll, SeenAs, Disk;
    var (end, outcomes) := Run(st, log, ops);
    var drafts := Acknowledged(ops, outcomes);
    FreshIsEmpty(st, log);
    RunKeepsInv(st, log, ops);
    RunRecordsAcknowledged(st, log, ops);
    assert [] + drafts == drafts;
    ReadBack(st, end);
    ServedIsRecorded(ops, outcomes, connection);
    FailedRecordIsForeign(st, log, ops, connection);
    forall direction: byte
      ensures DataOf(Recorded(Visible(end)), connection, direction) == DataOf(CallsOf(ops, connection), connection, direction)
    {
      DataIsOwn(drafts, connection, direction);
      if FailedRecordIsWhole(end) {
        ForeignAddsNothing(drafts, end.remnant.record.draft, connection, direction);
      } else {
        assert drafts + [] == drafts;
      }
    }
  }

  lemma ForeignAddsNothing(ds: seq<Draft>, d: Draft, connection: ID, direction: byte)
    requires d.connection != connection || d.kind != DATA
    ensures DataOf(ds + [d], connection, direction) == DataOf(ds, connection, direction)
  {
    assert (ds + [d])[..|ds + [d]| - 1] == ds;
  }

  /** And the records it recovers for it are its own calls, in order. */
  lemma ServedRecordsSurvive(st: Settings, log: Log, ops: seq<Op>, connection: ID)
    requires Fresh(st, log) && AllWellFormed(ops) && Served(ops, Run(st, log, ops).1, connection)
    ensures LogInv(st, Run(st, log, ops).0)
    ensures Own(Recorded(Visible(Run(st, log, ops).0)), connection) == CallsOf(ops, connection)
  {
    hide Run, LogInv, Recorded, Visible, DataOf, Own, ReadAll, SeenAs, Disk;
    var (end, outcomes) := Run(st, log, ops);
    var drafts := Acknowledged(ops, outcomes);
    FreshIsEmpty(st, log);
    RunKeepsInv(st, log, ops);
    RunRecordsAcknowledged(st, log, ops);
    assert [] + drafts == drafts;
    ReadBack(st, end);
    ServedIsRecorded(ops, outcomes, connection);
    FailedRecordIsForeign(st, log, ops, connection);
    if FailedRecordIsWhole(end) {
      OwnSnoc(drafts, end.remnant.record.draft, connection);
    } else {
      assert drafts + [] == drafts;
    }
  }

  // ---------- the rebuilt streams carry the evidence ----------

  lemma RequestInFront(cfg: Config, stream: Bytes, start: nat, headEnd: nat, end: nat, info: RequestInfo, n: nat)
    requires RequestTaken(cfg, stream, start, headEnd, end, info) && end <= n <= |stream|
    ensures RequestTaken(cfg, stream[..n], start, headEnd, end, info)
  {
    forall a, b | 0 <= a <= b <= end
      ensures stream[..n][a..b] == stream[a..b]
    {
    }
    assert forall k | start < k < headEnd :: stream[..n][start..k] == stream[start..k];
    assert forall k | headEnd <= k <= end :: stream[..n][headEnd..k] == stream[headEnd..k];
  }

  /** Cutting the inbound stream behind the last request loses no exchange. */
  lemma ChainInFront(cfg: Config, incoming: Bytes, sent: Bytes, es: seq<Exchange>, n: nat)
    requires Chained(cfg, incoming, sent, es) && RequestEnd(es) <= n <= |incoming|
    ensures Chained(cfg, incoming[..n], sent, es)
  {
    hide Promised, RequestTaken, Sends;
    forall i | 0 <= i < |es|
      ensures Link(cfg, incoming[..n], sent, es, i)
    {
      assert Link(cfg, incoming, sent, es, i);
      EndsAscend(cfg, incoming, sent, es, i, |es| - 1);
      RequestInFront(cfg, incoming, es[i].requestStart, es[i].headEnd, es[i].requestEnd, es[i].info, n);
    }
  }

  /** The event the handler emits for an exchange. */
  function EventOf(run: ID, connection: ID, e: Exchange, started: int): Indexer.Event {
    Indexer.Event(FormatID(run), FormatID(connection), true, e.requestStart, e.requestEnd - e.requestStart,
                  e.responseStart, e.responseEnd - e.responseStart, e.digest, started)
  }

  /** One finished connection: what it was configured with, received, sent and reported. */
  datatype Party = Party(cfg: Config, incoming: Bytes, sent: Bytes, report: Report, plainEnd: nat)

  ghost predicate Attested(p: Party, connection: ID, trace: seq<Draft>) {
    Evidence(p.cfg, connection, p.incoming, p.sent, trace, p.report, p.plainEnd)
  }

  /** The data of a finished connection's records are its two streams. */
  lemma AttestedStreams(p: Party, connection: ID, trace: seq<Draft>)
    requires Attested(p, connection, trace)
    ensures p.report.bytesIn <= |p.incoming|
    ensures StreamsOf(trace, connection) == Streams(p.incoming[..p.report.bytesIn], p.sent)
  {
    hide Chained, DataOf;
    var front := trace[..|trace| - 1];
    assert trace == front + [CloseDraft(connection, p.report.reason)];
    ForeignAddsNothing(front, CloseDraft(connection, p.report.reason), connection, INBOUND);
    ForeignAddsNothing(front, CloseDraft(connection, p.report.reason), connection, OUTBOUND);
  }

  /** The rebuilt streams support every exchange event: the ranges exist, hold
      exactly the request parsed and the bytes sent for it, and match the digest. */
  lemma RebuiltSupports(p: Party, connection: ID, trace: seq<Draft>, run: ID, wire: map<Key, Streams>)
    requires Attested(p, connection, trace)
    requires Lookup(wire, KeyOf(run, connection)) == StreamsOf(trace, connection)
    ensures var rebuilt := Lookup(wire, KeyOf(run, connection));
            && Chained(p.cfg, rebuilt.inbound, rebuilt.outbound, p.report.exchanges)
            && forall i, started: int | 0 <= i < |p.report.exchanges| ::
                 Indexer.Holds(p.cfg.sha, wire, EventOf(run, connection, p.report.exchanges[i], started))
  {
    hide Promised, RequestTaken, Rendered, FormatID, Journalled, DataOf;
    var es := p.report.exchanges;
    AttestedStreams(p, connection, trace);
    PlainIsReceived(p, connection, trace);
    ChainInFront(p.cfg, p.incoming, p.sent, es, p.report.bytesIn);
    forall i, started: int | 0 <= i < |es|
      ensures Indexer.Holds(p.cfg.sha, wire, EventOf(run, connection, es[i], started))
    {
      assert Link(p.cfg, p.incoming, p.sent, es, i);
      EndsAscend(p.cfg, p.incoming, p.sent, es, i, |es| - 1);
    }
  }

  lemma PlainIsReceived(p: Party, connection: ID, trace: seq<Draft>)
    requires Attested(p, connection, trace)
    ensures RequestEnd(p.report.exchanges) <= p.plainEnd <= p.report.bytesIn <= |p.incoming|
  {
    hide Chained, DataOf, InboundWith;
  }

  /** No two byte strings have the same digest. */
  ghost predicate CollisionFree(sha: Bytes -> Bytes) {
    forall a, b | sha(a) == sha(b) :: a == b
  }

  /** What the indexer's checks establish, whatever is in the index: an event
      holds if and only if its request is all there, and so is its response,
      byte for byte as it was sent. */
  lemma AlteredBytesAreFound(cfg: Config, incoming: Bytes, sent: Bytes, es: seq<Exchange>, i: nat, run: ID, connection: ID,
                             wire: map<Key, Streams>, started: int)
    requires Chained(cfg, incoming, sent, es) && i < |es| && es[i].digest != [] && CollisionFree(cfg.sha)
    ensures 0 <= es[i].responseStart <= es[i].responseEnd <= |sent|
    ensures var e := es[i];
            var found := Lookup(wire, KeyOf(run, connection));
            Indexer.Holds(cfg.sha, wire, EventOf(run, connection, e, started)) <==>
              && e.requestEnd <= |found.inbound| && e.responseEnd <= |found.outbound|
              && found.outbound[e.responseStart..e.responseEnd] == sent[e.responseStart..e.responseEnd]
  {
    hide Promised, RequestTaken, Rendered, FormatID;
    assert Link(cfg, incoming, sent, es, i);
    EndsAscend(cfg, incoming, sent, es, i, i);
  }

  // ---------- the whole pipeline ----------

  /** An event emitted for one of these connections' exchanges. */
  ghost predicate EmittedBy(event: Indexer.Event, run: ID, parties: map<ID, Party>) {
    exists c, i, started: int ::
      c in parties && 0 <= i < |parties[c].report.exchanges| && event == EventOf(run, c, parties[c].report.exchanges[i], started)
  }

  /** One run's journal, left in any readable state by any interleaving of
      connections and any rotations, listed in any order among other runs'
      files: each connection served in full gets back exactly its two streams,
      and they support all its exchange events. */
  lemma EvidenceSurvives(st: Settings, log: Log, ops: seq<Op>, connection: ID, p: Party,
                         others: seq<Bytes>, listing: seq<Bytes>, sorted: seq<ReadResult>)
    requires Fresh(st, log) && AllWellFormed(ops)
    requires Served(ops, Run(st, log, ops).1, connection) && Attested(p, connection, CallsOf(ops, connection))
    requires |Visible(Run(st, log, ops).0)| + 1 < TWO_64
    requires ReadAll(Disk(Run(st, log, ops).0)).Ok? && ReadAll(others).Ok?
    requires forall f | f in ReadAll(others).value :: f.header.run != st.run
    requires multiset(listing) == multiset(Disk(Run(st, log, ops).0) + others)
    ensures ReadAll(listing).Ok?
    ensures SortedListing(ReadAll(listing).value, sorted) ==>
              var rebuilt := Lookup(Fold(sorted), KeyOf(st.run, connection));
              && p.report.bytesIn <= |p.incoming|
              && rebuilt == Streams(p.incoming[..p.report.bytesIn], p.sent)
              && Chained(p.cfg, rebuilt.inbound, rebuilt.outbound, p.report.exchanges)
              && forall i, started: int | 0 <= i < |p.report.exchanges| ::
                   Indexer.Holds(p.cfg.sha, Fold(sorted), EventOf(st.run, connection, p.report.exchanges[i], started))
  {
    hide Run, LogInv, Recorded, Visible, StreamsOf, ReadAll, Disk, Fold, Lookup, SortedListing, Chained;
    hide Evidence, Indexer.Holds, CallsOf, FormatID;
    var end := Run(st, log, ops).0;
    ServedStreamsSurvive(st, log, ops, connection);
    JournalRoundTrip(st, end, others, listing, sorted, connection);
    AttestedStreams(p, connection, CallsOf(ops, connection));
    if SortedListing(ReadAll(listing).value, sorted) {
      RebuiltSupports(p, connection, CallsOf(ops, connection), st.run, Fold(sorted));
    }
  }

  /** What a reader of the same files learns of such a connection from its
      records: it was opened first, it was closed last and for the reason
      reported, and nothing else opened or closed it. */
  lemma EndIsTold(st: Settings, log: Log, ops: seq<Op>, connection: ID, p: Party,
                  others: seq<Bytes>, listing: seq<Bytes>, sorted: seq<ReadResult>)
    requires Fresh(st, log) && AllWellFormed(ops)
    requires Served(ops, Run(st, log, ops).1, connection) && Attested(p, connection, CallsOf(ops, connection))
    requires |Visible(Run(st, log, ops).0)| + 1 < TWO_64 && p.report.reason < 65536
    requires ReadAll(Disk(Run(st, log, ops).0)).Ok? && ReadAll(others).Ok?
    requires forall f | f in ReadAll(others).value :: f.header.run != st.run
    requires multiset(listing) == multiset(Disk(Run(st, log, ops).0) + others)
    ensures ReadAll(listing).Ok?
    ensures SortedListing(ReadAll(listing).value, sorted) ==>
              var found := Own(DraftsIn(OfRun(sorted, st.run)), connection);
              && |found| >= 2 && MeaningOf(found[0]) == Opening
              && MeaningOf(found[|found| - 1]) == Closing(p.report.reason)
              && forall i | 0 < i < |found| - 1 :: MeaningOf(found[i]) != Opening && !MeaningOf(found[i]).Closing?
  {
    hide Run, LogInv, Recorded, Visible, StreamsOf, ReadAll, Disk, Fold, Lookup, SortedListing, Chained;
    hide Evidence, CallsOf, FormatID, Own, DraftsIn, OfRun, MeaningOf;
    var end := Run(st, log, ops).0;
    ServedRecordsSurvive(st, log, ops, connection);
    JournalRoundTrip(st, end, others, listing, sorted, connection);
    AttestedMeanings(p, connection, CallsOf(ops, connection));
  }

  /** The meanings of a finished connection's records. */
  lemma AttestedMeanings(p: Party, connection: ID, trace: seq<Draft>)
    requires Attested(p, connection, trace) && p.report.reason < 65536
    ensures |trace| >= 2 && MeaningOf(trace[0]) == Opening && MeaningOf(trace[|trace| - 1]) == Closing(p.report.reason)
    ensures forall i | 0 < i < |trace| - 1 :: MeaningOf(trace[i]) != Opening && !MeaningOf(trace[i]).Closing?
  {
    hide Chained, DataOf, InboundWith, FlagsOut, SentFlags, CloseDraft, GetLE;
    var front := trace[..|trace| - 1];
    CloseTellsItsReason(connection, p.report.reason);
    assert forall i | 0 <= i < |front| :: trace[i] == front[i];
  }

  /** End to end: when every journal write of a run succeeds, the indexer's
      range and digest checks hold for every exchange event of every
      connection of the run. */
  lemma IndexingNeverFails(st: Settings, log: Log, ops: seq<Op>, parties: map<ID, Party>, sha: Bytes -> Bytes,
                           others: seq<Bytes>, listing: seq<Bytes>, events: seq<Indexer.Event>)
    requires Fresh(st, log) && AllWellFormed(ops)
    requires forall i | 0 <= i < |ops| && ops[i].Write? :: Run(st, log, ops).1[i].None?
    requires forall c | c in parties :: Attested(parties[c], c, CallsOf(ops, c)) && parties[c].cfg.sha == sha
    requires |Visible(Run(st, log, ops).0)| + 1 < TWO_64
    requires ReadAll(others).Ok? && forall f | f in ReadAll(others).value :: f.header.run != st.run
    requires multiset(listing) == multiset(Disk(Run(st, log, ops).0) + others)
    requires forall k | 0 <= k < |events| :: EmittedBy(events[k], st.run, parties)
    ensures ReadAll(listing).Ok?
    ensures var wire := Fold(SortFiles(ReadAll(listing).value));
            forall k | 0 <= k < |events| :: Indexer.Holds(sha, wire, events[k])
  {
    hide Run, LogInv, Recorded, Visible, StreamsOf, ReadAll, Disk, Fold, Lookup, SortedListing, Chained;
    hide Evidence, Indexer.Holds, CallsOf, FormatID, EventOf;
    var end := Run(st, log, ops).0;
    HealthyRunIsReadable(st, log, ops);
    ReadAllAppend(Disk(end), others);
    ReadAllPermuted(listing, Disk(end) + others);
    var items := ReadAll(listing).value;
    SortFilesSorts(items);
    forall k | 0 <= k < |events|
      ensures Indexer.Holds(sha, Fold(SortFiles(items)), events[k])
    {
      assert EmittedBy(events[k], st.run, parties);
      var c, i, started: int :| c in parties && 0 <= i < |parties[c].report.exchanges|
                                && events[k] == EventOf(st.run, c, parties[c].report.exchanges[i], started);
      EvidenceSurvives(st, log, ops, c, parties[c], others, listing, SortFiles(items));
    }
  }

  lemma HealthyRunIsReadable(st: Settings, log: Log, ops: seq<Op>)
    requires Fresh(st, log) && AllWellFormed(ops)
    requires forall i | 0 <= i < |ops| && ops[i].Write? :: Run(st, log, ops).1[i].None?
    ensures ReadAll(Disk(Run(st, log, ops).0)).Ok?
  {
    hide Run, FileInv, ReadAll, Disk, Visible, Recorded, SeenAs;
    var (end, outcomes) := Run(st, log, ops);
    RunKeepsInv(st, log, ops);
    RemnantIsTheFailedCall(st, log, ops);
    ReadBack(st, end);
  }
}
