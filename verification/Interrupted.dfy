/** Runs in which the journal failed: what is left of every connection, and
    what the indexer says about its exchange events. The handler still counts,
    hashes and reports response bytes that the journal refused
    (internal/engine/connection.go, internal/evidence/bwj.go, internal/index/index.go). */
module Interrupted {
  import opened Wrappers
  import opened Bytes
  import opened Ids
  import opened Format
  import opened Drafts
  import opened Reader
  import opened Journal
  import opened Runs
  import opened Rebuild
  import opened Sharing
  import opened Failures
  import opened Traces
  import opened Rendering
  import opened Routes
  import opened Lives
  import opened Handling
  import opened Exchanges
  import opened EndToEnd
  import Indexer

  // ---------- the failed record is the first refused call ----------

  /** The i-th call is the first that was refused, and its record is the one left behind. */
  ghost predicate FirstRefused(ops: seq<Op>, outcomes: seq<Option<JournalError>>, end: Log, i: nat)
    requires |ops| == |outcomes|
  {
    && i < |ops| && ops[i].Write? && end.remnant.PartOfRecord? && end.remnant.record.draft == ops[i].draft
    && (forall j | 0 <= j < i && ops[j].Write? :: outcomes[j].None?)
    && (forall j | i <= j < |ops| && ops[j].Write? :: outcomes[j].Some?)
  }

  lemma WriteOfTheLiving(st: Settings, log: Log, op: Op)
    requires LogInv(st, log) && !Dead(log) && (op.Write? ==> WellFormed(op.draft))
    ensures var (next, outcome) := Apply(st, log, op);
            && next.files != [] && (Dead(next) || LogInv(st, next))
            && (op.Write? ==> (outcome.None? <==> !Dead(next)))
            && (op.Write? && outcome.Some? && next.remnant.PartOfRecord? ==> next.remnant.record.draft == op.draft)
            && (op.Close? ==> Dead(next) && next.remnant.Nothing?)
  {
    hide ShouldRotate, EncodeFile, FileInv;
    ApplyKeepsInv(st, log, op);
    HealthyLeavesNothing(st, log);
  }

  /** A record left behind by a run belongs to the first call of it that was refused. */
  lemma {:induction false} RemnantIsFirstRefused(st: Settings, log: Log, ops: seq<Op>)
    requires LogInv(st, log) && !Dead(log) && AllWellFormed(ops)
    ensures var (end, outcomes) := Run(st, log, ops);
            end.remnant.PartOfRecord? ==> exists i: nat :: FirstRefused(ops, outcomes, end, i)
    decreases |ops|
  {
    hide Apply, LogInv, EncodeFile, Dead, WellFormed;
    LivingIsClean(st, log);
    if ops != [] {
      var next := Apply(st, log, ops[0]).0;
      RunUnfolds(st, log, ops);
      WriteOfTheLiving(st, log, ops[0]);
      var (end, outcomes) := Run(st, log, ops);
      if Dead(next) {
        DeadKeepsRemnant(st, next, ops[1..]);
        DeadRefusesAll(st, next, ops[1..]);
        if end.remnant.PartOfRecord? {
          assert FirstRefused(ops, outcomes, end, 0);
        }
      } else {
        RemnantIsFirstRefused(st, next, ops[1..]);
        if end.remnant.PartOfRecord? {
          var i: nat :| FirstRefused(ops[1..], outcomes[1..], end, i);
          assert FirstRefused(ops, outcomes, end, i + 1);
        }
      }
    }
  }

  /** The first refused call of a run is the first one of its connection. */
  lemma {:induction false} FirstOfItsConnection(ops: seq<Op>, outcomes: seq<Option<JournalError>>, end: Log, i: nat)
    requires |ops| == |outcomes| && FirstRefused(ops, outcomes, end, i)
    ensures var c := ops[i].draft.connection;
            var n := |Own(Acknowledged(ops, outcomes), c)|;
            n < |CallsOf(ops, c)| && CallsOf(ops, c)[n] == ops[i].draft
    decreases i
  {
    var c := ops[i].draft.connection;
    if i == 0 {
      NothingAcknowledged(ops, outcomes);
    } else {
      var rest := Acknowledged(ops[1..], outcomes[1..]);
      assert forall k | 0 <= k < |ops[1..]| :: ops[1..][k] == ops[k + 1] && outcomes[1..][k] == outcomes[k + 1];
      FirstOfItsConnection(ops[1..], outcomes[1..], end, i - 1);
      if ops[0].Write? {
        OwnOfCons(ops[0].draft, rest, c);
      } else {
        assert [] + rest == rest;
      }
    }
  }

  /** If the failed record belongs to a connection, it is that connection's first refused call. */
  lemma FailedRecordIsRefused(st: Settings, log: Log, ops: seq<Op>, connection: ID)
    requires LogInv(st, log) && !Dead(log) && AllWellFormed(ops)
    ensures var (end, outcomes) := Run(st, log, ops);
            end.remnant.PartOfRecord? && end.remnant.record.draft.connection == connection ==>
              ViewOf(ops, outcomes, connection).refused == Some(end.remnant.record.draft)
  {
    LivingIsClean(st, log);
    hide Run, LogInv, Own, Acknowledged, CallsOf, ViewOf, Served;
    var (end, outcomes) := Run(st, log, ops);
    RemnantIsFirstRefused(st, log, ops);
    EveryConnectionIsSeen(st, log, ops, connection);
    if end.remnant.PartOfRecord? && end.remnant.record.draft.connection == connection {
      var i: nat :| FirstRefused(ops, outcomes, end, i);
      FirstOfItsConnection(ops, outcomes, end, i);
      NotServed(ops, outcomes, connection, i);
    }
  }

  lemma NotServed(ops: seq<Op>, outcomes: seq<Option<JournalError>>, connection: ID, i: nat)
    requires |ops| == |outcomes| && i < |ops| && ops[i].Write? && ops[i].draft.connection == connection && outcomes[i].Some?
    ensures !Served(ops, outcomes, connection)
  {
  }

  // ---------- what is left of a connection ----------

  /** The call that ended the journal was this connection's, and nothing of it
      was lost but the acknowledgement. */
  predicate StandsWhole(st: Settings, log: Log, ops: seq<Op>, connection: ID)
    requires log.files != []
  {
    var last := LastStand(st, log, ops);
    last.Some? && LeavesWhole(st, last.value.0, last.value.1) && last.value.1.draft.connection == connection
  }

  /** The drafts a reader recovers for a connection are those acknowledged to
      it, and its first refused call exactly if that one stands whole. */
  lemma RecoveredExactly(st: Settings, log: Log, ops: seq<Op>, connection: ID)
    requires Fresh(st, log) && AllWellFormed(ops)
    ensures LogInv(st, Run(st, log, ops).0)
    ensures var (end, outcomes) := Run(st, log, ops);
            var v := ViewOf(ops, outcomes, connection);
            && Own(Recorded(Visible(end)), connection)
               == (if StandsWhole(st, log, ops, connection) then Asked(v.trace, v.refused) else v.trace)
            && (StandsWhole(st, log, ops, connection) ==> v.refused.Some?)
  {
    hide Run, LogInv, Recorded, Visible, Own, ReadAll, SeenAs, Disk, Acknowledged, ViewOf, CutsHeader, LastStand;
    hide CallsOf, Served;
    var (end, outcomes) := Run(st, log, ops);
    var drafts := Acknowledged(ops, outcomes);
    RunKeepsInv(st, log, ops);
    RunLeaves(st, log, ops);
    ReadBackOfARun(st, log, ops);
    EveryConnectionIsSeen(st, log, ops, connection);
    FailedRecordIsRefused(st, log, ops, connection);
    var last := LastStand(st, log, ops);
    assert drafts + [] == drafts;
    if last.Some? && LeavesWhole(st, last.value.0, last.value.1) {
      OwnSnoc(drafts, last.value.1.draft, connection);
      assert Own(drafts, connection) + [] == Own(drafts, connection);
    }
  }

  /** One connection of such a run: its handle saw what the run gave it. */
  ghost predicate Witnessed(p: Party, connection: ID, ops: seq<Op>, outcomes: seq<Option<JournalError>>)
    requires |ops| == |outcomes|
  {
    var v := ViewOf(ops, outcomes, connection);
    PartialEvidence(p.cfg, connection, p.incoming, p.sent, v.trace, v.refused, v.outRefused, p.report.exchanges)
  }

  /** Fronts of a connection's two streams that hold every request and every response but the last one's. */
  ghost predicate Remains(p: Party, rest: Streams) {
    var es := p.report.exchanges;
    && rest.inbound <= p.incoming && rest.outbound <= p.sent
    && RequestEnd(es) <= |rest.inbound|
    && (es != [] ==> ResponseEnd(es[..|es| - 1]) <= |rest.outbound|)
  }

  /** The refused piece was the last part of what was sent. */
  ghost predicate LastPiece(v: View, connection: ID, sent: Bytes) {
    DataOf(Asked(v.trace, v.refused), connection, OUTBOUND) == sent
  }

  /** Some of the last response was lost: a call that was to carry outbound
      data was refused, nothing was sent behind the last exchange, and it is not
      that only the last piece was refused and stands whole. */
  ghost predicate LostTail(p: Party, connection: ID, v: View, whole: bool) {
    v.outRefused && |p.sent| <= ResponseEnd(p.report.exchanges) && !(whole && LastPiece(v, connection, p.sent))
  }

  lemma WitnessedRemains(st: Settings, log: Log, ops: seq<Op>, connection: ID, p: Party)
    requires Fresh(st, log) && AllWellFormed(ops) && Witnessed(p, connection, ops, Run(st, log, ops).1)
    ensures LogInv(st, Run(st, log, ops).0)
    ensures var (end, outcomes) := Run(st, log, ops);
            var rest := StreamsOf(Recorded(Visible(end)), connection);
            && Remains(p, rest)
            && (ResponseEnd(p.report.exchanges) <= |rest.outbound|
                <==> !LostTail(p, connection, ViewOf(ops, outcomes, connection), StandsWhole(st, log, ops, connection)))
    ensures Chained(p.cfg, p.incoming, p.sent, p.report.exchanges)
  {
    hide Run, LogInv, Recorded, Visible, DataOf, Own, Chained, ViewOf, StandsWhole;
    var (end, outcomes) := Run(st, log, ops);
    var v := ViewOf(ops, outcomes, connection);
    RecoveredExactly(st, log, ops, connection);
    DataIsOwn(Recorded(Visible(end)), connection, INBOUND);
    DataIsOwn(Recorded(Visible(end)), connection, OUTBOUND);
    AskedIsMore(v.trace, v.refused, connection, INBOUND);
    AllSent(p);
    SentAll(DataOf(Asked(v.trace, v.refused), connection, OUTBOUND), p.sent);
  }

  lemma SentAll(front: Bytes, sent: Bytes)
    requires front <= sent
    ensures |front| >= |sent| <==> front == sent
  {
  }

  lemma AllSent(p: Party)
    requires Chained(p.cfg, p.incoming, p.sent, p.report.exchanges)
    ensures ResponseEnd(p.report.exchanges) <= |p.sent|
  {
    hide ExchangeOk;
    ExchangesTile(p.cfg, p.incoming, p.sent, p.report.exchanges);
  }

  lemma AskedIsMore(trace: seq<Draft>, refused: Option<Draft>, connection: ID, direction: byte)
    ensures DataOf(trace, connection, direction) <= DataOf(Asked(trace, refused), connection, direction)
  {
    hide DataOf;
    DataOfFront(Asked(trace, refused), |trace|, connection, direction);
  }

  /** On such remains an event holds exactly when its response is all there,
      and a response that is not all there is the only thing wrong with one. */
  lemma RemainsSupport(p: Party, connection: ID, run: ID, wire: map<Key, Streams>, i: nat, started: int)
    requires Chained(p.cfg, p.incoming, p.sent, p.report.exchanges) && i < |p.report.exchanges|
    requires Remains(p, Lookup(wire, KeyOf(run, connection)))
    ensures var e := p.report.exchanges[i];
            var event := EventOf(run, connection, e, started);
            && (Indexer.Holds(p.cfg.sha, wire, event) <==>
                  e.digest == [] || e.responseEnd <= |Lookup(wire, KeyOf(run, connection)).outbound|)
            && (i < |p.report.exchanges| - 1 ==> Indexer.Holds(p.cfg.sha, wire, event))
            && forall fault | Indexer.Explained(p.cfg.sha, wire, event, fault) :: fault == Indexer.ResponseRange
  {
    hide Promised, RequestTaken, Rendered, FormatID;
    var es := p.report.exchanges;
    var rest := Lookup(wire, KeyOf(run, connection));
    assert Link(p.cfg, p.incoming, p.sent, es, i);
    EndsAscend(p.cfg, p.incoming, p.sent, es, i, |es| - 1);
    if i < |es| - 1 {
      var front := es[..|es| - 1];
      assert front[|front| - 1] == es[|es| - 2];
      EndsAscend(p.cfg, p.incoming, p.sent, es, i, |es| - 2);
    }
    if es[i].responseEnd <= |rest.outbound| {
      assert rest.outbound[es[i].responseStart..es[i].responseEnd] == p.sent[es[i].responseStart..es[i].responseEnd];
    }
  }

  // ---------- the whole pipeline ----------

  /** One run's journal, failed or not, listed in any order among other runs'
      files: if its files can be read, every connection gets back fronts of its
      two streams with every request and every response but the last one's in
      them. Every event but the last one holds, and the last one fails exactly
      if some of the last response was lost; a missing response range is the
      only thing that can be wrong with it. */
  lemma EvidenceRemains(st: Settings, log: Log, ops: seq<Op>, connection: ID, p: Party,
                        others: seq<Bytes>, listing: seq<Bytes>, sorted: seq<ReadResult>)
    requires Fresh(st, log) && AllWellFormed(ops) && Witnessed(p, connection, ops, Run(st, log, ops).1)
    requires |Visible(Run(st, log, ops).0)| + 1 < TWO_64
    requires ReadAll(Disk(Run(st, log, ops).0)).Ok? && ReadAll(others).Ok?
    requires forall f | f in ReadAll(others).value :: f.header.run != st.run
    requires multiset(listing) == multiset(Disk(Run(st, log, ops).0) + others)
    ensures ReadAll(listing).Ok?
    ensures SortedListing(ReadAll(listing).value, sorted) ==>
              && Remains(p, Lookup(Fold(sorted), KeyOf(st.run, connection)))
              && forall i, started: int | 0 <= i < |p.report.exchanges| ::
                   EventStands(p, i, EventOf(st.run, connection, p.report.exchanges[i], started), Fold(sorted),
                               LostTail(p, connection, ViewOf(ops, Run(st, log, ops).1, connection),
                                        StandsWhole(st, log, ops, connection)))
  {
    hide Run, LogInv, Recorded, Visible, StreamsOf, ReadAll, Disk, Fold, Lookup, SortedListing, Chained;
    hide Remains, Indexer.Holds;
    hide FormatID, EventOf, ViewOf, StandsWhole, LostTail, Indexer.Explained, RequestEnd, ResponseEnd;
    var (end, outcomes) := Run(st, log, ops);
    WitnessedRemains(st, log, ops, connection, p);
    JournalRoundTrip(st, end, others, listing, sorted, connection);
    if SortedListing(ReadAll(listing).value, sorted) {
      forall i, started: int | 0 <= i < |p.report.exchanges|
        ensures EventStands(p, i, EventOf(st.run, connection, p.report.exchanges[i], started), Fold(sorted),
                            LostTail(p, connection, ViewOf(ops, outcomes, connection), StandsWhole(st, log, ops, connection)))
      {
        RemainsSupport(p, connection, st.run, Fold(sorted), i, started);
        LastEndsAll(p.report.exchanges, i);
      }
    }
  }

  lemma LastEndsAll(es: seq<Exchange>, i: nat)
    requires i < |es|
    ensures i == |es| - 1 ==> es[i].responseEnd == ResponseEnd(es)
  {
  }

  /** The event of exchange `i` holds, unless it is the last one and its tail
      was lost; nothing but its response range can be wrong. */
  ghost predicate EventStands(p: Party, i: nat, event: Indexer.Event, wire: map<Key, Streams>, lost: bool)
    requires i < |p.report.exchanges|
  {
    && (i < |p.report.exchanges| - 1 ==> Indexer.Holds(p.cfg.sha, wire, event))
    && (i == |p.report.exchanges| - 1 ==>
          (Indexer.Holds(p.cfg.sha, wire, event) <==> p.report.exchanges[i].digest == [] || !lost))
    && forall fault | Indexer.Explained(p.cfg.sha, wire, event, fault) :: fault == Indexer.ResponseRange
  }

  /** The last event of a connection, with its tail lost. */
  ghost predicate LastEventLost(st: Settings, log: Log, ops: seq<Op>, event: Indexer.Event, parties: map<ID, Party>, c: ID,
                                started: int)
    requires log.files != []
  {
    && c in parties && parties[c].report.exchanges != []
    && event == EventOf(st.run, c, parties[c].report.exchanges[|parties[c].report.exchanges| - 1], started)
    && LostTail(parties[c], c, ViewOf(ops, Run(st, log, ops).1, c), StandsWhole(st, log, ops, c))
  }

  /** The only thing the indexer's checks can ever find wrong with the events
      of a run is a missing end of a connection's last response, and only where
      a journal call that was to carry it was refused. */
  lemma OnlyLastResponsesAreMissing(st: Settings, log: Log, ops: seq<Op>, parties: map<ID, Party>, sha: Bytes -> Bytes,
                                    others: seq<Bytes>, listing: seq<Bytes>, event: Indexer.Event)
    requires Fresh(st, log) && AllWellFormed(ops)
    requires forall c | c in parties :: Witnessed(parties[c], c, ops, Run(st, log, ops).1) && parties[c].cfg.sha == sha
    requires |Visible(Run(st, log, ops).0)| + 1 < TWO_64
    requires ReadAll(Disk(Run(st, log, ops).0)).Ok? && ReadAll(others).Ok?
    requires forall f | f in ReadAll(others).value :: f.header.run != st.run
    requires multiset(listing) == multiset(Disk(Run(st, log, ops).0) + others)
    requires EmittedBy(event, st.run, parties)
    ensures ReadAll(listing).Ok?
    ensures var wire := Fold(SortFiles(ReadAll(listing).value));
            && (forall fault | Indexer.Explained(sha, wire, event, fault) :: fault == Indexer.ResponseRange)
            && (!Indexer.Holds(sha, wire, event) ==> exists c, started: int :: LastEventLost(st, log, ops, event, parties, c, started))
  {
    hide Run, LogInv, Recorded, Visible, StreamsOf, ReadAll, Disk, Fold, Lookup, SortedListing, Remains;
    hide Indexer.Holds, FormatID;
    hide EventOf, Witnessed, Indexer.Explained, ViewOf, StandsWhole, LostTail;
    var c, i, started: int :| c in parties && 0 <= i < |parties[c].report.exchanges|
                              && event == EventOf(st.run, c, parties[c].report.exchanges[i], started);
    var end := Run(st, log, ops).0;
    ReadAllAppend(Disk(end), others);
    ReadAllPermuted(listing, Disk(end) + others);
    var items := ReadAll(listing).value;
    SortFilesSorts(items);
    EvidenceRemains(st, log, ops, c, parties[c], others, listing, SortFiles(items));
    assert EventStands(parties[c], i, EventOf(st.run, c, parties[c].report.exchanges[i], started), Fold(SortFiles(items)),
                       LostTail(parties[c], c, ViewOf(ops, Run(st, log, ops).1, c), StandsWhole(st, log, ops, c)));
    if !Indexer.Holds(sha, Fold(SortFiles(items)), event) {
      assert LastEventLost(st, log, ops, event, parties, c, started);
    }
  }
}
