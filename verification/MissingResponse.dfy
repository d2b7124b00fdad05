/** A run after which the indexer rejects an event: the journal refuses the
    first byte of a response that was sent, and the handler reports it all the
    same (Write, internal/engine/connection.go; Run, internal/index/index.go). */
module MissingResponse {
  import opened Wrappers
  import opened Bytes
  import opened Ids
  import opened Format
  import opened Drafts
  import opened Reader
  import opened Journal
  import opened Runs
  import opened Rebuild
  import opened Sharing
  import opened Failures
  import opened Traces
  import opened Rendering
  import opened ConnectionIO
  import opened Parsing
  import opened Lives
  import opened Handling
  import opened Exchanges
  import opened Samples
  import opened EndToEnd
  import opened Interrupted
  import Indexer

  // ---------- the connection ----------

  ghost function TheConfig(): Config {
    SampleConfig(|SampleResponse()| + 2, |SampleResponse()| + 100, 0)
  }

  /** The one byte of the response that was sent. */
  ghost function Sent(): Bytes
    requires |SampleResponse()| >= 1
  {
    SampleResponse()[..1]
  }

  lemma ResponseIsNotEmpty()
    ensures |SampleResponse()| > 1
  {
    hide HeaderLines, BodyBytes;
  }

  ghost function TheReport(): Report
    requires |SampleResponse()| >= 1
  {
    Report([SampleExchange(1)], CLOSE_INTERNAL_ERROR, 1, 1, 1)
  }

  ghost function TheParty(): Party
    requires |SampleResponse()| >= 1
  {
    Party(TheConfig(), [1], Sent(), TheReport(), 1)
  }

  ghost function ItsLife(): Life
    requires |SampleResponse()| >= 1
  {
    LifeOf([1], Sent(), TheReport(), 1, {}, ANSWERED, None, false)
  }

  lemma TheNumbers()
    requires |SampleResponse()| > 1
    ensures var l := ItsLife();
            && |l.sent| == 1 && l.exchanges == [SampleExchange(1)] && LastFailed(l)
            && RequestEnd(l.exchanges) == 1 && ResponseEnd(l.exchanges) == 1 && InterimsWhole(l.exchanges)
            && TheConfig().limits.requests == 4 && TheConfig().limits.connectionBytes >= 100
  {
    hide SampleResponse;
  }

  /** A handler may live so: it sent one byte, and ended because the journal refused it. */
  lemma TheLife()
    ensures |SampleResponse()| > 1
    ensures ValidConfig(TheConfig()) && Chained(TheConfig(), [1], Sent(), [SampleExchange(1)])
    ensures Lived(TheConfig(), ItsLife(), AnswerBroken)
  {
    hide Because, ValidConfig, Chained, SampleResponse, SampleConfig, SampleExchange, InterimsWhole, LastFailed, Looks;
    AnsweredIsQuiet();
    ResponseIsNotEmpty();
    TheNumbers();
    ItsCause();
    assert SampleResponse()[..1] == Sent() && [1][0] == 1;
    SampleConfigIsValid(|SampleResponse()| + 2, |SampleResponse()| + 100, 0);
    SampleIsChained(|SampleResponse()| + 2, |SampleResponse()| + 100, 0, [1], 1);
  }

  lemma ItsCause()
    requires |SampleResponse()| > 1
    ensures Because(TheConfig(), ItsLife(), AnswerBroken)
  {
    hide SampleResponse, SampleConfig, SampleExchange, InterimsWhole, Because, Rendered, TheConfig, EndsWith;
    AnsweredIsQuiet();
    TheNumbers();
    TheRendering();
    BrokenAnswer(TheConfig(), ItsLife());
  }

  /** Its response fits: that it failed is not its size. */
  lemma TheRendering()
    requires |SampleResponse()| > 1
    ensures var e := SampleExchange(1);
            && e.interim == 0 && TheConfig().limits.responseBytes == |SampleResponse()| + 2
            && Rendered(ContextOf(TheConfig(), e.info), e.selection.plan) == SampleResponse()
  {
    hide Rendered;
  }

  // ---------- its calls ----------

  const PEER: ID := [7, 7, 7, 7, 7, 7, 7, 7, 7, 7, 7, 7, 7, 7, 7, 7]

  /** The disk takes everything, or not a byte of the payload. */
  function DiskTakes(payload: bool): Env {
    Env(0, 0, 0, 0, true, true, true, [Reply(64, false)], [Reply(64, false)], [if payload then Reply(65536, false) else Reply(0, true)])
  }

  function Received(): Draft {
    Draft(DATA, INBOUND, 0, PEER, NO_ID, [1])
  }

  ghost function Refused(): Draft
    requires |SampleResponse()| >= 1
  {
    Draft(DATA, OUTBOUND, FLAG_STREAMING, PEER, NO_ID, Sent())
  }

  ghost function TheCalls(): seq<Op>
    requires |SampleResponse()| >= 1
  {
    [Write(OpenDraft(PEER), DiskTakes(true)), Write(Received(), DiskTakes(true)), Write(Refused(), DiskTakes(false)),
     Write(CloseDraft(PEER, CLOSE_INTERNAL_ERROR), DiskTakes(true))]
  }

  lemma CallsAreWellFormed()
    requires |SampleResponse()| >= 1
    ensures AllWellFormed(TheCalls()) && |TheCalls()| == 4
    ensures Serviceable(TheCalls()[0]) && Serviceable(TheCalls()[1])
  {
    hide SampleResponse;
    DeliverNothing([]);
    assert |Sent()| == 1;
  }

  /** A payload of which nothing is taken ends the journal, and leaves neither a whole record nor a cut header. */
  lemma PayloadRefused(st: Settings, log: Log, d: Draft)
    requires log.files != [] && log.failed.None? && !log.closed && WellFormed(d) && d.payload != []
    ensures var op := Write(d, DiskTakes(false));
            && Apply(st, log, op).1.Some? && Dead(Apply(st, log, op).0)
            && !LeavesWhole(st, log, op) && !CutsHeader(st, log, op)
  {
    hide ShouldRotate, EncodeFile, EncodeRecord;
    DeliverNothing([]);
  }

  lemma ServedLives(st: Settings, log: Log, op: Op)
    requires log.files != [] && log.failed.None? && !log.closed && Serviceable(op)
    ensures var (next, outcome) := Apply(st, log, op);
            outcome.None? && next.files != [] && next.failed.None? && !next.closed && !Dead(next)
  {
    ServiceableSucceeds(st, log, op);
  }

  /** Two calls served, two refused. */
  ghost predicate TwoAndTwo(outcomes: seq<Option<JournalError>>) {
    |outcomes| == 4 && outcomes[0].None? && outcomes[1].None? && outcomes[2].Some? && outcomes[3].Some?
  }

  lemma TheRun(st: Settings, log: Log)
    requires |SampleResponse()| >= 1 && log.files != [] && !Dead(log)
    ensures TwoAndTwo(Run(st, log, TheCalls()).1)
    ensures var last := LastStand(st, log, TheCalls());
            last.Some? && !LeavesWhole(st, last.value.0, last.value.1) && !CutsHeader(st, last.value.0, last.value.1)
  {
    CallsAreWellFormed();
    var ops := TheCalls();
    hide TheCalls, Apply, Serviceable, WellFormed, LeavesWhole, CutsHeader, SampleResponse;
    TheSteps(st, log, ops[0], ops[1], ops[2], ops[3]);
    assert ops == [ops[0], ops[1], ops[2], ops[3]];
    ThirdCall();
  }

  lemma ThirdCall()
    requires |SampleResponse()| >= 1
    ensures TheCalls()[2] == Write(Refused(), DiskTakes(false)) && TheCalls()[3].Write?
    ensures WellFormed(Refused()) && Refused().payload != []
  {
    hide SampleResponse;
  }

  lemma TheSteps(st: Settings, log: Log, a: Op, b: Op, c: Op, d: Op)
    requires log.files != [] && !Dead(log) && Serviceable(a) && Serviceable(b) && d.Write?
    requires c.Write? && WellFormed(c.draft) && c.draft.payload != [] && c.env == DiskTakes(false)
    ensures TwoAndTwo(Run(st, log, [a, b, c, d]).1)
    ensures var last := LastStand(st, log, [a, b, c, d]);
            last.Some? && !LeavesWhole(st, last.value.0, last.value.1) && !CutsHeader(st, last.value.0, last.value.1)
  {
    hide Apply, Serviceable, WellFormed, LeavesWhole, CutsHeader;
    ServedLives(st, log, a);
    var log1 := Apply(st, log, a).0;
    ServedLives(st, log1, b);
    var log2 := Apply(st, log1, b).0;
    PayloadRefused(st, log2, c.draft);
    var log3 := Apply(st, log2, c).0;
    DeadRefusesAll(st, log3, [d]);
    assert [a, b, c, d][1..] == [b, c, d] && [b, c, d][1..] == [c, d] && [c, d][1..] == [d];
    RunUnfolds(st, log, [a, b, c, d]);
    RunUnfolds(st, log1, [b, c, d]);
    RunUnfolds(st, log2, [c, d]);
    assert LastStand(st, log2, [c, d]) == Some((log2, c));
    assert LastStand(st, log1, [b, c, d]) == LastStand(st, log2, [c, d]);
    assert LastStand(st, log, [a, b, c, d]) == LastStand(st, log1, [b, c, d]);
  }

  // ---------- what the handle saw ----------

  lemma TheView(outcomes: seq<Option<JournalError>>)
    requires |SampleResponse()| >= 1 && TwoAndTwo(outcomes)
    ensures ViewOf(TheCalls(), outcomes, PEER) == View([OpenDraft(PEER), Received()], Some(Refused()), true)
  {
    hide SampleResponse;
    var ops := TheCalls();
    assert ops[..3][..2] == ops[..2] && ops[..2][..1] == ops[..1] && ops[..1][..0] == [];
    assert outcomes[..3][..2] == outcomes[..2] && outcomes[..2][..1] == outcomes[..1] && outcomes[..1][..0] == [];
    assert ViewOf(ops[..1], outcomes[..1], PEER) == View([OpenDraft(PEER)], None, false);
    assert ViewOf(ops[..2], outcomes[..2], PEER) == View([OpenDraft(PEER), Received()], None, false);
    assert ViewOf(ops[..3], outcomes[..3], PEER) == View([OpenDraft(PEER), Received()], Some(Refused()), true);
  }

  lemma ItsData()
    requires |SampleResponse()| >= 1
    ensures var trace := [OpenDraft(PEER), Received()];
            && DataOf(trace, PEER, INBOUND) == [1] == DataOf(trace + [Refused()], PEER, INBOUND)
            && DataOf(trace, PEER, OUTBOUND) == [] && DataOf(trace + [Refused()], PEER, OUTBOUND) == Sent()
  {
    hide SampleResponse, DataOf;
    var one, two := [OpenDraft(PEER)], [OpenDraft(PEER), Received()];
    assert [] + one == one && one + [Received()] == two;
    NothingIsNoData();
    NoteAddsNothing([], OpenDraft(PEER), PEER, INBOUND);
    NoteAddsNothing([], OpenDraft(PEER), PEER, OUTBOUND);
    OneMore(one, Received());
    OneMore(two, Refused());
    OtherWay(one, Received(), OUTBOUND);
    OtherWay(two, Refused(), INBOUND);
    assert [] + [1] == [1] && [] + Sent() == Sent();
  }

  lemma NothingIsNoData()
    ensures DataOf([], PEER, INBOUND) == [] == DataOf([], PEER, OUTBOUND)
  {
  }

  lemma OtherWay(trace: seq<Draft>, d: Draft, direction: byte)
    requires d.direction != direction
    ensures DataOf(trace + [d], PEER, direction) == DataOf(trace, PEER, direction)
  {
    assert (trace + [d])[..|trace|] == trace;
  }

  lemma EvidenceOfIt()
    ensures |SampleResponse()| > 1
    ensures PartialEvidence(TheConfig(), PEER, [1], Sent(), [OpenDraft(PEER), Received()], Some(Refused()), true, [SampleExchange(1)])
  {
    hide SampleResponse, Chained, DataOf, Lived, ValidConfig, TheConfig, OpenDraft, Received, Refused, Sent, SampleExchange;
    ResponseIsNotEmpty();
    ItsEnds();
    TheLife();
    ItsData();
    assert [SampleExchange(1)][..0] == [];
  }

  lemma ItsEnds()
    requires |SampleResponse()| > 1
    ensures |Sent()| == 1 && RequestEnd([SampleExchange(1)]) == 1 && ResponseEnd([SampleExchange(1)]) == 1
    ensures RequestEnd([]) == 0 == ResponseEnd([])
  {
    hide SampleResponse;
  }

  lemma TheEvidence(outcomes: seq<Option<JournalError>>)
    requires TwoAndTwo(outcomes)
    ensures |SampleResponse()| > 1
    ensures Witnessed(TheParty(), PEER, TheCalls(), outcomes)
    ensures ViewOf(TheCalls(), outcomes, PEER).outRefused
  {
    hide SampleResponse, PartialEvidence, ViewOf, SampleExchange, SampleConfig;
    EvidenceOfIt();
    TheView(outcomes);
  }

  // ---------- the indexer ----------

  lemma {:induction false} FilesGrow(st: Settings, log: Log, ops: seq<Op>)
    requires log.files != []
    ensures |Run(st, log, ops).0.files| <= |log.files| + |ops|
    decreases |ops|
  {
    hide ShouldRotate, EncodeFile, Deliver;
    if ops != [] {
      RunUnfolds(st, log, ops);
      FilesGrow(st, Apply(st, log, ops[0]).0, ops[1..]);
    }
  }

  lemma SomethingIsWrong(sha: Bytes -> Bytes, wire: map<Key, Streams>, event: Indexer.Event)
    requires !Indexer.Holds(sha, wire, event)
    ensures exists fault :: Indexer.Explained(sha, wire, event, fault)
  {
    assert Indexer.Explained(sha, wire, event, Indexer.RequestRange) || Indexer.Explained(sha, wire, event, Indexer.ResponseRange)
        || Indexer.Explained(sha, wire, event, Indexer.DigestMismatch);
  }

  lemma FewFiles(log: Log)
    requires log.files != [] && |log.files| <= 5
    ensures |Visible(log)| + 1 < TWO_64
  {
  }

  /** The tail of the only response is lost. */
  lemma TheTailIsLost(st: Settings, log: Log, outcomes: seq<Option<JournalError>>)
    requires |SampleResponse()| > 1 && TwoAndTwo(outcomes) && log.files != []
    requires ViewOf(TheCalls(), outcomes, PEER).outRefused
    requires var last := LastStand(st, log, TheCalls()); last.Some? && !LeavesWhole(st, last.value.0, last.value.1)
    ensures LostTail(TheParty(), PEER, ViewOf(TheCalls(), outcomes, PEER), StandsWhole(st, log, TheCalls(), PEER))
    ensures SampleExchange(1).digest != []
  {
    hide SampleResponse, ViewOf, TheCalls, LastStand, LeavesWhole;
  }

  ghost function TheEnd(): (Log, seq<Option<JournalError>>)
    requires |SampleResponse()| >= 1
  {
    Run(SETTINGS, NewLog(), TheCalls())
  }

  /** The journal of that run can be read. */
  lemma TheJournalIsReadable()
    requires |SampleResponse()| > 1
    ensures Fresh(SETTINGS, NewLog()) && AllWellFormed(TheCalls()) && TwoAndTwo(TheEnd().1)
    ensures ReadAll(Disk(TheEnd().0)).Ok? && |Visible(TheEnd().0)| + 1 < TWO_64
    ensures var last := LastStand(SETTINGS, NewLog(), TheCalls());
            last.Some? && !LeavesWhole(SETTINGS, last.value.0, last.value.1)
  {
    NewLogIsFresh();
    CallsAreWellFormed();
    TheRun(SETTINGS, NewLog());
    ReadBackOfARun(SETTINGS, NewLog(), TheCalls());
    FilesGrow(SETTINGS, NewLog(), TheCalls());
    hide TheCalls, Run, ReadAll, Disk, Fresh, LastStand, LeavesWhole, CutsHeader, SampleResponse, Visible;
    FewFiles(TheEnd().0);
  }

  /** The indexer finds the response of the connection's only event missing. */
  lemma IndexerRejects(started: int)
    ensures |SampleResponse()| > 1 && ReadAll(Disk(TheEnd().0)).Ok?
    ensures var wire := Fold(SortFiles(ReadAll(Disk(TheEnd().0)).value));
            var event := EventOf(SETTINGS.run, PEER, SampleExchange(1), started);
            !Indexer.Holds(TheConfig().sha, wire, event) && Indexer.Explained(TheConfig().sha, wire, event, Indexer.ResponseRange)
  {
    hide SampleResponse, ViewOf, TheCalls, LastStand, LeavesWhole, CutsHeader, Run, Fold, SortFiles, ReadAll;
    hide EventOf, Disk;
    hide Indexer.Holds, Indexer.Explained, LostTail, StandsWhole, Visible, Fresh, SampleConfig;
    hide SampleExchange, Remains, SortedListing;
    hide Witnessed;
    ResponseIsNotEmpty();
    TheJournalIsReadable();
    var (end, outcomes) := TheEnd();
    TheEvidence(outcomes);
    TheTailIsLost(SETTINGS, NewLog(), outcomes);
    var disk := Disk(end);
    var items := ReadAll(disk).value;
    SortFilesSorts(items);
    assert disk + [] == disk;
    NothingElse();
    EvidenceRemains(SETTINGS, NewLog(), TheCalls(), PEER, TheParty(), [], disk, SortFiles(items));
    var event := EventOf(SETTINGS.run, PEER, SampleExchange(1), started);
    assert EventStands(TheParty(), 0, EventOf(SETTINGS.run, PEER, TheParty().report.exchanges[0], started), Fold(SortFiles(items)),
                       LostTail(TheParty(), PEER, ViewOf(TheCalls(), outcomes, PEER),
                                StandsWhole(SETTINGS, NewLog(), TheCalls(), PEER)));
    SomethingIsWrong(TheConfig().sha, Fold(SortFiles(items)), event);
  }

  lemma NothingElse()
    ensures ReadAll([]).Ok? && ReadAll([]).value == []
  {
  }
}
