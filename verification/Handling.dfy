/** One connection from its OPEN record to its CLOSE record
    (handleConnection, internal/engine/connection.go). Clocks, deadlines and
    the TLS handshake are free choices that the surroundings remember. */
module Handling {
  import opened Wrappers
  import opened Bytes
  import opened Ids
  import opened Format
  import opened Drafts
  import opened Rebuild
  import opened Headers
  import opened Rendering
  import opened Routes
  import opened Selecting
  import opened Traces
  import opened ConnectionIO
  import opened Parsing
  import opened Printer
  import opened Lives

  class Handler {
    const cfg: Config
    const conn: Socket
    const bwj: JournalHandle
    const env: Surroundings
    const counters: ConnectionCounters
    const rr: RecordingReader
    const br: BufReader
    const routes: RouteState
    var exchanges: seq<Exchange>
    var reason: nat
    ghost var cause: Cause

    constructor (cfg: Config, conn: Socket, bwj: JournalHandle, env: Surroundings)
      requires ValidConfig(cfg) && conn.taken == 0 && conn.sent == []
      requires bwj.healthy && bwj.Valid() && Journalled(bwj.trace, bwj.connection, conn.incoming, 0, 0, [])
      requires NotesOf(bwj.trace) == []
      ensures this.cfg == cfg && this.conn == conn && this.bwj == bwj && this.env == env
      ensures fresh(counters) && fresh(rr) && fresh(br) && fresh(routes)
      ensures Ready() && counters.requests == 0 && counters.bytesIn == 0
    {
      hide ValidConfig, Journalled, RouteState.CountsFor, RecordingReader.Valid;
      this.cfg, this.conn, this.bwj, this.env := cfg, conn, bwj, env;
      var counts := new ConnectionCounters();
      var reader := new RecordingReader(conn, bwj, counts, cfg.limits.connectionBytes, cfg.limits.headerBytes + 4096);
      var buffered := new BufReader(reader);
      var state := new RouteState();
      counters, rr, br, routes := counts, reader, buffered, state;
      exchanges, reason, cause := [], 0, SetupBroken;
      new;
      Begins();
    }

    /** A new handler stands between two requests. */
    lemma Begins()
      requires Wired() && ValidConfig(cfg) && rr.Valid() && !rr.parserFailed && rr.plainEnd == 0 && rr.outFlags == []
      requires br.buf == [] && br.pending.None?
      requires conn.sent == [] && counters.bytesIn == 0 && counters.bytesOut == 0 && counters.requests == 0
      requires exchanges == [] && routes.counts == map[] && routes.history == []
      requires bwj.healthy && Journalled(bwj.trace, bwj.connection, conn.incoming, 0, 0, []) && rr.Notes() == []
      ensures Ready()
    {
      hide ValidService, Fronts, RouteState.CountsFor, Chained, AllGoOn, InterimsWhole, History, NotesOf, FlagsOut;
      NoExchange(cfg, conn.incoming, conn.sent);
      CountersStart(cfg.service, routes);
      JournalledOut(bwj.trace, bwj.connection, conn.incoming, 0, 0, []);
    }

    ghost predicate Wired() {
      && rr.conn == conn && rr.bwj == bwj && rr.counters == counters && br.rd == rr
      && rr.maxConnBytes == cfg.limits.connectionBytes && rr.headerReadCap == cfg.limits.headerBytes + 4096
    }

    /** The errors of the socket before a capture began. */
    ghost function Faults(): set<Failure>
      reads rr, conn
    {
      if rr.parserFailed then rr.before else conn.faults
    }

    /** The errors of the socket during a capture, if there is one. */
    ghost function Late(): Option<set<Failure>>
      reads rr, conn
    {
      if rr.parserFailed then Some(conn.recent) else None
    }

    ghost function Now(): Life
      reads this, conn, bwj, counters, rr, env
    {
      Life(conn.incoming, conn.sent, exchanges, counters.requests, counters.bytesIn, rr.plainEnd, Faults(), env.answers,
           Late(), bwj.healthy)
    }

    /** The last answers of the surroundings. */
    ghost predicate Asked(tail: seq<Sighting>)
      reads env
    {
      EndsWith(env.answers, tail)
    }

    // ---------- what holds where ----------

    /** At every point, even while and after bytes are captured past a failure. */
    ghost predicate Sound()
      reads this, conn, bwj, counters, rr
    {
      && Wired() && ValidConfig(cfg) && rr.Valid()
      && Chained(cfg, conn.incoming, conn.sent, exchanges)
      && |exchanges| <= counters.requests <= cfg.limits.requests
      && RequestEnd(exchanges) <= rr.plainEnd
      && ResponseEnd(exchanges) <= |conn.sent|
      && (ShortWrite !in Faults() ==> InterimsWhole(exchanges))
      && rr.outFlags == SentFlags(exchanges, |conn.sent|)
      && (exchanges != [] ==> ResponseEnd(exchanges[..|exchanges| - 1]) <= |rr.Out()|)
      && (ResponseEnd(exchanges) < |conn.sent| ==> ResponseEnd(exchanges) <= |rr.Out()|)
    }

    /** Nothing has failed so far. */
    ghost predicate Underway()
      reads this, conn, bwj, counters, rr, br
    {
      && Sound() && br.Valid() && |br.buf| < BUFFER_SIZE && !rr.parserFailed && AllGoOn(exchanges)
      && RequestEnd(exchanges) <= br.Consumed()
      && rr.Out() == conn.sent
    }

    /** ... and the route state agrees with the requests so far. */
    ghost predicate Serving()
      reads this, conn, bwj, counters, rr, br, routes
    {
      Underway() && routes.CountsFor(cfg.service)
    }

    /** ... and no request has been counted since the last exchange. */
    ghost predicate Open()
      reads this, conn, bwj, counters, rr, br, routes
    {
      && Serving()
      && |exchanges| == counters.requests < cfg.limits.requests
      && routes.history == History(exchanges)
      && (bwj.healthy ==> rr.Notes() == [])
    }

    /** ... and nothing sent. */
    ghost predicate Quiet()
      reads this, conn, bwj, counters, rr, br, routes
    {
      Open() && |conn.sent| == ResponseEnd(exchanges)
    }

    /** Between two requests. */
    ghost predicate Ready()
      reads this, conn, bwj, counters, rr, br, routes
    {
      Quiet() && br.Consumed() == RequestEnd(exchanges) && (exchanges == [] ==> br.buf == [])
    }

    /** A header block stands between the last exchange and the parser's position. */
    ghost predicate HeadParsed(info: RequestInfo)
      reads this, conn, bwj, counters, rr, br, routes
    {
      Quiet() && HeadAt(cfg.grammar, conn.incoming, RequestEnd(exchanges), br.Consumed(), info)
    }

    /** And it passed the checks. */
    ghost predicate HeadReceived(info: RequestInfo)
      reads this, conn, bwj, counters, rr, br, routes
    {
      Quiet() && HeadTaken(cfg, conn.incoming, RequestEnd(exchanges), br.Consumed(), info)
    }

    /** Nothing but the interim line stands behind the last response, whole unless the socket fell short. */
    ghost predicate OnlyInterim(info: RequestInfo, xw: ExchangeWriter, interim: nat)
      reads this, conn, xw
    {
      && xw.reader == rr && !xw.streaming && interim <= |INTERIM| && (interim > 0 ==> WantsInterim(info))
      && (ShortWrite !in conn.faults ==> interim == InterimSize(info))
      && |conn.sent| == ResponseEnd(exchanges) + interim
      && conn.sent[ResponseEnd(exchanges)..] == INTERIM[..interim] == xw.hashed
    }

    /** The header block was taken and the interim line is out. */
    ghost predicate InterimSent(info: RequestInfo, xw: ExchangeWriter, headEnd: int, interim: nat)
      reads this, conn, bwj, counters, rr, br, routes, xw
    {
      && Open() && OnlyInterim(info, xw, interim) && InterimAllowed(cfg, info)
      && 0 <= headEnd <= br.Consumed() && HeadTaken(cfg, conn.incoming, RequestEnd(exchanges), headEnd, info)
    }

    /** A whole request was taken. */
    ghost predicate BodyReceived(info: RequestInfo, xw: ExchangeWriter, headEnd: int, interim: nat)
      reads this, conn, bwj, counters, rr, br, routes, xw
    {
      && Open() && OnlyInterim(info, xw, interim)
      && 0 <= headEnd <= br.Consumed() && RequestTaken(cfg, conn.incoming, RequestEnd(exchanges), headEnd, br.Consumed(), info)
    }

    /** ... and counted. */
    ghost predicate Counted(info: RequestInfo, xw: ExchangeWriter, headEnd: int, interim: nat)
      reads this, conn, bwj, counters, rr, br, routes, xw
    {
      InHand(info, xw, headEnd, interim) && routes.CountsFor(cfg.service)
    }

    /** The request that is being answered, whatever its response will be. */
    ghost predicate InHand(info: RequestInfo, xw: ExchangeWriter, headEnd: int, interim: nat)
      reads this, conn, bwj, counters, rr, br, xw
    {
      && Underway() && OnlyInterim(info, xw, interim)
      && 0 <= headEnd <= br.Consumed() && RequestTaken(cfg, conn.incoming, RequestEnd(exchanges), headEnd, br.Consumed(), info)
      && |exchanges| + 1 == counters.requests
      && (bwj.healthy ==> rr.Notes() == RequestNote(cfg.limits, bwj.connection, counters.requests))
    }

    /** ... and its response chosen. */
    ghost predicate Chosen(info: RequestInfo, xw: ExchangeWriter, headEnd: int, interim: nat, selection: Selection)
      reads this, conn, bwj, counters, rr, br, routes, xw
    {
      && Counted(info, xw, headEnd, interim)
      && routes.history == History(exchanges) + [RequestOf(info)]
      && Promised(cfg.service, History(exchanges), RequestOf(info), selection.plan.close, selection)
      && !OpensTunnel(info, selection)
      && (selection.plan.close <==> info.close || counters.requests >= cfg.limits.requests)
      && CanonicalNamesDiffer(selection.plan.headers)
      && Fault(ContextOf(cfg, info), selection.plan).None?
    }

    /** The exchange is recorded. */
    ghost predicate Answered()
      reads this, conn, bwj, counters, rr
    {
      && Sound() && !rr.parserFailed && exchanges != [] && |exchanges| == counters.requests
      && |conn.sent| == ResponseEnd(exchanges) && rr.plainEnd < RequestEnd(exchanges) + BUFFER_SIZE
      && (bwj.healthy ==> rr.Notes() == RequestNote(cfg.limits, bwj.connection, counters.requests))
    }

    /** The end is decided: the reason is that of its cause, the cause is true
        of the connection, and the journal, while healthy, was told just that. */
    ghost predicate Concluded()
      reads this, conn, bwj, counters, rr, env
    {
      && Sound() && !rr.parserFailed && reason == ReasonOf(cause) && Because(cfg, Now(), cause)
      && (bwj.healthy ==>
            rr.Notes() == RequestNote(cfg.limits, bwj.connection, counters.requests) + CauseNote(cfg.limits, bwj.connection, cause))
    }

    /** The handler is done: also what follows was captured, where it should be. */
    ghost predicate Finished()
      reads this, conn, bwj, counters, rr, env
    {
      && Sound() && reason == ReasonOf(cause) && Because(cfg, Now(), cause) && CaptureDone(cfg, Now(), cause)
      && (rr.parserFailed ==> conn.faults == rr.before + conn.recent)
      && (bwj.healthy ==> NotesFit(cfg, Now(), bwj.connection, rr.Notes(), cause))
    }

    /** Where nothing is to be captured, the end is the end. */
    lemma NothingToCapture()
      requires Concluded() && !Captures(cause)
      ensures Finished()
    {
      hide ValidConfig, InterimsWhole, RequestNote, Because, Chained, NotesOf, ReasonOf, NoteOf, CauseNote, Captures;
      hide RecordingReader.Out, RecordingReader.Notes;
      rr.Numbers();
    }

    // ---------- what reading and sending keep ----------

    /** Reading more leaves the connection open as it was. */
    twostate lemma ReadingKeepsOpen()
      requires old(Open()) && br.Valid() && |br.buf| < BUFFER_SIZE && !rr.parserFailed && old(br.Consumed()) <= br.Consumed()
      requires exchanges == old(exchanges) && conn.sent == old(conn.sent) && counters.requests == old(counters.requests)
      requires unchanged(routes) && rr.Out() == old(rr.Out()) && old(conn.faults) <= conn.faults && rr.outFlags == old(rr.outFlags)
      requires bwj.healthy ==> old(bwj.healthy) && rr.Notes() == old(rr.Notes())
      ensures Open()
    {
      hide ValidConfig, InterimsWhole, AllGoOn, Chained, RouteState.CountsFor, RecordingReader.Out;
      hide RecordingReader.Notes, RecordingReader.Valid;
      rr.Numbers();
    }

    /** The plain facts of an open connection. */
    lemma OpenFacts()
      requires Open()
      ensures Wired() && br.Valid() && rr.Valid() && |br.buf| < BUFFER_SIZE && !rr.parserFailed
      ensures |exchanges| == counters.requests < cfg.limits.requests && AllGoOn(exchanges)
      ensures RequestEnd(exchanges) <= br.Consumed() <= counters.bytesIn == rr.plainEnd <= |conn.incoming|
      ensures ResponseEnd(exchanges) <= |conn.sent| == counters.bytesOut && rr.Out() == conn.sent
      ensures bwj.healthy ==> rr.Notes() == []
      ensures counters.bytesIn + |conn.sent| <= cfg.limits.connectionBytes
    {
      hide ValidConfig, InterimsWhole, AllGoOn, Chained, RouteState.CountsFor, Fronts, Journalled, NotesOf;
      hide RecordingReader.Out;
    }

    /** A change of phase is none of the connection's business. */
    twostate lemma PhaseKeepsOpen()
      requires old(Open()) && unchanged(this) && unchanged(conn) && unchanged(bwj)
      requires unchanged(counters) && unchanged(br) && unchanged(routes)
      requires rr.plainEnd == old(rr.plainEnd) && rr.parserFailed == old(rr.parserFailed) && rr.outFlags == old(rr.outFlags)
      ensures Open() && br.Valid() && rr.Valid()
    {
      hide ValidConfig, InterimsWhole, AllGoOn, Chained, RouteState.CountsFor, Fronts, Journalled, NotesOf, FlagsOut;
    }

    /** An open connection may end for any cause that is true of it. */
    lemma OpenMayEnd(why: Cause)
      requires Open() && Because(cfg, Now(), why)
      ensures MayEnd(why)
    {
      hide ValidConfig, InterimsWhole, AllGoOn, Chained, RouteState.CountsFor, RecordingReader.Valid;
      hide BufReader.Valid, RecordingReader.Notes, RecordingReader.Out, Because;
    }

    lemma SetupMayEnd()
      requires Open() && Asked([Yes(SetupFailed)])
      ensures MayEnd(SetupBroken)
    {
      hide Open, MayEnd, EndsWith, AllGoOn;
      OpenFacts();
      OpenMayEnd(SetupBroken);
    }

    /** So does sending, as far as it is journalled. */
    twostate lemma SendingKeepsOpen(more: Bytes)
      requires old(Open()) && br.Valid() && rr.Valid() && !rr.parserFailed && old(br.Consumed()) == br.Consumed()
      requires exchanges == old(exchanges) && conn.sent == old(conn.sent) + more && counters.requests == old(counters.requests)
      requires unchanged(routes) && old(conn.faults) <= conn.faults && rr.plainEnd == old(rr.plainEnd)
      requires |old(rr.Out())| <= |rr.Out()| && br.buf == old(br.buf)
      requires rr.outFlags == old(rr.outFlags) + Repeat(0, |more|)
      requires bwj.healthy ==> old(bwj.healthy) && rr.Notes() == old(rr.Notes())
      ensures Sound()
      ensures rr.Out() == conn.sent ==> Open()
    {
      hide ValidConfig, InterimsWhole, AllGoOn, Chained, RouteState.CountsFor, RecordingReader.Out;
      hide RecordingReader.Notes, RecordingReader.Valid;
      rr.Numbers();
      ChainStays(cfg, conn.incoming, old(conn.sent), more, exchanges);
      PlainlySentMore(exchanges, |old(conn.sent)|, |more|);
    }

    // ---------- ending ----------

    /** `why` is true, and nothing but the request limit was noted. */
    ghost predicate MayEnd(why: Cause)
      reads this, conn, bwj, counters, rr, env
    {
      && Sound() && !rr.parserFailed && Because(cfg, Now(), why)
      && (bwj.healthy ==> rr.Notes() == RequestNote(cfg.limits, bwj.connection, counters.requests))
    }

    /** The end without a record. */
    method Ended(code: nat, ghost why: Cause)
      requires MayEnd(why) && code == ReasonOf(why) && NoteOf(cfg.limits, bwj.connection, why).None? && !Captures(why)
      modifies this`reason, this`cause
      ensures Finished() && cause == why && reason == code
    {
      hide ValidConfig, InterimsWhole, RequestNote, RecordingReader.Valid, Because, Chained, NotesOf, ReasonOf, NoteOf;
      hide Captures;
      reason, cause := code, why;
      assert rr.Notes() + [] == rr.Notes();
      NothingToCapture();
    }

    /** Emits a limit record: for the limit or for the timeout it notes. */
    method LimitNoted(code: nat, observed: int, why: nat, ghost whole: Cause)
      requires MayEnd(whole) && why == ReasonOf(whole)
      requires NoteOf(cfg.limits, bwj.connection, whole) == Some(LimitDraft(bwj.connection, code, Max(observed, 0)))
      modifies this`reason, this`cause, bwj
      ensures Concluded() && cause == whole && (bwj.healthy ==> old(bwj.healthy))
      ensures !Captures(whole) ==> Finished()
    {
      hide ValidConfig, InterimsWhole, RecordingReader.Valid, Because, Chained, NotesOf, ReasonOf, NoteOf;
      hide LimitDraft, RecordingReader.Out, Captures, CaptureDone;
      ghost var before := Now();
      var _ := rr.WriteLimit(code, observed);
      reason, cause := why, whole;
      BecauseOutlivesTheJournal(cfg, before, bwj.healthy, whole);
      if !Captures(whole) {
        NothingToCapture();
      }
    }

    /** Emits a parser-error record. */
    method ParserFailed(code: nat, position: int, ghost whole: Cause)
      requires MayEnd(whole) && ReasonOf(whole) == CLOSE_PARSER_FAILURE
      requires NoteOf(cfg.limits, bwj.connection, whole) == Some(ParserErrorDraft(bwj.connection, code, Max(position, 0)))
      modifies this`reason, this`cause, bwj
      ensures Concluded() && cause == whole && (bwj.healthy ==> old(bwj.healthy))
      ensures !Captures(whole) ==> Finished()
    {
      hide ValidConfig, InterimsWhole, RecordingReader.Valid, Because, Chained, NotesOf, ReasonOf, NoteOf;
      hide ParserErrorDraft, RecordingReader.Out, Captures, CaptureDone;
      ghost var before := Now();
      var _ := rr.WriteParserError(code, Max(position, 0));
      reason, cause := CLOSE_PARSER_FAILURE, whole;
      BecauseOutlivesTheJournal(cfg, before, bwj.healthy, whole);
      if !Captures(whole) {
        NothingToCapture();
      }
    }

    /** What a capture under way may count on: the cause stays, only flagged
        bytes are added, and `conn.recent` has the errors since it began. */
    ghost predicate Capturing(start: Life, remaining: int)
      reads this, conn, bwj, counters, rr, env
    {
      && Sound() && rr.parserFailed && !rr.headerPhase && reason == ReasonOf(cause) && Captures(cause)
      && Now() == start.(bytesIn := counters.bytesIn, late := Some(conn.recent), healthy := bwj.healthy)
      && conn.faults == rr.before + conn.recent
      && 0 <= remaining <= cfg.limits.postFailureBytes && counters.bytesIn == start.plainEnd + cfg.limits.postFailureBytes - remaining
      && (bwj.healthy ==>
            rr.Notes() == RequestNote(cfg.limits, bwj.connection, counters.requests) + CauseNote(cfg.limits, bwj.connection, cause))
      && Because(cfg, Now(), cause)
    }

    /** Flagged capture of what follows a failure, up to its own limit. */
    method PostFailureCapture()
      requires Concluded() && Captures(cause)
      modifies conn`taken, conn`lastRead, conn`faults, conn`recent, bwj, counters`bytesIn, rr
      ensures Finished() && (bwj.healthy ==> old(bwj.healthy))
      ensures rr.plainEnd == old(rr.plainEnd) && rr.parserFailed
      ensures old(counters.bytesIn) <= counters.bytesIn <= old(counters.bytesIn) + cfg.limits.postFailureBytes
      ensures bwj.healthy ==>
                || counters.bytesIn == rr.plainEnd + cfg.limits.postFailureBytes
                || counters.Remaining(rr.maxConnBytes) == 0
                || counters.bytesIn == |conn.incoming| || conn.recent != {}
      ensures bwj.healthy && counters.bytesIn == rr.plainEnd + cfg.limits.postFailureBytes && conn.recent == {}
              && counters.bytesIn < |conn.incoming| ==>
                LimitDraft(bwj.connection, LIMIT_POST_FAILURE_BYTES, cfg.limits.postFailureBytes) in rr.Notes()
    {
      hide ValidConfig, InterimsWhole, RequestNote, RecordingReader.Valid, Because, Chained, NotesOf, CauseNote;
      hide ReasonOf, NoteOf, RecordingReader.Out, Captures, NotesFit, LimitDraft;
      ghost var start: Life;
      var ready: bool;
      start, ready := BeginCapture();
      if !ready {
        StopCapture(start, cfg.limits.postFailureBytes);
        return;
      }
      var remaining := cfg.limits.postFailureBytes;
      while remaining > 0
        invariant Capturing(start, remaining) && (bwj.healthy ==> old(bwj.healthy)) && rr.plainEnd == old(rr.plainEnd)
        decreases remaining
      {
        var err: Option<Failure>;
        remaining, err := CaptureSome(start, remaining);
        if err.Some? {
          if bwj.healthy {
            StoppedMeans(start, remaining);
          }
          StopCapture(start, remaining);
          return;
        }
      }
      CaptureLimit(start);
    }

    method BeginCapture() returns (ghost start: Life, ready: bool)
      requires Concluded() && Captures(cause)
      modifies rr`headerPhase, rr`parserFailed, rr`before, conn`faults, conn`recent
      ensures Capturing(start, cfg.limits.postFailureBytes) && rr.plainEnd == old(rr.plainEnd) == start.plainEnd == counters.bytesIn
      ensures conn.recent == if ready then {} else {Broken}
    {
      hide ValidConfig, InterimsWhole, RequestNote, Because, Chained, NotesOf, ReasonOf, NoteOf, CauseNote, Captures;
      hide Fronts, Journalled, FlagsOut;
      ghost var before := Now();
      ready := rr.BeginPostFailure();
      start := Now();
      BecauseOutlivesCapture(cfg, before, start, cause);
    }

    /** The capture ends without a record of its own. */
    lemma StopCapture(start: Life, remaining: int)
      requires Capturing(start, remaining) && (bwj.healthy ==> CaptureStopped(cfg, Now()))
      ensures Finished()
    {
      hide ValidConfig, InterimsWhole, RecordingReader.Valid, Because, Chained, NotesOf, ReasonOf, NoteOf;
      hide RecordingReader.Out, Captures, CauseNote, RequestNote, CaptureStopped;
    }

    lemma StoppedMeans(start: Life, remaining: int)
      requires Capturing(start, remaining) && CaptureStopped(cfg, Now())
      ensures counters.Remaining(rr.maxConnBytes) == 0 || counters.bytesIn == |conn.incoming| || conn.recent != {}
    {
      hide ValidConfig, InterimsWhole, Because, Chained, NotesOf, ReasonOf, NoteOf, CauseNote, RequestNote;
      rr.Numbers();
    }

    method CaptureSome(ghost start: Life, remaining: int) returns (left: int, err: Option<Failure>)
      requires Capturing(start, remaining) && remaining > 0
      modifies conn`taken, conn`lastRead, conn`faults, conn`recent, bwj, counters`bytesIn, rr
      ensures Capturing(start, left) && (bwj.healthy ==> old(bwj.healthy)) && (left < remaining || err.Some?)
      ensures rr.plainEnd == old(rr.plainEnd)
      ensures err.Some? && bwj.healthy ==> CaptureStopped(cfg, Now())
    {
      hide ValidConfig, InterimsWhole, RequestNote, Because, Chained, NotesOf, ReasonOf, NoteOf, CauseNote;
      hide RecordingReader.Out, Captures, Fronts, Journalled, FlagsOut;
      ghost var before := Now();
      var data: Bytes;
      data, err := rr.Read(Min(32 * 1024, remaining));
      left := remaining - |data|;
      BecauseOutlivesCapture(cfg, before, Now(), cause);
    }

    method CaptureLimit(ghost start: Life)
      requires Capturing(start, 0)
      modifies bwj
      ensures Finished() && (bwj.healthy ==> old(bwj.healthy))
      ensures bwj.healthy ==> LimitDraft(bwj.connection, LIMIT_POST_FAILURE_BYTES, cfg.limits.postFailureBytes) in rr.Notes()
    {
      hide ValidConfig, InterimsWhole, RecordingReader.Valid, Because, Chained, NotesOf, ReasonOf, NoteOf;
      hide RecordingReader.Out, Captures, CauseNote, RequestNote, LimitDraft;
      ghost var before := Now();
      var _ := rr.WriteLimit(LIMIT_POST_FAILURE_BYTES, cfg.limits.postFailureBytes);
      BecauseOutlivesTheJournal(cfg, before, bwj.healthy, cause);
    }

    /** Seconds since the connection started. */
    method Elapsed() returns (seconds: nat)
    {
      seconds := *;
    }

    // ---------- the header block ----------

    /** The first look was enough: the shutdown was seen, or the lifetime was over. */
    ghost predicate StoppedAtOnce(before: seq<Sighting>)
      reads this, env
    {
      || (Looked(before, env.answers, true, false) && cause == ShutdownSeen)
      || (Looked(before, env.answers, false, true) && cause.LifetimeEnded? && !cause.waiting)
    }

    /** The top of the loop: shutdown and the lifetime come first. */
    method MayGoOn() returns (go: bool)
      requires Ready()
      modifies this`reason, this`cause, bwj, env
      ensures bwj.healthy ==> old(bwj.healthy)
      ensures if go then Ready() else Finished()
      ensures if go then env.answers == old(env.answers) + LOOKS else StoppedAtOnce(old(env.answers))
      ensures Yes(Cancelled) in old(env.answers) ==> !go && cause == ShutdownSeen
      ensures Yes(LifetimeOver) in old(env.answers) ==> !go
    {
      hide LimitDraft, ParserErrorDraft, Open, MayEnd, Finished, Concluded, Because, EndsWith, Looked, AllGoOn;
      var cancelled, over := env.Look();
      if cancelled {
        ShutdownMayEnd();
        Ended(CLOSE_SHUTDOWN, ShutdownSeen);
        return false;
      }
      if over {
        OpenFacts();
        var seconds := Elapsed();
        LifetimeIsOver(seconds, false);
        OpenMayEnd(LifetimeEnded(seconds, false));
        LimitNoted(LIMIT_LIFETIME, seconds, CLOSE_LIMIT_REACHED, LifetimeEnded(seconds, false));
        return false;
      }
      return true;
    }

    lemma ShutdownMayEnd()
      requires Open() && Asked([Yes(Cancelled)])
      ensures MayEnd(ShutdownSeen)
    {
      hide Open, MayEnd, EndsWith, AllGoOn, RequestTaken, Rendered, LastFailed;
      OpenFacts();
      OpenMayEnd(ShutdownSeen);
    }

    /** Waits for a header block: an accepted one, or the end of the connection. */
    method ReceiveHead() returns (go: bool, info: RequestInfo)
      requires Ready()
      modifies this`reason, this`cause, bwj, env, counters`bytesIn, rr, br
      modifies conn`taken, conn`lastRead, conn`faults, conn`recent
      ensures bwj.healthy ==> old(bwj.healthy)
      ensures if go then HeadReceived(info) else Finished()
      ensures go ==> env.answers == old(env.answers) + AT_REQUEST && Asked(AT_REQUEST)
      ensures old(env.answers) + LOOKS <= env.answers
              || (!go && StoppedAtOnce(old(env.answers)) && conn.taken == old(conn.taken))
      ensures Yes(Cancelled) in old(env.answers) ==> !go && cause == ShutdownSeen && conn.taken == old(conn.taken)
      ensures Yes(LifetimeOver) in old(env.answers) ==> !go && conn.taken == old(conn.taken)
    {
      hide Finished, HeadReceived, HeadTried, Ready, StoppedAtOnce, EndsWith;
      info := RequestInfo([], [], 0, 0, NoExpectation, 0, false, false);
      go := MayGoOn();
      if !go {
        return;
      }
      var start := br.Consumed();
      var alreadyBuffered := |br.buf| > 0;
      ghost var buffered := |br.buf|;
      ghost var before := env.answers;
      var outcome: HeadOutcome;
      go, outcome := TryHead(start, alreadyBuffered);
      if go {
        AskedAtHead(old(env.answers), env.answers);
        go, info := JudgeHead(outcome, start, alreadyBuffered, buffered);
        if go {
          AskedAtRequest(old(env.answers), env.answers);
        }
      }
    }

    lemma AskedAtHead(before: seq<Sighting>, answers: seq<Sighting>)
      requires answers == before + LOOKS + [No(SetupFailed)]
      ensures answers == before + AT_HEAD && EndsWith(answers, AT_HEAD)
    {
      hide EndsWith;
      EndsWithLatest(before, LOOKS, No(SetupFailed));
      assert LOOKS + [No(SetupFailed)] == AT_HEAD;
    }

    lemma AskedAtRequest(before: seq<Sighting>, answers: seq<Sighting>)
      requires answers == before + AT_HEAD + [No(SetupFailed)]
      ensures answers == before + AT_REQUEST && EndsWith(answers, AT_REQUEST)
    {
      hide EndsWith;
      EndsWithLatest(before, AT_HEAD, No(SetupFailed));
      assert AT_HEAD + [No(SetupFailed)] == AT_REQUEST;
    }

    method TryHead(start: int, alreadyBuffered: bool) returns (go: bool, outcome: HeadOutcome)
      requires Ready() && start == br.Consumed() && alreadyBuffered == (|br.buf| > 0)
      modifies this`reason, this`cause, bwj, env, counters`bytesIn, rr, br
      modifies conn`taken, conn`lastRead, conn`faults, conn`recent
      ensures bwj.healthy ==> old(bwj.healthy)
      ensures if go then HeadTried(outcome, start, rr.headerStarted || alreadyBuffered, old(|br.buf|)) else Finished()
      ensures env.answers == old(env.answers) + [Sighting(SetupFailed, !go)]
    {
      hide Open, MayEnd, Finished, ValidConfig, BufReader.Valid, RecordingReader.Valid, RecordingReader.Notes;
      hide RecordingReader.Out, HeadFound;
      outcome := Refused;
      OpenFacts();
      rr.BeginHeaderPhase(alreadyBuffered);
      PhaseKeepsOpen();
      label Begun:
      var failed := env.Happens(SetupFailed);
      if failed {
        SetupMayEnd();
        Ended(CLOSE_INTERNAL_ERROR, SetupBroken);
        return false, outcome;
      }
      outcome := ReadRequest(br, cfg.grammar);
      ReadingKeepsOpen@Begun();
      OpenFacts();
      go := true;
    }

    /** So much can have been buffered behind the last exchange. */
    ghost predicate RoomFor(buffered: nat)
      reads this, rr
    {
      buffered < BUFFER_SIZE && (exchanges == [] ==> buffered == 0) && RequestEnd(exchanges) + buffered <= rr.plainEnd
    }

    /** One attempt at a header block has been made; `begun` says whether any
        byte of it had arrived, `buffered` how many had before the attempt. */
    ghost predicate HeadTried(outcome: HeadOutcome, start: int, begun: bool, buffered: nat)
      reads this, conn, bwj, counters, rr, br, routes
    {
      && Quiet() && start == RequestEnd(exchanges)
      && RoomFor(buffered)
      && HeadFound(cfg.grammar, conn.incoming, start, br.Consumed(), buffered + ReadCap(cfg), outcome)
      && (outcome.Interrupted? || outcome.CutLine? ==>
            && br.buf == [] && rr.Explains(Some(outcome.failure)) && (!begun ==> br.Consumed() == start)
            && (begun && outcome.failure != JournalFailed ==> start < br.Consumed())
            && outcome.failure in [EOF, UnexpectedEOF, Timeout, Broken, HeaderLimit, ConnectionLimit, JournalFailed])
      && (outcome == Interrupted(EOF) ==> !begun)
      && (outcome == Interrupted(UnexpectedEOF) ==> start < br.Consumed())
      && ((outcome.Interrupted? || outcome.CutLine?) && outcome.failure in [EOF, UnexpectedEOF] && bwj.healthy ==>
            br.Consumed() == |conn.incoming|)
    }

    /** Acts on what the parser found. */
    method JudgeHead(outcome: HeadOutcome, start: int, alreadyBuffered: bool, ghost buffered: nat)
      returns (go: bool, info: RequestInfo)
      requires HeadTried(outcome, start, rr.headerStarted || alreadyBuffered, buffered) && Asked(AT_HEAD)
      modifies this`reason, this`cause, bwj, env, counters`bytesIn, rr
      modifies conn`taken, conn`lastRead, conn`faults, conn`recent
      ensures bwj.healthy ==> old(bwj.healthy)
      ensures if go then HeadReceived(info) && outcome == Got(info) else Finished()
      ensures old(env.answers) <= env.answers && (go ==> env.answers == old(env.answers) + [No(SetupFailed)])
    {
      hide Serving, RouteState.CountsFor, HeadTaken, Finished, EndsWith;
      info := RequestInfo([], [], 0, 0, NoExpectation, 0, false, false);
      var headEnd := br.Consumed();
      match outcome {
        case Interrupted(failure) =>
          HeadFailed(failure, start, headEnd, alreadyBuffered, buffered);
          return false, info;
        case Refused =>
          HeadRefused(outcome, headEnd, rr.headerStarted || alreadyBuffered, buffered);
          return false, info;
        case CutLine(_) =>
          HeadRefused(outcome, headEnd, rr.headerStarted || alreadyBuffered, buffered);
          return false, info;
        case Got(request) =>
          info := request;
      }
      go := CheckHead(info, headEnd - start, buffered);
    }

    /** The checks on an accepted header block, and the request's identifier, which may fail. */
    method CheckHead(info: RequestInfo, size: int, ghost buffered: nat) returns (go: bool)
      requires HeadParsed(info) && size == br.Consumed() - RequestEnd(exchanges)
      requires RoomFor(buffered) && size <= buffered + ReadCap(cfg) && Asked(AT_HEAD)
      modifies this`reason, this`cause, bwj, env, counters`bytesIn, rr
      modifies conn`taken, conn`lastRead, conn`faults, conn`recent
      ensures bwj.healthy ==> old(bwj.healthy)
      ensures if go then HeadReceived(info) else Finished()
      ensures old(env.answers) <= env.answers && (go ==> env.answers == old(env.answers) + [No(SetupFailed)])
    {
      hide LimitDraft, ParserErrorDraft, Open, MayEnd, Finished, Concluded, Because, HeadAt, HeadTaken, BufReader.Valid, RecordingReader.Valid;
      hide RecordingReader.Notes, RecordingReader.Out;
      OpenFacts();
      var headEnd := br.Consumed();
      ghost var head := Head(headEnd, info);
      if size > cfg.limits.headerBytes {
        LongHeadEnds(head, size, buffered);
        LimitNoted(LIMIT_HEADER_BYTES, size, CLOSE_LIMIT_REACHED, HeadTooLong(size, buffered));
        PostFailureCapture();
        return false;
      }
      if (cfg.https && !(info.major == 1 && info.minor == 1))
         || (!cfg.https && !(info.major == 1 && (info.minor == 0 || info.minor == 1))) {
        UnfitHeadEnds(head);
        ParserFailed(PARSER_UNSUPPORTED_VERSION, headEnd, BadVersion(head));
        PostFailureCapture();
        return false;
      }
      if info.expectation == UnsupportedExpectation {
        UnfitHeadEnds(head);
        ParserFailed(PARSER_UNSUPPORTED_EXPECTATION, headEnd, BadExpectation(head));
        PostFailureCapture();
        return false;
      }
      HeadIsTaken(head);
      var failed := env.Happens(SetupFailed);
      if failed {
        SetupMayEnd();
        Ended(CLOSE_INTERNAL_ERROR, SetupBroken);
        return false;
      }
      return true;
    }

    lemma LongHeadEnds(head: Head, size: int, buffered: nat)
      requires HeadParsed(head.info) && head.end == br.Consumed() && size == head.end - RequestEnd(exchanges) > cfg.limits.headerBytes
      requires RoomFor(buffered) && size <= buffered + ReadCap(cfg) && Asked(AT_HEAD)
      ensures MayEnd(HeadTooLong(size, buffered))
    {
      hide EndsWith;
      hide Open, MayEnd, HeadAt, NoHeadWithin, RecordingReader.Notes, RecordingReader.Out, BufReader.Valid;
      hide RecordingReader.Valid;
      hide HeadFollowed, HeadAccepted, BodyBegun, LastFailed, RequestTaken, Rendered, AllGoOn;
      OpenFacts();
      LongHeadIsTheOnlyOne(cfg.grammar, conn.incoming, RequestEnd(exchanges), head.end, head.info, cfg.limits.headerBytes);
      OpenMayEnd(HeadTooLong(size, buffered));
    }

    lemma UnfitHeadEnds(head: Head)
      requires HeadParsed(head.info) && head.end == br.Consumed() && head.end - RequestEnd(exchanges) <= cfg.limits.headerBytes
      requires Asked(AT_HEAD)
      ensures !VersionSupported(cfg, head.info) ==> MayEnd(BadVersion(head))
      ensures VersionSupported(cfg, head.info) && head.info.expectation == UnsupportedExpectation ==> MayEnd(BadExpectation(head))
    {
      hide Open, MayEnd, HeadAt, RecordingReader.Notes, RecordingReader.Out, BufReader.Valid, RecordingReader.Valid;
      hide EndsWith, HeadAccepted, BodyBegun, LastFailed, RequestTaken, Rendered, AllGoOn, VersionSupported;
      OpenFacts();
      if !VersionSupported(cfg, head.info) {
        OpenMayEnd(BadVersion(head));
      } else if head.info.expectation == UnsupportedExpectation {
        OpenMayEnd(BadExpectation(head));
      }
    }

    lemma HeadIsTaken(head: Head)
      requires HeadParsed(head.info) && head.end == br.Consumed() && head.end - RequestEnd(exchanges) <= cfg.limits.headerBytes
      requires VersionSupported(cfg, head.info) && head.info.expectation != UnsupportedExpectation
      ensures HeadTaken(cfg, conn.incoming, RequestEnd(exchanges), head.end, head.info)
    {
      hide Open, HeadAt;
    }

    /** Each way a header block can fail to arrive. */
    method HeadFailed(failure: Failure, start: int, headEnd: int, alreadyBuffered: bool, ghost buffered: nat)
      requires HeadTried(Interrupted(failure), start, rr.headerStarted || alreadyBuffered, buffered) && headEnd == br.Consumed()
      requires Asked(AT_HEAD)
      modifies this`reason, this`cause, bwj, env, counters`bytesIn, rr
      modifies conn`taken, conn`lastRead, conn`faults, conn`recent
      ensures Finished() && (bwj.healthy ==> old(bwj.healthy)) && old(env.answers) <= env.answers
    {
      hide LimitDraft, ParserErrorDraft, EndsWith, HeadTried, MayEnd, Finished, Concluded, Because, RecordingReader.Notes, RecordingReader.Out;
      var begun := rr.headerStarted || alreadyBuffered;
      TriedFacts(Interrupted(failure), start, begun, buffered);
      if failure == EOF && !rr.headerStarted && !alreadyBuffered {
        LeavingEnds(start, begun, buffered);
        Ended(CLOSE_REMOTE, PeerLeft);
        return;
      }
      if failure == Timeout {
        HeadTimedOut(begun, start, headEnd, buffered);
        return;
      }
      if failure == HeaderLimit {
        HeaderLimitEnds(start, begun, buffered);
        LimitNoted(LIMIT_HEADER_BYTES, headEnd - start, CLOSE_LIMIT_REACHED, HeadTooLong(headEnd - start, buffered));
        PostFailureCapture();
        return;
      }
      HeadRefused(Interrupted(failure), headEnd, begun, buffered);
    }

    lemma TriedFacts(outcome: HeadOutcome, start: int, begun: bool, buffered: nat)
      requires HeadTried(outcome, start, begun, buffered)
      ensures start == RequestEnd(exchanges) && counters.requests < cfg.limits.requests && !rr.parserFailed && 0 <= start <= br.Consumed()
      ensures outcome == Interrupted(EOF) ==> !begun
      ensures bwj.healthy ==> rr.Notes() == []
    {
      hide Open, HeadFound, RecordingReader.Notes, RecordingReader.Out, BufReader.Valid, RecordingReader.Valid;
      OpenFacts();
    }

    lemma LeavingEnds(start: int, begun: bool, buffered: nat)
      requires HeadTried(Interrupted(EOF), start, begun, buffered) && Asked(AT_HEAD)
      ensures MayEnd(PeerLeft)
    {
      hide EndsWith, Open, MayEnd, HeadFound, RecordingReader.Notes, RecordingReader.Out, BufReader.Valid, RecordingReader.Valid;
      hide HeadFollowed, HeadAccepted, BodyBegun, LastFailed, RequestTaken, Rendered, AllGoOn;
      OpenFacts();
      OpenMayEnd(PeerLeft);
    }

    lemma HeaderLimitEnds(start: int, begun: bool, buffered: nat)
      requires HeadTried(Interrupted(HeaderLimit), start, begun, buffered) && Asked(AT_HEAD)
      ensures MayEnd(HeadTooLong(br.Consumed() - start, buffered))
    {
      hide EndsWith, Open, MayEnd, NoHeadWithin, Undecided, CutAt, RecordingReader.Notes, RecordingReader.Out, BufReader.Valid;
      hide RecordingReader.Valid, HeadFollowed, HeadAccepted, BodyBegun, LastFailed, RequestTaken, Rendered, AllGoOn;
      OpenFacts();
      HeaderCapIsExact(cfg.grammar, conn.incoming, start, br.Consumed(), buffered + ReadCap(cfg), Interrupted(HeaderLimit),
                       cfg.limits.headerBytes);
      OpenMayEnd(HeadTooLong(br.Consumed() - start, buffered));
    }

    /** The lifetime, if it is over; else the header timeout if a byte of the block arrived, and the idle timeout if none did. */
    method HeadTimedOut(begun: bool, start: int, headEnd: int, ghost buffered: nat)
      requires HeadTried(Interrupted(Timeout), start, begun, buffered) && headEnd == br.Consumed() && Asked(AT_HEAD)
      modifies this`reason, this`cause, bwj, env, counters`bytesIn, rr
      modifies conn`taken, conn`lastRead, conn`faults, conn`recent
      ensures Finished() && (bwj.healthy ==> old(bwj.healthy))
      ensures exists over: bool ::
                && env.answers == old(env.answers) + [Sighting(LifetimeOver, over)]
                && (if over then cause.LifetimeEnded? && cause.waiting
                    else if start < headEnd then cause == HeadTooSlow(headEnd - start) else cause == IdleTooLong)
    {
      hide LimitDraft, ParserErrorDraft, HeadTried, MayEnd, Finished, Concluded, Because, RecordingReader.Notes, RecordingReader.Out, EndsWith;
      TriedFacts(Interrupted(Timeout), start, begun, buffered);
      ghost var before := env.answers;
      var over := env.Happens(LifetimeOver);
      OneMoreAnswer(before, AT_HEAD, Sighting(LifetimeOver, over));
      SlownessEnds(start, begun, buffered);
      if over {
        var seconds := Elapsed();
        WaitedTooLong(start, begun, buffered, seconds);
        LimitNoted(LIMIT_LIFETIME, seconds, CLOSE_LIMIT_REACHED, LifetimeEnded(seconds, true));
      } else if begun {
        LimitNoted(LIMIT_HEADER_TIMEOUT, headEnd - start, CLOSE_HEADER_TIMEOUT, HeadTooSlow(headEnd - start));
      } else {
        LimitNoted(LIMIT_IDLE_TIMEOUT, 0, CLOSE_IDLE_TIMEOUT, IdleTooLong);
      }
      PostFailureCapture();
      assert env.answers == before + [Sighting(LifetimeOver, over)];
    }

    lemma SlownessEnds(start: int, begun: bool, buffered: nat)
      requires HeadTried(Interrupted(Timeout), start, begun, buffered)
      ensures begun <==> start < br.Consumed()
      ensures Asked(AT_HEAD + [No(LifetimeOver)]) ==> MayEnd(if begun then HeadTooSlow(br.Consumed() - start) else IdleTooLong)
    {
      hide Open, MayEnd, Undecided, RecordingReader.Notes, RecordingReader.Out, BufReader.Valid, RecordingReader.Valid;
      hide HeadFollowed, HeadAccepted, BodyBegun, LastFailed, RequestTaken, Rendered, AllGoOn, EndsWith;
      OpenFacts();
      if Asked(AT_HEAD + [No(LifetimeOver)]) {
        OpenMayEnd(if begun then HeadTooSlow(br.Consumed() - start) else IdleTooLong);
      }
    }

    lemma WaitedTooLong(start: int, begun: bool, buffered: nat, seconds: nat)
      requires HeadTried(Interrupted(Timeout), start, begun, buffered) && Asked(AT_HEAD + [Yes(LifetimeOver)])
      ensures MayEnd(LifetimeEnded(seconds, true))
    {
      hide Open, MayEnd, HeadFound, RecordingReader.Notes, RecordingReader.Out, BufReader.Valid, RecordingReader.Valid;
      hide AllGoOn, EndsWith;
      OpenFacts();
      WaitAnswered(env.answers, true);
      LifetimeIsOver(seconds, true);
      OpenMayEnd(LifetimeEnded(seconds, true));
    }

    /** The exhausted byte budget is a limit; anything else is a parser
        failure, also a line that a timeout or the read cap cut short and the
        library refused. */
    method HeadRefused(outcome: HeadOutcome, headEnd: int, ghost begun: bool, ghost buffered: nat)
      requires HeadTried(outcome, RequestEnd(exchanges), begun, buffered) && headEnd == br.Consumed()
      requires outcome.Refused? || outcome.CutLine? || (outcome.Interrupted? && outcome.failure !in [EOF, Timeout, HeaderLimit])
      requires Asked(AT_HEAD)
      modifies this`reason, this`cause, bwj, counters`bytesIn, rr
      modifies conn`taken, conn`lastRead, conn`faults, conn`recent
      ensures Finished() && (bwj.healthy ==> old(bwj.healthy))
    {
      hide LimitDraft, ParserErrorDraft, HeadTried, MayEnd, Finished, Concluded, Because, RecordingReader.Notes, RecordingReader.Out, EndsWith;
      TriedFacts(outcome, RequestEnd(exchanges), begun, buffered);
      RefusalEnds(outcome, begun, buffered);
      if counters.Remaining(rr.maxConnBytes) <= 0 {
        LimitNoted(LIMIT_CONNECTION_BYTES, cfg.limits.connectionBytes, CLOSE_LIMIT_REACHED, BytesUsedUp(InHead));
        return;
      }
      ParserFailed(PARSER_INVALID_HTTP, headEnd, BadHead(headEnd, buffered));
      PostFailureCapture();
    }

    lemma RefusalEnds(outcome: HeadOutcome, begun: bool, buffered: nat)
      requires HeadTried(outcome, RequestEnd(exchanges), begun, buffered)
      requires outcome.Refused? || outcome.CutLine? || (outcome.Interrupted? && outcome.failure !in [EOF, Timeout, HeaderLimit])
      requires Asked(AT_HEAD)
      ensures counters.Remaining(rr.maxConnBytes) <= 0 ==> MayEnd(BytesUsedUp(InHead))
      ensures counters.Remaining(rr.maxConnBytes) > 0 ==> MayEnd(BadHead(br.Consumed(), buffered))
    {
      hide Open, MayEnd, HeadFound, HeadAt, RecordingReader.Notes, RecordingReader.Out, BufReader.Valid;
      hide RecordingReader.Valid;
      hide HeadFollowed, HeadAccepted, BodyBegun, LastFailed, RequestTaken, Rendered, AllGoOn, HeadBadAt, HeadLost, EndsWith;
      OpenFacts();
      FailureExcludesHeads(cfg.grammar, conn.incoming, RequestEnd(exchanges), br.Consumed(), buffered + ReadCap(cfg), outcome);
      if counters.Remaining(rr.maxConnBytes) <= 0 {
        OpenMayEnd(BytesUsedUp(InHead));
      } else {
        HeadStops(cfg, Now(), br.Consumed(), buffered + ReadCap(cfg), outcome);
        OpenMayEnd(BadHead(br.Consumed(), buffered));
      }
    }

    // ---------- the interim line ----------

    /** The declared length and the interim line. */
    method SendInterim(info: RequestInfo, xw: ExchangeWriter) returns (go: bool, interim: nat)
      requires HeadReceived(info) && xw.reader == rr && xw.hashed == [] && !xw.streaming && Asked(AT_REQUEST)
      modifies this`reason, this`cause, conn, bwj, counters`bytesIn, counters`bytesOut, rr, xw`hashed
      ensures bwj.healthy ==> old(bwj.healthy)
      ensures br.Consumed() == old(br.Consumed()) || !go
      ensures if go then InterimSent(info, xw, br.Consumed(), interim) else Finished()
    {
      hide LimitDraft, ParserErrorDraft, Open, MayEnd, Finished, Concluded, Because, HeadTaken, BufReader.Valid, RecordingReader.Valid;
      hide RecordingReader.Notes, RecordingReader.Out, EndsWith;
      OpenFacts();
      go, interim := false, 0;
      ghost var head := Head(br.Consumed(), info);
      AcceptedMayEnd(head);
      if info.declared > cfg.limits.bodyBytes {
        LimitNoted(LIMIT_BODY_BYTES, info.declared, CLOSE_LIMIT_REACHED, BodyTooLong(head, info.declared));
        PostFailureCapture();
        return;
      }
      if info.expectation == Continue && info.mayHaveBody {
        if |INTERIM| > cfg.limits.responseBytes {
          LimitNoted(LIMIT_RESPONSE_BYTES, |INTERIM|, CLOSE_LIMIT_REACHED, InterimTooLong(head));
          PostFailureCapture();
          return;
        }
        go, interim := WriteInterim(info, xw);
        return;
      }
      assert INTERIM[..0] == [] && conn.sent[ResponseEnd(exchanges)..] == [];
      go := true;
    }

    lemma AcceptedMayEnd(head: Head)
      requires HeadReceived(head.info) && head.end == br.Consumed() && Asked(AT_REQUEST)
      ensures head.info.declared > cfg.limits.bodyBytes ==> MayEnd(BodyTooLong(head, head.info.declared))
      ensures head.info.declared <= cfg.limits.bodyBytes && WantsInterim(head.info) && |INTERIM| > cfg.limits.responseBytes ==>
                MayEnd(InterimTooLong(head))
    {
      hide Open, MayEnd, HeadTaken, RecordingReader.Notes, RecordingReader.Out, BufReader.Valid, RecordingReader.Valid;
      hide HeadFollowed, BodyBegun, LastFailed, RequestTaken, Rendered, AllGoOn, EndsWith;
      OpenFacts();
      if head.info.declared > cfg.limits.bodyBytes {
        OpenMayEnd(BodyTooLong(head, head.info.declared));
      }
      if head.info.declared <= cfg.limits.bodyBytes && WantsInterim(head.info) && |INTERIM| > cfg.limits.responseBytes {
        OpenMayEnd(InterimTooLong(head));
      }
    }

    /** Sends the interim line. It cannot go out when less than its length is
        left of the byte budget; that end has no record. */
    method WriteInterim(info: RequestInfo, xw: ExchangeWriter) returns (go: bool, interim: nat)
      requires HeadReceived(info) && xw.reader == rr && xw.hashed == [] && !xw.streaming && Asked(AT_REQUEST)
      requires WantsInterim(info) && InterimAllowed(cfg, info)
      modifies this`reason, this`cause, conn`sent, conn`faults, conn`recent, conn`armed, bwj, counters`bytesOut, rr`outFlags, xw`hashed
      ensures bwj.healthy ==> old(bwj.healthy)
      ensures if go then InterimSent(info, xw, br.Consumed(), interim) else Finished()
      ensures interim <= |INTERIM| && conn.sent == old(conn.sent) + INTERIM[..interim]
      ensures !go ==> cause.InterimCut? || cause.InterimTooSlow? || cause.InterimBroken?
      ensures !go && reason == CLOSE_LIMIT_REACHED ==> old(counters.Remaining(rr.maxConnBytes)) < |INTERIM|
      ensures old(counters.Remaining(rr.maxConnBytes)) < |INTERIM| ==> !go || ShortWrite in conn.faults
      ensures !go && reason == CLOSE_WRITE_TIMEOUT ==> Timeout in conn.faults
      ensures bwj.healthy ==> rr.Notes() == []
    {
      hide Open, Finished, ValidConfig, HeadTaken, AllGoOn, RecordingReader.Valid, RecordingReader.Notes;
      hide RecordingReader.Out, BufReader.Valid, EndsWith;
      OpenFacts();
      ghost var head := Head(br.Consumed(), info);
      ghost var sentBefore := conn.sent;
      var err: Option<Failure>;
      interim, err := xw.Write(INTERIM);
      br.Stays();
      SendingKeepsOpen(INTERIM[..interim]);
      TailOf(sentBefore, ResponseEnd(exchanges), INTERIM[..interim]);
      go := err.None?;
      if !go {
        EndInterim(err.value, head);
      }
    }

    /** The three ways a failed interim line ends the connection, all without a record. */
    method EndInterim(failure: Failure, ghost head: Head)
      requires Sound() && !rr.parserFailed && (bwj.healthy ==> rr.Notes() == []) && Asked(AT_REQUEST)
      requires HeadAccepted(cfg, Now(), head) && InterimAllowed(cfg, head.info) && WantsInterim(head.info)
      requires rr.Explains(Some(failure)) && failure in [Timeout, Broken, ConnectionLimit, JournalFailed, ShortWrite]
      requires failure == ConnectionLimit ==> !rr.parserFailed && InterimUnfinished(Now()) && rr.plainEnd < head.end + BUFFER_SIZE
      modifies this`reason, this`cause
      ensures Finished()
      ensures cause.InterimCut? || cause.InterimTooSlow? || cause.InterimBroken?
      ensures reason == CLOSE_LIMIT_REACHED ==> failure == ConnectionLimit
      ensures reason == CLOSE_WRITE_TIMEOUT ==> failure == Timeout
    {
      hide Finished, MayEnd, Because, Sound, RecordingReader.Notes, EndsWith;
      InterimMayEnd(failure, head);
      if failure == Timeout {
        Ended(CLOSE_WRITE_TIMEOUT, InterimTooSlow(head));
      } else if failure == ConnectionLimit {
        Ended(CLOSE_LIMIT_REACHED, InterimCut(head));
      } else {
        Ended(CLOSE_INTERNAL_ERROR, InterimBroken(head));
      }
    }

    lemma InterimMayEnd(failure: Failure, head: Head)
      requires Sound() && !rr.parserFailed && (bwj.healthy ==> rr.Notes() == []) && Asked(AT_REQUEST)
      requires HeadAccepted(cfg, Now(), head) && InterimAllowed(cfg, head.info) && WantsInterim(head.info)
      requires rr.Explains(Some(failure)) && failure in [Timeout, Broken, ConnectionLimit, JournalFailed, ShortWrite]
      requires failure == ConnectionLimit ==> !rr.parserFailed && InterimUnfinished(Now()) && rr.plainEnd < head.end + BUFFER_SIZE
      ensures MayEnd(if failure == Timeout then InterimTooSlow(head) else if failure == ConnectionLimit then InterimCut(head)
                     else InterimBroken(head))
    {
      hide Sound, MayEnd, HeadAccepted, InterimAllowed, WantsInterim, EndsWith, InterimUnfinished, Exhausted, Because;
      hide RecordingReader.Notes;
      IsWired();
      AcceptedIsOpen(cfg, Now(), head);
      if failure == ConnectionLimit {
        BudgetIsGone();
      }
      FailedInterim(cfg, Now(), failure, head);
      CountedMayEndOpen(if failure == Timeout then InterimTooSlow(head) else if failure == ConnectionLimit then InterimCut(head)
                        else InterimBroken(head));
    }

    lemma IsWired()
      requires Sound()
      ensures Wired()
    {
    }

    lemma CountedMayEndOpen(why: Cause)
      requires Sound() && !rr.parserFailed && Because(cfg, Now(), why)
      requires (bwj.healthy ==> rr.Notes() == []) && counters.requests < cfg.limits.requests
      ensures MayEnd(why)
    {
      hide Sound, Because, RecordingReader.Notes;
    }

    // ---------- the body ----------

    /** One attempt at the body has been made. */
    ghost predicate BodyTried(info: RequestInfo, headEnd: int, read: nat, err: Option<Failure>, trailer: nat, peeked: nat)
      reads this, conn, bwj, counters, rr, br, routes
    {
      && Open() && 0 <= headEnd && InterimAllowed(cfg, info)
      && HeadTaken(cfg, conn.incoming, RequestEnd(exchanges), headEnd, info)
      && (ShortWrite !in conn.faults ==> |conn.sent| == ResponseEnd(exchanges) + InterimSize(info))
      && BodyFound(cfg.grammar, info, conn.incoming, headEnd, br.Consumed(), cfg.limits.bodyBytes, read, err, trailer, peeked)
      && rr.Explains(err)
      && (err.Some? ==>
            err.value in [UnexpectedEOF, Timeout, Broken, ConnectionLimit, JournalFailed, BadSyntax, BadTrailer, BodyLimit])
      && (err.Some? && err.value !in [BadSyntax, BodyLimit] ==> br.buf == [] && rr.RunsDry(br.Consumed()))
      && (err == Some(UnexpectedEOF) && bwj.healthy ==> br.Consumed() == |conn.incoming|)
      && (err !in [Some(BadSyntax), Some(BadTrailer)] ==> peeked == 0)
    }

    /** The body: ends the connection, or leaves a whole request. */
    method ReceiveBody(info: RequestInfo, xw: ExchangeWriter, headEnd: int, interim: nat) returns (go: bool)
      requires InterimSent(info, xw, headEnd, interim) && headEnd == br.Consumed() && Asked(AT_REQUEST)
      modifies this`reason, this`cause, bwj, env, counters`bytesIn, rr, br
      modifies conn`taken, conn`lastRead, conn`faults, conn`recent
      ensures bwj.healthy ==> old(bwj.healthy)
      ensures if go then BodyReceived(info, xw, headEnd, interim) else Finished()
      ensures old(env.answers) <= env.answers && (go ==> env.answers == old(env.answers) + [No(SetupFailed)] && Asked(AT_BODY))
    {
      hide EndsWith, Open, MayEnd, Finished, ValidConfig, HeadTaken, RequestTaken, BodyFound, BufReader.Valid;
      hide RecordingReader.Valid, RecordingReader.Notes, RecordingReader.Out;
      OpenFacts();
      rr.BeginBodyPhase();
      PhaseKeepsOpen();
      label Begun:
      ghost var before := env.answers;
      var failed := env.Happens(SetupFailed);
      if failed {
        SetupMayEnd();
        Ended(CLOSE_INTERNAL_ERROR, SetupBroken);
        return false;
      }
      OneMoreAnswer(before, AT_REQUEST, No(SetupFailed));
      AtTheBody();
      var bodyRead, bodyErr, trailerBytes, peeked := ConsumeBody(br, cfg.grammar, info, cfg.limits.bodyBytes);
      ReadingKeepsOpen@Begun();
      OpenFacts();
      if bodyErr.Some? {
        BodyFailed(info, headEnd, bodyErr.value, bodyRead, peeked, trailerBytes);
        return false;
      }
      go := CheckTrailer(info, headEnd, bodyRead, trailerBytes, peeked);
    }

    lemma AtTheBody()
      ensures AT_REQUEST + [No(SetupFailed)] == AT_BODY && AT_BODY + [No(LifetimeOver)] == AT_ANSWER
    {
    }

    method CheckTrailer(info: RequestInfo, headEnd: int, ghost read: nat, trailerBytes: nat, ghost peeked: nat)
      returns (go: bool)
      requires BodyTried(info, headEnd, read, None, trailerBytes, peeked) && !rr.parserFailed && Asked(AT_BODY)
      modifies this`reason, this`cause, bwj, counters`bytesIn, rr
      modifies conn`taken, conn`lastRead, conn`faults, conn`recent
      ensures bwj.healthy ==> old(bwj.healthy)
      ensures !go ==> Finished()
      ensures go ==>
                && unchanged(this) && unchanged(conn) && unchanged(bwj) && unchanged(rr) && unchanged(counters)
                && RequestTaken(cfg, conn.incoming, RequestEnd(exchanges), headEnd, br.Consumed(), info)
    {
      hide LimitDraft, ParserErrorDraft, Open, Finished, Concluded, ValidConfig, HeadTaken, AllGoOn, BufReader.Valid, RecordingReader.Valid;
      hide RecordingReader.Notes, RecordingReader.Out, EndsWith;
      OpenFacts();
      if trailerBytes > cfg.limits.headerBytes {
        ghost var why := TrailerTooLong(Head(headEnd, info), br.Consumed(), trailerBytes);
        OpenMayEnd(why);
        LimitNoted(LIMIT_HEADER_BYTES, trailerBytes, CLOSE_LIMIT_REACHED, why);
        PostFailureCapture();
        return false;
      }
      return true;
    }

    lemma LifetimeIsOver(seconds: nat, waiting: bool)
      requires Asked([Yes(LifetimeOver)])
      requires waiting <==> StoodOpen(cfg, Now()) && Asked([No(SetupFailed), Yes(LifetimeOver)])
      requires waiting ==> Timeout in Faults()
      requires AllGoOn(exchanges) || OnTheWay()
      ensures Because(cfg, Now(), LifetimeEnded(seconds, waiting))
    {
      hide EndsWith, StoodOpen, HeadFollowed, HeadAccepted, BodyBegun, InterimUnfinished, LastSucceeded;
      hide RequestTaken, Promised, OpensTunnel, Rendered, RequestEnd, Exhausted;
    }

    /** A body timeout, unless the lifetime is over. */
    method BodyTimedOut(info: RequestInfo, headEnd: nat, bodyRead: nat, ghost peeked: nat, ghost trailer: nat)
      requires BodyTried(info, headEnd, bodyRead, Some(Timeout), trailer, peeked) && 0 <= br.Consumed() && Asked(AT_BODY)
      modifies this`reason, this`cause, bwj, env
      ensures Concluded() && Captures(cause) && (bwj.healthy ==> old(bwj.healthy))
      ensures exists over: bool ::
                && env.answers == old(env.answers) + [Sighting(LifetimeOver, over)]
                && (if over then cause.LifetimeEnded? else cause == BodyTooSlow(Head(headEnd, info), bodyRead))
    {
      hide LimitDraft, ParserErrorDraft, BodyTried, MayEnd, Because, RecordingReader.Notes, RecordingReader.Out, EndsWith, Concluded;
      ghost var before := env.answers;
      var over := env.Happens(LifetimeOver);
      OneMoreAnswer(before, AT_BODY, Sighting(LifetimeOver, over));
      if over {
        var seconds := Elapsed();
        BodyWaitedTooLong(info, headEnd, bodyRead, trailer, peeked, seconds);
        LimitNoted(LIMIT_LIFETIME, seconds, CLOSE_LIMIT_REACHED, LifetimeEnded(seconds, true));
      } else {
        BodyMayEnd(Head(headEnd, info), Timeout, bodyRead, trailer, peeked);
        LimitNoted(LIMIT_BODY_TIMEOUT, bodyRead, CLOSE_BODY_TIMEOUT, BodyTooSlow(Head(headEnd, info), bodyRead));
      }
      assert env.answers == before + [Sighting(LifetimeOver, over)];
    }

    lemma BodyWaitedTooLong(info: RequestInfo, headEnd: nat, bodyRead: nat, trailer: nat, peeked: nat, seconds: nat)
      requires BodyTried(info, headEnd, bodyRead, Some(Timeout), trailer, peeked) && Asked(AT_BODY + [Yes(LifetimeOver)])
      ensures MayEnd(LifetimeEnded(seconds, true))
    {
      hide Open, MayEnd, BodyFound, HeadTaken, RecordingReader.Notes, RecordingReader.Out, BufReader.Valid;
      hide RecordingReader.Valid, AllGoOn, EndsWith;
      OpenFacts();
      WaitAnswered(env.answers, true);
      LifetimeIsOver(seconds, true);
      OpenMayEnd(LifetimeEnded(seconds, true));
    }

    lemma BodyMayEnd(head: Head, failure: Failure, bodyRead: nat, trailer: nat, peeked: nat)
      requires BodyTried(head.info, head.end, bodyRead, Some(failure), trailer, peeked)
      requires Asked(if failure == Timeout then AT_BODY + [No(LifetimeOver)] else AT_BODY)
      ensures 0 <= br.Consumed() && MayEnd(BodyFailure(head, failure, bodyRead, br.Consumed(), peeked))
      ensures !rr.parserFailed && counters.requests < cfg.limits.requests && (bwj.healthy ==> rr.Notes() == [])
    {
      hide Open, MayEnd, HeadTaken, AllGoOn, BodyFound, Because, BodyFailure, RecordingReader.Notes, EndsWith;
      hide RecordingReader.Out;
      hide BufReader.Valid, RecordingReader.Valid, LastFailed, RequestTaken, Rendered, HeadFollowed;
      OpenFacts();
      BodyFoundFacts(cfg.grammar, head.info, conn.incoming, head.end, br.Consumed(), cfg.limits.bodyBytes, bodyRead, failure,
                     trailer, peeked);
      BodyFailureIsTrue(cfg, Now(), head, failure, bodyRead, br.Consumed(), trailer, peeked);
      OpenMayEnd(BodyFailure(head, failure, bodyRead, br.Consumed(), peeked));
    }

    /** Each way a body can fail, reported where the library stands: what it only looked at does not count. */
    method BodyFailed(info: RequestInfo, headEnd: nat, failure: Failure, bodyRead: nat, peeked: nat, ghost trailer: nat)
      requires BodyTried(info, headEnd, bodyRead, Some(failure), trailer, peeked) && 0 <= br.Consumed() && Asked(AT_BODY)
      modifies this`reason, this`cause, bwj, env, counters`bytesIn, rr
      modifies conn`taken, conn`lastRead, conn`faults, conn`recent
      ensures Finished() && (bwj.healthy ==> old(bwj.healthy)) && old(env.answers) <= env.answers
    {
      hide LimitDraft, ParserErrorDraft, BodyTried, Finished, Concluded, MayEnd, Because, RecordingReader.Notes, RecordingReader.Out, EndsWith;
      ghost var head := Head(headEnd, info);
      ghost var why := BodyFailure(head, failure, bodyRead, br.Consumed(), peeked);
      if failure != Timeout {
        BodyMayEnd(head, failure, bodyRead, trailer, peeked);
      }
      var requestEnd := br.Consumed() - peeked;
      if failure == Timeout {
        BodyTimedOut(info, headEnd, bodyRead, peeked, trailer);
      } else if failure == BodyLimit {
        LimitNoted(LIMIT_BODY_BYTES, bodyRead, CLOSE_LIMIT_REACHED, why);
      } else if failure == ConnectionLimit {
        LimitNoted(LIMIT_CONNECTION_BYTES, cfg.limits.connectionBytes, CLOSE_LIMIT_REACHED, why);
      } else {
        ParserFailed(PARSER_INVALID_HTTP, requestEnd, why);
      }
      PostFailureCapture();
    }

    // ---------- the answer ----------

    /** The plain facts of a counted request. */
    lemma CountedFacts(info: RequestInfo, xw: ExchangeWriter, headEnd: int, interim: nat)
      requires InHand(info, xw, headEnd, interim)
      ensures Wired() && ValidConfig(cfg) && br.Valid() && rr.Valid() && Sound() && !rr.parserFailed && xw.reader == rr
      ensures rr.outFlags == SentFlags(exchanges, |conn.sent|)
      ensures |exchanges| + 1 == counters.requests <= cfg.limits.requests && AllGoOn(exchanges)
      ensures rr.Out() == conn.sent
      ensures RequestEnd(exchanges) <= headEnd <= br.Consumed() <= counters.bytesIn == rr.plainEnd <= |conn.incoming|
      ensures |conn.sent| == ResponseEnd(exchanges) + interim == counters.bytesOut
      ensures RequestTaken(cfg, conn.incoming, RequestEnd(exchanges), headEnd, br.Consumed(), info)
      ensures interim > 0 ==> |INTERIM| <= cfg.limits.responseBytes
      ensures (ShortWrite !in conn.faults ==> interim == InterimSize(info)) && |br.buf| < BUFFER_SIZE
      ensures info.major == 1 && (info.minor == 0 || info.minor == 1)
      ensures bwj.healthy ==> rr.Notes() == RequestNote(cfg.limits, bwj.connection, counters.requests)
      ensures Chained(cfg, conn.incoming, conn.sent, exchanges) && (ShortWrite !in conn.faults ==> InterimsWhole(exchanges))
    {
      hide ValidConfig, InterimsWhole, AllGoOn, Chained, RouteState.CountsFor, Fronts, Journalled, NotesOf, FlagsOut;
      hide RecordingReader.Out, RequestNote, SentFlags;
    }

    /** The request is counted, and noted if it is the last one allowed. */
    method AddRequest(info: RequestInfo, xw: ExchangeWriter, headEnd: int, interim: nat)
      requires BodyReceived(info, xw, headEnd, interim)
      modifies bwj, counters`requests
      ensures bwj.healthy ==> old(bwj.healthy)
      ensures counters.requests == old(counters.requests) + 1
      ensures Counted(info, xw, headEnd, interim) && routes.history == History(exchanges)
    {
      hide ValidConfig, RequestTaken, AllGoOn, Chained, InterimsWhole, RecordingReader.Valid, BufReader.Valid;
      hide RecordingReader.Notes;
      hide RecordingReader.Out, RouteState.CountsFor, InterimAllowed, HeadTaken;
      OpenFacts();
      var n := counters.AddRequest();
      CountingKeepsReading();
      label Added:
      if n >= cfg.limits.requests {
        var _ := rr.WriteLimit(LIMIT_REQUESTS, n);
        br.Stays@Added();
        NothingBefore(LimitDraft(bwj.connection, LIMIT_REQUESTS, n));
      }
    }

    /** The request is counted; the lifetime may end the connection. */
    method CountRequest(info: RequestInfo, xw: ExchangeWriter, headEnd: int, interim: nat)
      returns (go: bool, requestNumber: nat, closeAfter: bool)
      requires BodyReceived(info, xw, headEnd, interim) && Asked(AT_BODY)
      modifies this`reason, this`cause, bwj, env, counters`requests
      ensures bwj.healthy ==> old(bwj.healthy)
      ensures requestNumber == counters.requests == old(counters.requests) + 1
      ensures closeAfter <==> info.close || requestNumber >= cfg.limits.requests
      ensures if go then Counted(info, xw, headEnd, interim) && routes.history == History(exchanges) else Finished()
      ensures env.answers == old(env.answers) + [Sighting(LifetimeOver, !go)] && (go ==> Asked(AT_ANSWER))
    {
      hide LimitDraft, ParserErrorDraft, BodyReceived, Counted, Finished, Concluded, MayEnd, EndsWith;
      AddRequest(info, xw, headEnd, interim);
      requestNumber := counters.requests;
      closeAfter := info.close || requestNumber >= cfg.limits.requests;
      ghost var before := env.answers;
      var over := env.Happens(LifetimeOver);
      if over {
        var seconds := Elapsed();
        LifetimeMayEnd(info, xw, headEnd, interim, seconds);
        LimitNoted(LIMIT_LIFETIME, seconds, CLOSE_LIMIT_REACHED, LifetimeEnded(seconds, false));
        return false, requestNumber, closeAfter;
      }
      OneMoreAnswer(before, AT_BODY, No(LifetimeOver));
      AtTheBody();
      go := true;
    }

    lemma LifetimeMayEnd(info: RequestInfo, xw: ExchangeWriter, headEnd: int, interim: nat, seconds: nat)
      requires Counted(info, xw, headEnd, interim) && Asked([Yes(LifetimeOver)])
      ensures MayEnd(LifetimeEnded(seconds, false))
    {
      hide MayEnd, Sound, Because, RequestTaken, RecordingReader.Notes, AllGoOn, BufReader.Valid, EndsWith;
      LifetimeIsOver(seconds, false);
      CountedMayEnd(LifetimeEnded(seconds, false));
    }

    lemma NothingBefore(d: Draft)
      ensures [] + [d] == [d]
    {
    }

    /** The reader does not look at the request counter. */
    twostate lemma CountingKeepsReading()
      requires old(rr.Valid()) && old(br.Valid()) && unchanged(rr) && unchanged(br) && unchanged(conn) && unchanged(bwj)
      requires rr.conn == conn && rr.bwj == bwj && rr.counters == counters && br.rd == rr
      requires counters.bytesIn == old(counters.bytesIn) && counters.bytesOut == old(counters.bytesOut)
      ensures rr.Valid() && br.Valid() && br.Consumed() == old(br.Consumed())
    {
      hide Fronts, Journalled, NotesOf, FlagsOut;
    }

    lemma CountedMayEnd(why: Cause)
      requires Sound() && !rr.parserFailed && Because(cfg, Now(), why)
      requires bwj.healthy ==> rr.Notes() == RequestNote(cfg.limits, bwj.connection, counters.requests)
      ensures MayEnd(why)
    {
      hide Sound, Because, RecordingReader.Notes, RequestNote;
    }

    /** Chooses the response; a successful CONNECT is refused. */
    method ChooseAnswer(info: RequestInfo, xw: ExchangeWriter, headEnd: int, interim: nat, closeAfter: bool)
      returns (go: bool, selection: Selection)
      requires Counted(info, xw, headEnd, interim) && routes.history == History(exchanges) && Asked(AT_ANSWER)
      requires closeAfter <==> info.close || counters.requests >= cfg.limits.requests
      modifies this`reason, this`cause, bwj, routes
      ensures bwj.healthy ==> old(bwj.healthy)
      ensures if go then Chosen(info, xw, headEnd, interim, selection) && selection.plan.close == closeAfter else Finished()
      ensures go <==> !OpensTunnel(info, selection)
    {
      hide Finished, Sound, RequestTaken, AllGoOn, RecordingReader.Valid, BufReader.Valid, InHand;
      hide RecordingReader.Notes, RecordingReader.Out, EndsWith;
      hide ValidService, Promised, RouteState.CountsFor, CanonicalNamesDiffer, Fault, SafeHeaders, Chained, InterimsWhole, SentFlags;
      hide Rendered, FateAsked;
      CountedFacts(info, xw, headEnd, interim);
      selection := SelectResponse(cfg.service, cfg.limits.responseBytes, RequestOf(info), routes, closeAfter);
      ChosenPlansRender(cfg.service, cfg.limits.responseBytes, History(exchanges), RequestOf(info), closeAfter, selection,
                        ContextOf(cfg, info));
      go := true;
      if EqualFold(info.verb, Text("CONNECT")) && 200 <= selection.plan.status < 300 {
        RefuseTunnel(info, xw, headEnd, interim, selection);
        return false, selection;
      }
    }

    method RefuseTunnel(info: RequestInfo, xw: ExchangeWriter, headEnd: int, interim: nat, selection: Selection)
      requires InHand(info, xw, headEnd, interim) && Asked(AT_ANSWER) && OpensTunnel(info, selection)
      requires selection.plan.close <==> info.close || counters.requests >= cfg.limits.requests
      requires Promised(cfg.service, History(exchanges), RequestOf(info), selection.plan.close, selection)
      modifies this`reason, this`cause, bwj
      ensures Finished() && (bwj.healthy ==> old(bwj.healthy))
    {
      hide ParserErrorDraft, Finished, Concluded, MayEnd, Sound, RequestTaken, AllGoOn, RecordingReader.Valid, BufReader.Valid;
      hide RecordingReader.Notes, RecordingReader.Out, EndsWith, InHand, OpensTunnel;
      hide Promised, RouteState.CountsFor, RequestNote, Because, ValidConfig, Chained, InterimsWhole, SentFlags;
      CountedFacts(info, xw, headEnd, interim);
      ghost var why := ConnectRefused(Head(headEnd, info), br.Consumed(), selection);
      TunnelMayEnd(Head(headEnd, info), br.Consumed(), selection);
      ParserFailed(PARSER_PROHIBITED_CONNECT, br.Consumed(), why);
    }

    lemma TunnelMayEnd(head: Head, end: nat, selection: Selection)
      requires Sound() && !rr.parserFailed && AllGoOn(exchanges) && |exchanges| + 1 == counters.requests && end <= rr.plainEnd
      requires Asked(AT_ANSWER)
      requires RequestTaken(cfg, conn.incoming, RequestEnd(exchanges), head.end, end, head.info) && OpensTunnel(head.info, selection)
      requires ShortWrite !in Faults() ==> |conn.sent| == ResponseEnd(exchanges) + InterimSize(head.info)
      requires selection.plan.close <==> head.info.close || counters.requests >= cfg.limits.requests
      requires Promised(cfg.service, History(exchanges), RequestOf(head.info), selection.plan.close, selection)
      requires bwj.healthy ==> rr.Notes() == RequestNote(cfg.limits, bwj.connection, counters.requests)
      ensures MayEnd(ConnectRefused(head, end, selection))
    {
      hide Sound, MayEnd, RequestTaken, Promised, OpensTunnel, RecordingReader.Notes, AllGoOn, RequestNote;
      hide HeadFollowed, HeadAccepted, BodyBegun, LastFailed, Rendered, Exhausted, StoodOpen, EndsWith;
      CountedMayEnd(ConnectRefused(head, end, selection));
    }

    /** The last response failed although it is within what is left of the response limit. */
    ghost predicate OnTheWay()
      reads this, counters
    {
      && exchanges != [] && |exchanges| == counters.requests && !exchanges[|exchanges| - 1].complete
      && var e := exchanges[|exchanges| - 1];
         |Rendered(ContextOf(cfg, e.info), e.selection.plan)| <= Max(cfg.limits.responseBytes - e.interim, 0)
    }

    /** Not all of the response went out. */
    ghost predicate CutShort(e: Exchange) {
      e.responseEnd - e.responseStart - e.interim < |Rendered(ContextOf(cfg, e.info), e.selection.plan)|
    }

    /** Whether the stream's deadline or the shutdown struck, as it was asked for last. */
    ghost predicate Fate(streamErr: Option<Failure>)
      reads env
    {
      match streamErr
      case None => Asked([No(StreamOver), No(Cancelled)])
      case Some(StreamDeadline) => Asked([Yes(StreamOver)])
      case Some(Canceled) => Asked([No(StreamOver), Yes(Cancelled)])
      case _ => false
    }

    /** What the printer's result and the stream's fate say about the last exchange. */
    ghost predicate Told(failure: Option<Failure>, streamErr: Option<Failure>)
      reads this, conn, bwj, counters, env
      requires exchanges != []
    {
      && Wired()
      && var e := exchanges[|exchanges| - 1];
      && rr.Explains(failure) && FateAsked(env.answers)
      && (failure.None? <==> e.complete) && (failure.None? ==> streamErr.None?)
      && (failure.Some? ==> Fate(streamErr))
      && (failure.Some? && failure.value in [StreamDeadline, Canceled] ==> streamErr == failure)
      && (failure.Some? && failure != Some(ResponseLimit) ==>
            |Rendered(ContextOf(cfg, e.info), e.selection.plan)| <= Max(cfg.limits.responseBytes - e.interim, 0))
      && (failure == Some(ResponseLimit) ==>
            && |Rendered(ContextOf(cfg, e.info), e.selection.plan)| > cfg.limits.responseBytes - e.interim
            && e.responseEnd == e.responseStart + e.interim)
      && (failure == Some(ConnectionLimit) ==> CutShort(e))
      && (failure.Some? ==> PrintFailure(failure.value) || failure.value == ResponseLimit)
    }

    /** What printing the response left behind. */
    ghost predicate Printed(info: RequestInfo, xw: ExchangeWriter, interim: nat, selection: Selection, result: WriteResult,
                            streamErr: Option<Failure>)
      reads conn, bwj, counters, rr, br, env
    {
      && Wired() && rr.Valid() && br.Valid()
      && var rendered := Rendered(ContextOf(cfg, info), selection.plan);
         var budget := Max(cfg.limits.responseBytes - interim, 0);
      && result.bytes <= |rendered| && result.hashed == rendered[..result.bytes] && (result.bytes > 0 ==> result.bytes <= budget)
      && (result.complete ==> result.bytes == |rendered|) && (result.complete <==> result.error.None?)
      && rr.Explains(result.error)
      && (result.error.Some? ==> PrintFailure(result.error.value) || result.error.value == ResponseLimit)
      && (result.error == Some(ResponseLimit) <==> |rendered| > budget) && (|rendered| > budget ==> result.bytes == 0)
      && (result.error == Some(ConnectionLimit) ==> result.bytes < |rendered|)
      && (result.error.Some? && result.error.value in [StreamDeadline, Canceled] ==> streamErr == result.error)
      && Fate(streamErr)
      && (result.error.None? ==> rr.Out() == conn.sent)
    }

    /** Prints the response; the stream's deadline and cancellation are asked for once more behind it. */
    method PrintAnswer(info: RequestInfo, xw: ExchangeWriter, headEnd: int, interim: nat, selection: Selection)
      returns (result: WriteResult, streamErr: Option<Failure>)
      requires Chosen(info, xw, headEnd, interim, selection)
      modifies conn`sent, conn`faults, conn`recent, conn`armed, bwj, env, counters`bytesOut, rr`outFlags, xw
      ensures rr.outFlags == old(rr.outFlags) + Repeat(FlagOf(selection.plan), result.bytes)
      ensures old(env.answers) <= env.answers
      ensures result.complete ==> old(env.answers) + Waited(WaitsOf(ContextOf(cfg, info), selection.plan)) <= env.answers
      ensures Printed(info, xw, interim, selection, result, streamErr) && br.Consumed() == old(br.Consumed())
      ensures conn.sent == old(conn.sent) + result.hashed && xw.hashed == old(xw.hashed) + result.hashed
      ensures old(conn.faults) <= conn.faults && |old(rr.Out())| <= |rr.Out()|
      ensures bwj.healthy ==> old(bwj.healthy) && rr.Notes() == old(rr.Notes())
    {
      hide Serving, Sound, ValidConfig, RequestTaken, AllGoOn, Chained, InterimsWhole, RecordingReader.Valid;
      hide BufReader.Valid, RecordingReader.Notes;
      hide RecordingReader.Out, RecordingReader.Explains, RouteState.CountsFor, Promised;
      hide CanonicalNamesDiffer, Fault, Rendered, RequestNote;
      hide PrintFailure, StreamContext.Valid, OpensTunnel, LateFailure, WaitsInVain, EndsWith, Waited, WaitsOf;
      CountedFacts(info, xw, headEnd, interim);
      var responseStart := counters.bytesOut - interim;
      xw.streaming := selection.plan.mode == Ndjson;
      var ctx := new StreamContext(env);
      var budget := Max(cfg.limits.responseBytes - (counters.bytesOut - responseStart), 0);
      label Printing:
      ghost var whole: Bytes;
      result, whole := Printer.Write(ctx, xw, ContextOf(cfg, info), selection.plan, budget);
      br.Stays@Printing();
      streamErr := ctx.Err();
      StreamFate(ctx, streamErr);
    }

    /** Prints the response and records the exchange event. */
    method Answer(info: RequestInfo, xw: ExchangeWriter, headEnd: int, interim: nat, selection: Selection)
      returns (failure: Option<Failure>, streamErr: Option<Failure>)
      requires Chosen(info, xw, headEnd, interim, selection)
      modifies this`exchanges, conn`sent, conn`faults, conn`recent, conn`armed, bwj, env, counters`bytesOut, rr`outFlags, xw
      ensures (bwj.healthy ==> old(bwj.healthy)) && old(env.answers) <= env.answers
      ensures Answered() && Told(failure, streamErr)
      ensures |exchanges| == |old(exchanges)| + 1 && exchanges[..|exchanges| - 1] == old(exchanges)
      ensures exchanges[|exchanges| - 1].selection == selection && exchanges[|exchanges| - 1].info == info
      ensures failure.None? ==> Continued()
    {
      hide Serving, Sound, ValidConfig, RequestTaken, AllGoOn, Chained, InterimsWhole, RecordingReader.Valid;
      hide BufReader.Valid, RecordingReader.Notes;
      hide RecordingReader.Out, RecordingReader.Explains, RouteState.CountsFor, Promised;
      hide CanonicalNamesDiffer, Fault, Rendered, RequestNote;
      hide PrintFailure, OpensTunnel, Answered, Told, Continued, EndsWith, SentFlags, Repeat;
      CountedFacts(info, xw, headEnd, interim);
      ghost var es := exchanges;
      ghost var sentBefore := conn.sent;
      var responseStart := counters.bytesOut - interim;
      var requestStart := RequestEnd(exchanges);
      var result: WriteResult;
      result, streamErr := PrintAnswer(info, xw, headEnd, interim, selection);
      rr.Numbers();
      ghost var raw := streamErr;
      if result.complete {
        streamErr := None;
      }
      var e := Exchange(info, requestStart, headEnd, br.Consumed(), responseStart, counters.bytesOut, cfg.sha(xw.hashed),
                        result.complete && streamErr.None?, interim, selection);
      exchanges := exchanges + [e];
      failure := result.error;
      AnswerIsOk(cfg, conn.incoming, sentBefore, result.hashed, es, e);
      OldFront(es, e);
      FlagsGrow(es, e, |sentBefore|, result.bytes);
      AnswerStands(es, e);
      AnswerIsTold(xw, result, e, raw, streamErr);
      if failure.None? {
        MayContinue(es, e);
      }
    }

    lemma AnswerIsTold(xw: ExchangeWriter, result: WriteResult, e: Exchange, raw: Option<Failure>, streamErr: Option<Failure>)
      requires Printed(e.info, xw, e.interim, e.selection, result, raw) && streamErr == if result.complete then None else raw
      requires exchanges != [] && exchanges[|exchanges| - 1] == e && e.complete == result.complete
      requires e.interim <= cfg.limits.responseBytes && e.responseEnd == e.responseStart + e.interim + result.bytes
      ensures Told(result.error, streamErr)
    {
      hide EndsWith;
      hide RecordingReader.Valid, BufReader.Valid, RecordingReader.Out, Rendered, PrintFailure;
      hide RecordingReader.Explains;
    }

    lemma MayContinue(es: seq<Exchange>, e: Exchange)
      requires exchanges == es + [e] && Wired() && br.Valid() && |br.buf| < BUFFER_SIZE && !rr.parserFailed
      requires e.requestEnd == br.Consumed()
      requires e.responseEnd == |conn.sent| && rr.Out() == conn.sent && routes.CountsFor(cfg.service) && AllGoOn(es)
      requires routes.history == History(exchanges)
      ensures Continued()
    {
      hide AllGoOn, BufReader.Valid, RecordingReader.Out, RouteState.CountsFor, History;
      OldFront(es, e);
    }

    lemma StreamFate(ctx: StreamContext, streamErr: Option<Failure>)
      requires ctx.Valid() && ctx.env == env && streamErr == ctx.fault
      requires streamErr.None? ==> Asked([No(StreamOver), No(Cancelled)])
      ensures Fate(streamErr)
    {
      hide EndsWith;
    }

    lemma OldFront(es: seq<Exchange>, e: Exchange)
      ensures |es + [e]| == |es| + 1 && (es + [e])[..|es|] == es && (es + [e])[|es|] == e
    {
    }

    lemma AnswerStands(es: seq<Exchange>, e: Exchange)
      requires exchanges == es + [e] && Wired() && ValidConfig(cfg) && rr.Valid() && !rr.parserFailed
      requires Chained(cfg, conn.incoming, conn.sent, exchanges)
      requires |exchanges| == counters.requests <= cfg.limits.requests
      requires e.requestEnd <= rr.plainEnd < e.requestEnd + BUFFER_SIZE && e.responseEnd == |conn.sent| && ResponseEnd(es) <= |rr.Out()|
      requires rr.outFlags == SentFlags(exchanges, |conn.sent|)
      requires ShortWrite !in conn.faults ==> InterimsWhole(es) && (WantsInterim(e.info) ==> e.interim == |INTERIM|)
      requires bwj.healthy ==> rr.Notes() == RequestNote(cfg.limits, bwj.connection, counters.requests)
      ensures Answered()
    {
      hide ValidConfig, Chained, RecordingReader.Valid, RecordingReader.Notes, RecordingReader.Out, RequestNote, SentFlags;
      OldFront(es, e);
    }

    /** The new exchange stands; the connection could go on. */
    ghost predicate Continued()
      reads this, conn, bwj, counters, rr, br, routes
    {
      && Wired() && br.Valid() && |br.buf| < BUFFER_SIZE && !rr.parserFailed && RequestEnd(exchanges) == br.Consumed()
      && |conn.sent| == ResponseEnd(exchanges)
      && rr.Out() == conn.sent && routes.CountsFor(cfg.service) && routes.history == History(exchanges)
      && exchanges != [] && AllGoOn(exchanges[..|exchanges| - 1])
    }

    /** How the answer ends the connection, if it does. */
    method Conclude(failure: Option<Failure>, streamErr: Option<Failure>, closeAfter: bool, requestNumber: nat)
      returns (go: bool)
      requires Answered() && Told(failure, streamErr)
      requires requestNumber == counters.requests && closeAfter == exchanges[|exchanges| - 1].selection.plan.close
      requires closeAfter <==> exchanges[|exchanges| - 1].info.close || requestNumber >= cfg.limits.requests
      modifies this`reason, this`cause, bwj, env
      ensures bwj.healthy ==> old(bwj.healthy)
      ensures !go ==> Finished()
      ensures old(env.answers) <= env.answers
      ensures go ==> failure.None? && !closeAfter && requestNumber < cfg.limits.requests && Answered()
      ensures go && old(Continued()) ==> Continued()
    {
      hide ValidConfig, Chained, RecordingReader.Out, RequestNote, AllGoOn, Told, Continued;
      hide Sound, Finished, MayEnd, Because, NoteOf, RecordingReader.Notes, RecordingReader.Explains, Rendered, FateAsked;
      CompleteIfTold(failure, streamErr);
      if failure.Some? || streamErr.Some? {
        AnswerFailed(failure, streamErr);
        return false;
      }
      if closeAfter {
        ghost var why := if requestNumber >= cfg.limits.requests then RequestsUsedUp else CloseAsked;
        SuccessEnds(why, requestNumber);
        Ended(if requestNumber >= cfg.limits.requests then CLOSE_LIMIT_REACHED else CLOSE_NORMAL, why);
        return false;
      }
      return true;
    }

    lemma SuccessEnds(why: Cause, requestNumber: nat)
      requires Answered() && requestNumber == counters.requests && exchanges[|exchanges| - 1].complete
      requires why == if requestNumber >= cfg.limits.requests then RequestsUsedUp else CloseAsked
      requires exchanges[|exchanges| - 1].info.close || requestNumber >= cfg.limits.requests
      requires FateAsked(env.answers)
      ensures MayEnd(why) && NoteOf(cfg.limits, bwj.connection, why).None?
    {
      hide ValidConfig, Chained, InterimsWhole, RecordingReader.Valid, RecordingReader.Notes;
      hide RecordingReader.Out, RequestNote, FateAsked, SentFlags;
    }

    /** Each way an answer can fail, in the order the code asks. */
    method AnswerFailed(failure: Option<Failure>, streamErr: Option<Failure>)
      requires Answered() && Told(failure, streamErr) && failure.Some?
      modifies this`reason, this`cause, bwj, env
      ensures Finished() && (bwj.healthy ==> old(bwj.healthy)) && old(env.answers) <= env.answers
      ensures failure == Some(ResponseLimit) <==> cause == ResponseTooLong
    {
      hide LimitDraft, ParserErrorDraft, Answered, Told, Finished, Concluded, MayEnd, Because, RecordingReader.Notes, EndsWith;
      var seconds := Elapsed();
      AnswerMayEnd(failure, streamErr);
      if failure == Some(ResponseLimit) {
        LimitNoted(LIMIT_RESPONSE_BYTES, cfg.limits.responseBytes, CLOSE_LIMIT_REACHED, ResponseTooLong);
      } else if streamErr == Some(StreamDeadline) {
        StreamFailed(seconds);
      } else if streamErr == Some(Canceled) {
        Ended(CLOSE_SHUTDOWN, ShutdownSeen);
      } else {
        WriteFailed(failure.value, seconds);
      }
    }

    /** The stream's deadline struck; it may have been the lifetime's end. */
    method StreamFailed(seconds: nat)
      requires Answered() && OnTheWay() && Asked([Yes(StreamOver)])
      modifies this`reason, this`cause, bwj, env
      ensures Finished() && (bwj.healthy ==> old(bwj.healthy)) && old(env.answers) <= env.answers
      ensures exists over: bool ::
                && env.answers == old(env.answers) + [Sighting(LifetimeOver, over)]
                && (if over then cause.LifetimeEnded? else cause == StreamTooLong)
    {
      hide LimitDraft, Answered, Finished, Concluded, MayEnd, Because, RecordingReader.Notes, EndsWith, OnTheWay;
      ghost var before := env.answers;
      var bound := env.Happens(LifetimeOver);
      OneMoreAnswer(before, [Yes(StreamOver)], Sighting(LifetimeOver, bound));
      assert [Yes(StreamOver)] + [No(LifetimeOver)] == [Yes(StreamOver), No(LifetimeOver)];
      if bound {
        LifetimeEndsAnswer(seconds);
        LimitNoted(LIMIT_LIFETIME, seconds, CLOSE_LIMIT_REACHED, LifetimeEnded(seconds, false));
      } else {
        StreamMayEnd();
        LimitNoted(LIMIT_STREAM_LIFETIME, cfg.limits.streamSeconds, CLOSE_LIMIT_REACHED, StreamTooLong);
      }
      assert env.answers == before + [Sighting(LifetimeOver, bound)];
    }

    lemma AnswerMayEnd(failure: Option<Failure>, streamErr: Option<Failure>)
      requires Answered() && Told(failure, streamErr) && failure.Some?
      ensures failure == Some(ResponseLimit) ==> MayEnd(ResponseTooLong)
      ensures failure != Some(ResponseLimit) && streamErr == Some(StreamDeadline) ==> Asked([Yes(StreamOver)]) && OnTheWay()
      ensures failure != Some(ResponseLimit) && streamErr == Some(Canceled) ==> MayEnd(ShutdownSeen)
      ensures failure != Some(ResponseLimit) && streamErr !in [Some(StreamDeadline), Some(Canceled)] ==>
                && Wired() && OnTheWay() && rr.Explains(failure) && WriteFailure(failure.value)
                && Asked([No(StreamOver), No(Cancelled)])
                && (failure == Some(ConnectionLimit) ==> CutShort(exchanges[|exchanges| - 1]))
    {
      hide Sound, MayEnd, RecordingReader.Notes, RecordingReader.Explains, Rendered, FateAsked, EndsWith;
      hide HeadFollowed, HeadAccepted, BodyBegun, RequestTaken, StoodOpen;
      if failure == Some(ResponseLimit) {
        FailureEnds(ResponseTooLong);
      }
      if failure != Some(ResponseLimit) && streamErr == Some(Canceled) {
        LastOfTwo(env.answers, No(StreamOver), Yes(Cancelled));
        FailureEnds(ShutdownSeen);
      }
    }

    lemma StreamMayEnd()
      requires Answered() && OnTheWay() && Asked([Yes(StreamOver), No(LifetimeOver)])
      ensures MayEnd(StreamTooLong)
    {
      hide Sound, MayEnd, RecordingReader.Notes, Rendered, EndsWith;
      hide HeadFollowed, HeadAccepted, BodyBegun, RequestTaken, StoodOpen;
      FailureEnds(StreamTooLong);
    }

    lemma LifetimeEndsAnswer(seconds: nat)
      requires Answered() && OnTheWay() && Asked([Yes(LifetimeOver)])
      ensures MayEnd(LifetimeEnded(seconds, false))
    {
      hide Sound, MayEnd, Because, RecordingReader.Notes, EndsWith;
      LifetimeIsOver(seconds, false);
      FailureEnds(LifetimeEnded(seconds, false));
    }

    method WriteFailed(failure: Failure, seconds: nat)
      requires Answered() && Wired() && OnTheWay() && rr.Explains(Some(failure)) && WriteFailure(failure)
      requires failure == ConnectionLimit ==> CutShort(exchanges[|exchanges| - 1])
      requires Asked([No(StreamOver), No(Cancelled)])
      modifies this`reason, this`cause, bwj, env
      ensures Finished() && (bwj.healthy ==> old(bwj.healthy)) && old(env.answers) <= env.answers
      ensures cause != ResponseTooLong
    {
      hide Answered, Finished, Concluded, MayEnd, Because, RecordingReader.Notes, RecordingReader.Explains, CutShort, LimitDraft;
      hide EndsWith, OnTheWay;
      ghost var before := env.answers;
      if failure == Timeout {
        var over := env.Happens(LifetimeOver);
        OneMoreAnswer(before, [No(StreamOver), No(Cancelled)], Sighting(LifetimeOver, over));
        assert [No(StreamOver), No(Cancelled)] + [No(LifetimeOver)] == [No(StreamOver), No(Cancelled), No(LifetimeOver)];
        if over {
          LifetimeEndsAnswer(seconds);
          LimitNoted(LIMIT_LIFETIME, seconds, CLOSE_LIMIT_REACHED, LifetimeEnded(seconds, false));
        } else {
          WritingMayEnd(failure);
          LimitNoted(LIMIT_WRITE_TIMEOUT, cfg.limits.writeSeconds, CLOSE_WRITE_TIMEOUT, AnswerTooSlow);
        }
      } else if failure == ConnectionLimit {
        WritingMayEnd(failure);
        LimitNoted(LIMIT_CONNECTION_BYTES, cfg.limits.connectionBytes, CLOSE_LIMIT_REACHED, BytesUsedUp(InAnswer));
      } else {
        WritingMayEnd(failure);
        Ended(CLOSE_INTERNAL_ERROR, AnswerBroken);
      }
    }

    lemma WritingMayEnd(failure: Failure)
      requires Answered() && Wired() && OnTheWay() && rr.Explains(Some(failure)) && WriteFailure(failure)
      requires failure == ConnectionLimit ==> CutShort(exchanges[|exchanges| - 1])
      requires if failure == Timeout then Asked([No(StreamOver), No(Cancelled), No(LifetimeOver)])
               else Asked([No(StreamOver), No(Cancelled)])
      ensures failure == Timeout ==> MayEnd(AnswerTooSlow)
      ensures failure == ConnectionLimit ==> MayEnd(BytesUsedUp(InAnswer))
      ensures failure != Timeout && failure != ConnectionLimit ==> MayEnd(AnswerBroken)
    {
      hide Answered, Because, CutShort, MayEnd, EndsWith, OnTheWay;
      if failure == Timeout {
        SlowMayEnd();
        FailureEnds(AnswerTooSlow);
      } else if failure == ConnectionLimit {
        CutOffMayEnd();
        FailureEnds(BytesUsedUp(InAnswer));
      } else {
        BrokenMayEnd();
        FailureEnds(AnswerBroken);
      }
    }

    lemma SlowMayEnd()
      requires Answered() && OnTheWay() && Timeout in conn.faults
      requires Asked([No(StreamOver), No(Cancelled), No(LifetimeOver)])
      ensures Because(cfg, Now(), AnswerTooSlow)
    {
      hide Sound, RecordingReader.Notes, Rendered, HeadFollowed, HeadAccepted, BodyBegun, RequestTaken;
      hide StoodOpen, Exhausted, EndsWith;
    }

    lemma CutOffMayEnd()
      requires Answered() && OnTheWay() && rr.Explains(Some(ConnectionLimit))
      requires CutShort(exchanges[|exchanges| - 1]) && Asked([No(StreamOver), No(Cancelled)])
      ensures Because(cfg, Now(), BytesUsedUp(InAnswer))
    {
      hide Sound, RecordingReader.Notes, Because, Exhausted, AnswerCutOff, Rendered, EndsWith;
      BudgetIsGone();
      ShortIsCutOff(cfg, Now());
      CutOffIsTrue(cfg, Now());
    }

    lemma BrokenMayEnd()
      requires Answered() && OnTheWay() && Asked([No(StreamOver), No(Cancelled)])
      requires Broken in conn.faults || ShortWrite in conn.faults || !bwj.healthy
      ensures Because(cfg, Now(), AnswerBroken)
    {
      hide Sound, RecordingReader.Notes, Rendered, HeadFollowed, HeadAccepted, BodyBegun, RequestTaken;
      hide StoodOpen, Exhausted, EndsWith;
    }

    lemma BudgetIsGone()
      requires Sound() && !rr.parserFailed && rr.Explains(Some(ConnectionLimit))
      ensures Exhausted(cfg, Now())
    {
      hide ValidConfig, Chained, InterimsWhole, Fronts, Journalled, NotesOf, FlagsOut, SentFlags;
    }

    lemma FailureEnds(why: Cause)
      requires Answered() && Because(cfg, Now(), why)
      ensures MayEnd(why)
    {
      hide Sound, Because, RecordingReader.Notes;
    }

    /** Answers, and decides whether the connection goes on. */
    method Respond(info: RequestInfo, xw: ExchangeWriter, headEnd: int, interim: nat, selection: Selection, requestNumber: nat)
      returns (go: bool)
      requires Chosen(info, xw, headEnd, interim, selection) && requestNumber == counters.requests
      modifies this`exchanges, this`reason, this`cause, conn`sent, conn`faults, conn`recent, conn`armed, bwj, env, counters`bytesOut
      modifies rr`outFlags, xw
      ensures (bwj.healthy ==> old(bwj.healthy)) && old(env.answers) <= env.answers
      ensures if go then Ready() else Finished()
    {
      hide Answered, Told, Finished, Continued, InHand, RouteState.CountsFor, Serving, Promised, CanonicalNamesDiffer, Fault;
      var failure, streamErr := Answer(info, xw, headEnd, interim, selection);
      CompleteIfTold(failure, streamErr);
      go := Conclude(failure, streamErr, selection.plan.close, requestNumber);
      if go {
        GoesOn();
      }
    }

    lemma CompleteIfTold(failure: Option<Failure>, streamErr: Option<Failure>)
      requires exchanges != [] && Told(failure, streamErr)
      ensures failure.None? <==> exchanges[|exchanges| - 1].complete
      ensures failure.None? ==> streamErr.None?
      ensures FateAsked(env.answers)
    {
      hide EndsWith;
    }

    /** After a complete answer that does not close, the handler stands between two requests again. */
    lemma GoesOn()
      requires Answered() && Continued()
      requires exchanges[|exchanges| - 1].complete && !exchanges[|exchanges| - 1].selection.plan.close
      requires counters.requests < cfg.limits.requests
      ensures Ready()
    {
      hide ValidConfig, Chained, InterimsWhole, RecordingReader.Valid, BufReader.Valid, RecordingReader.Notes;
      hide RecordingReader.Out, RouteState.CountsFor;
      assert forall i | 0 <= i < |exchanges| - 1 :: exchanges[i] == exchanges[..|exchanges| - 1][i];
    }

    // ---------- the loop ----------

    /** One request from its first byte to its answer. The shutdown and the
        lifetime come first: once they were seen, nothing more is read or sent. */
    method ServeOne() returns (go: bool)
      requires Ready()
      modifies this`exchanges, this`reason, this`cause, conn, bwj, env, counters, rr, br, routes
      ensures bwj.healthy ==> old(bwj.healthy)
      ensures if go then Ready() && counters.requests == old(counters.requests) + 1 else Finished()
      ensures go ==> old(env.answers) + AT_ANSWER <= env.answers
      ensures counters.requests <= old(counters.requests) + 1
      ensures old(env.answers) + LOOKS <= env.answers
              || (!go && StoppedAtOnce(old(env.answers)) && conn.taken == old(conn.taken) && conn.sent == old(conn.sent)
                  && counters.requests == old(counters.requests))
      ensures Yes(Cancelled) in old(env.answers) ==> !go && cause == ShutdownSeen && conn.taken == old(conn.taken)
      ensures Yes(LifetimeOver) in old(env.answers) ==> !go && conn.taken == old(conn.taken)
    {
      hide Ready, HeadReceived, InterimSent, BodyReceived, Counted, Chosen, Finished, StoppedAtOnce, EndsWith;
      var info: RequestInfo;
      go, info := ReceiveHead();
      if !go {
        return;
      }
      ghost var asked := env.answers;
      AllBegin(old(env.answers));
      var headEnd := br.Consumed();
      var xw := new ExchangeWriter(rr, NO_ID);
      var interim: nat;
      go, interim := SendInterim(info, xw);
      if !go {
        return;
      }
      go := ReceiveBody(info, xw, headEnd, interim);
      Goes(old(env.answers) + LOOKS, asked, env.answers);
      if !go {
        return;
      }
      var requestNumber: nat;
      var closeAfter: bool;
      ghost var read := env.answers;
      go, requestNumber, closeAfter := CountRequest(info, xw, headEnd, interim);
      Goes(old(env.answers) + LOOKS, read, env.answers);
      if !go {
        return;
      }
      ghost var counted := env.answers;
      AllAsked(old(env.answers), counted);
      var selection: Selection;
      go, selection := ChooseAnswer(info, xw, headEnd, interim, closeAfter);
      if !go {
        return;
      }
      go := Respond(info, xw, headEnd, interim, selection, requestNumber);
      Goes(old(env.answers) + LOOKS, counted, env.answers);
      Goes(old(env.answers) + AT_ANSWER, counted, env.answers);
    }

    lemma AllBegin(before: seq<Sighting>)
      ensures before + LOOKS <= before + AT_REQUEST && before + LOOKS <= before + AT_ANSWER
    {
    }

    lemma AllAsked(before: seq<Sighting>, answers: seq<Sighting>)
      requires answers == before + AT_REQUEST + [No(SetupFailed)] + [No(LifetimeOver)]
      ensures answers == before + AT_ANSWER
    {
    }

    lemma Goes(a: seq<Sighting>, b: seq<Sighting>, c: seq<Sighting>)
      requires a <= b <= c
      ensures a <= c
    {
    }

    /** The TLS handshake, where there is one. */
    method Handshake() returns (go: bool)
      requires Ready() && counters.requests == 0 && counters.bytesIn == 0 && env.answers == []
      modifies this`reason, this`cause, bwj, env
      ensures bwj.healthy ==> old(bwj.healthy)
      ensures if go then Ready() else Finished()
      ensures go ==> env.answers == if cfg.https then [No(LifetimeOver), No(HandshakeFailed)] else []
    {
      hide Open, Finished, Concluded, MayEnd, Because, EndsWith;
      go := true;
      if cfg.https {
        var over := env.Happens(LifetimeOver);
        InHandshake(env.answers, over);
        if over {
          LifetimeEndsHandshake();
          return false;
        }
        var broken := env.Happens(HandshakeFailed);
        HandshakeAnswered(broken);
        if broken {
          over := env.Happens(LifetimeOver);
          BreakAnswered(over);
          if over {
            LifetimeEndsHandshake();
            return false;
          }
          HandshakeMayBreak();
          Ended(CLOSE_TLS_ERROR, HandshakeBroken);
          return false;
        }
      }
    }

    lemma InHandshake(answers: seq<Sighting>, over: bool)
      requires answers == [] + [Sighting(LifetimeOver, over)]
      ensures answers == [Sighting(LifetimeOver, over)]
      ensures over ==> EndsWith(answers, [Yes(LifetimeOver)]) && !EndsWith(answers, [No(SetupFailed), Yes(LifetimeOver)])
    {
      assert [No(SetupFailed), Yes(LifetimeOver)][0] == No(SetupFailed);
    }

    lemma HandshakeAnswered(broken: bool)
      ensures [No(LifetimeOver)] + [Sighting(HandshakeFailed, broken)] == [No(LifetimeOver), Sighting(HandshakeFailed, broken)]
    {
    }

    lemma BreakAnswered(over: bool)
      ensures var answers := [No(LifetimeOver), Yes(HandshakeFailed)] + [Sighting(LifetimeOver, over)];
              && answers == [No(LifetimeOver), Yes(HandshakeFailed), Sighting(LifetimeOver, over)]
              && (over ==> EndsWith(answers, [Yes(LifetimeOver)]) && !EndsWith(answers, [No(SetupFailed), Yes(LifetimeOver)]))
    {
      assert [No(SetupFailed), Yes(LifetimeOver)][0] == No(SetupFailed);
    }

    method LifetimeEndsHandshake()
      requires Ready() && Asked([Yes(LifetimeOver)]) && !Asked([No(SetupFailed), Yes(LifetimeOver)])
      modifies this`reason, this`cause, bwj
      ensures Finished() && (bwj.healthy ==> old(bwj.healthy)) && cause.LifetimeEnded? && !cause.waiting
    {
      hide LimitDraft, ParserErrorDraft, Open, Finished, Concluded, MayEnd, Because, EndsWith, AllGoOn;
      OpenFacts();
      var seconds := Elapsed();
      LifetimeIsOver(seconds, false);
      OpenMayEnd(LifetimeEnded(seconds, false));
      LimitNoted(LIMIT_LIFETIME, seconds, CLOSE_LIMIT_REACHED, LifetimeEnded(seconds, false));
    }

    lemma HandshakeMayBreak()
      requires Ready() && counters.requests == 0 && counters.bytesIn == 0
      requires env.answers == [No(LifetimeOver), Yes(HandshakeFailed), No(LifetimeOver)]
      ensures MayEnd(HandshakeBroken)
    {
      hide Open, MayEnd, AllGoOn, RecordingReader.Valid, RecordingReader.Notes, RecordingReader.Out, BufReader.Valid;
      OpenFacts();
      OpenMayEnd(HandshakeBroken);
    }

    /** The whole life of the connection after its OPEN record. */
    method Serve()
      requires Ready() && counters.requests == 0 && counters.bytesIn == 0 && env.answers == []
      modifies this`exchanges, this`reason, this`cause, conn, bwj, env, counters, rr, br, routes
      ensures Finished() && (bwj.healthy ==> old(bwj.healthy))
      ensures counters.requests <= Looks(env.answers)
    {
      hide Serving, Finished, Looks, StoppedAtOnce;
      var go := Handshake();
      while go
        invariant if go then Ready() else Finished()
        invariant bwj.healthy ==> old(bwj.healthy)
        invariant counters.requests <= Looks(env.answers)
        decreases go, cfg.limits.requests - counters.requests
      {
        ghost var before, requests := env.answers, counters.requests;
        go := ServeOne();
        LooksAgain(before, requests);
      }
    }

    /** A turn that took a request began with a look. */
    lemma LooksAgain(before: seq<Sighting>, requests: nat)
      requires counters.requests <= requests + 1
      requires before + LOOKS <= env.answers || (StoppedAtOnce(before) && counters.requests == requests)
      requires requests <= Looks(before)
      ensures counters.requests <= Looks(env.answers)
    {
      var more := env.answers[|before|..];
      hide Looks;
      if before + LOOKS <= env.answers {
        assert env.answers == before + more && LOOKS <= more;
        LookedAgain(before, more);
      } else {
        assert env.answers == before + more;
        LooksStay(before, more);
      }
    }
  }

  // ---------- the whole connection ----------

  /** What the connection_close event and the exchange events report. */
  datatype Report = Report(exchanges: seq<Exchange>, reason: nat, bytesIn: nat, bytesOut: nat, requests: nat)

  /** The records of a connection whose calls on the journal all succeeded:
      its streams, closed with the reason, every exchange inside the inbound
      bytes that are not flagged, and each outbound byte flagged as the plan
      it was sent for asks. */
  ghost predicate Evidence(cfg: Config, connection: ID, incoming: Bytes, sent: Bytes, trace: seq<Draft>, report: Report, plainEnd: nat) {
    && |trace| >= 2 && trace[|trace| - 1] == CloseDraft(connection, report.reason)
    && Journalled(trace[..|trace| - 1], connection, incoming, report.bytesIn, plainEnd, sent)
    && FlagsOut(trace, connection) == SentFlags(report.exchanges, |sent|)
    && RequestEnd(report.exchanges) <= plainEnd
    && Chained(cfg, incoming, sent, report.exchanges)
  }

  /** The records of any connection, also one whose call was refused: fronts
      of both streams, with every request and every response but the last
      one's in them, whether or not the refused record is found as well. All
      that was sent is there unless a call that was to carry a part of it was
      refused; then less is, but still all exchanges if something was sent
      behind them. */
  ghost predicate PartialEvidence(cfg: Config, connection: ID, incoming: Bytes, sent: Bytes, trace: seq<Draft>,
                                  refused: Option<Draft>, outRefused: bool, es: seq<Exchange>) {
    && DataOf(Asked(trace, refused), connection, INBOUND) <= incoming
    && DataOf(trace, connection, OUTBOUND) <= DataOf(Asked(trace, refused), connection, OUTBOUND) <= sent
    && RequestEnd(es) <= |DataOf(trace, connection, INBOUND)|
    && (es != [] ==> ResponseEnd(es[..|es| - 1]) <= |DataOf(trace, connection, OUTBOUND)|)
    && (outRefused ==> refused.Some? && |DataOf(trace, connection, OUTBOUND)| < |sent|)
    && (!outRefused ==> DataOf(trace, connection, OUTBOUND) == sent)
    && (ResponseEnd(es) < |sent| ==> ResponseEnd(es) <= |DataOf(trace, connection, OUTBOUND)|)
    && Chained(cfg, incoming, sent, es)
  }

  function LifeOf(incoming: Bytes, sent: Bytes, report: Report, plainEnd: nat, faults: set<Failure>, answers: seq<Sighting>,
                  late: Option<set<Failure>>, healthy: bool): Life {
    Life(incoming, sent, report.exchanges, report.requests, report.bytesIn, plainEnd, faults, answers, late, healthy)
  }

  /** All that the socket reported during a life. */
  ghost function AllFaults(l: Life): set<Failure> {
    match l.late case None => l.faults case Some(late) => l.faults + late
  }

  /** The life of a connection: it ends for one cause, which is true of it,
      gives that cause's reason, and tells the journal just that. */
  method HandleConnection(cfg: Config, conn: Socket, bwj: JournalHandle, env: Surroundings)
    returns (report: Report, ghost life: Life, ghost cause: Cause)
    requires ValidConfig(cfg) && conn.taken == 0 && conn.sent == [] && env.answers == []
    requires bwj.trace == [] && bwj.healthy && bwj.Valid()
    modifies conn, bwj, env
    ensures life == LifeOf(conn.incoming, conn.sent, report, life.plainEnd, life.faults, env.answers, life.late, bwj.healthy)
    ensures conn.faults == AllFaults(life)
    ensures Lived(cfg, life, cause)
    ensures report.reason == ReasonOf(cause) && report.bytesOut == |conn.sent| && bwj.Valid()
    ensures bwj.healthy ==>
              && Evidence(cfg, bwj.connection, conn.incoming, conn.sent, bwj.trace, report, life.plainEnd)
              && NotesFit(cfg, life, bwj.connection, NotesOf(bwj.trace), cause)
    ensures PartialEvidence(cfg, bwj.connection, conn.incoming, conn.sent, bwj.trace, bwj.refused, bwj.outRefused, report.exchanges)
  {
    hide ValidConfig, Journalled, NotesOf, Handler.Finished, Handler.Ready, Evidence, PartialEvidence, NotesFit, Lived;
    hide FlagsOut, Looks;
    var ok := bwj.WriteRecord(OpenDraft(bwj.connection));
    if !ok {
      report, cause := Report([], CLOSE_EVIDENCE_FAILURE, 0, 0, 0), OpenRefused;
      var _ := bwj.WriteRecord(CloseDraft(bwj.connection, report.reason));
      life := LifeOf(conn.incoming, [], report, 0, conn.faults, [], None, false);
      NothingHappened(cfg, conn.incoming, bwj.connection, conn.faults);
      return;
    }
    OpenJournalled(bwj.connection, conn.incoming);
    var h := new Handler(cfg, conn, bwj, env);
    h.Serve();
    cause := h.cause;
    report := Report(h.exchanges, h.reason, h.counters.bytesIn, h.counters.bytesOut, h.counters.requests);
    Ends(h);
    ghost var before := bwj.trace;
    ghost var wasHealthy := bwj.healthy;
    ghost var lived := h.Now();
    var _ := bwj.WriteRecord(CloseDraft(bwj.connection, report.reason));
    life := lived.(healthy := bwj.healthy);
    if bwj.healthy {
      CloseIsRecorded(cfg, before, bwj.connection, conn.incoming, conn.sent, report, life.plainEnd);
    } else if wasHealthy {
      CloseIsRefused(cfg, before, bwj.connection, conn.incoming, conn.sent, report);
      assert before + [] == before;
    } else {
      assert before + [] == before;
    }
    LivedOutlivesTheJournal(cfg, lived, bwj.healthy, cause);
  }

  /** What the end of the loop means for the connection. */
  lemma Ends(h: Handler)
    requires h.Finished() && h.counters.requests <= Looks(h.env.answers)
    ensures h.conn.faults == AllFaults(h.Now())
    ensures h.bwj.healthy ==> FlagsOut(h.bwj.trace, h.bwj.connection) == SentFlags(h.exchanges, |h.conn.sent|)
    ensures h.rr.Valid() && h.Wired() && h.counters.bytesOut == |h.conn.sent| && h.bwj.Valid() && h.reason == ReasonOf(h.cause)
    ensures Lived(h.cfg, h.Now(), h.cause)
    ensures h.bwj.healthy ==>
              && Journalled(h.bwj.trace, h.bwj.connection, h.conn.incoming, h.counters.bytesIn, h.rr.plainEnd, h.conn.sent)
              && NotesFit(h.cfg, h.Now(), h.bwj.connection, NotesOf(h.bwj.trace), h.cause)
    ensures PartialEvidence(h.cfg, h.bwj.connection, h.conn.incoming, h.conn.sent, h.bwj.trace, h.bwj.refused, h.bwj.outRefused,
                            h.exchanges)
    ensures Chained(h.cfg, h.conn.incoming, h.conn.sent, h.exchanges) && RequestEnd(h.exchanges) <= h.rr.plainEnd
  {
    hide ValidConfig, InterimsWhole, Chained, Because, NotesOf, NotesFit, Journalled, ReasonOf, DataOf, FlagsOut, SentFlags;
    hide Looks, CaptureDone;
    h.rr.Numbers();
  }

  /** A Close record carries no data and no note. */
  lemma CloseIsRecorded(cfg: Config, trace: seq<Draft>, connection: ID, incoming: Bytes, sent: Bytes, report: Report, plainEnd: nat)
    requires Journalled(trace, connection, incoming, report.bytesIn, plainEnd, sent)
    requires RequestEnd(report.exchanges) <= plainEnd && Chained(cfg, incoming, sent, report.exchanges)
    requires FlagsOut(trace, connection) == SentFlags(report.exchanges, |sent|)
    requires PartialEvidence(cfg, connection, incoming, sent, trace, None, false, report.exchanges)
    ensures var after := trace + [CloseDraft(connection, report.reason)];
            && Evidence(cfg, connection, incoming, sent, after, report, plainEnd) && NotesOf(after) == NotesOf(trace)
            && PartialEvidence(cfg, connection, incoming, sent, after, None, false, report.exchanges)
  {
    hide DataOf, InboundWith, Chained, NotesOf, FlagsOut, SentFlags;
    var close := CloseDraft(connection, report.reason);
    assert (trace + [close])[..|trace + [close]| - 1] == trace;
    NotesOfSnoc(trace, close);
    FlagsOutSnoc(trace, close, connection);
    assert FlagsOut(trace, connection) + [] == FlagsOut(trace, connection);
    NoteAddsNothing(trace, close, connection, INBOUND);
    NoteAddsNothing(trace, close, connection, OUTBOUND);
  }

  lemma CloseIsRefused(cfg: Config, trace: seq<Draft>, connection: ID, incoming: Bytes, sent: Bytes, report: Report)
    requires PartialEvidence(cfg, connection, incoming, sent, trace, None, false, report.exchanges)
    ensures PartialEvidence(cfg, connection, incoming, sent, trace, Some(CloseDraft(connection, report.reason)), false, report.exchanges)
  {
    hide DataOf, Chained;
    var close := CloseDraft(connection, report.reason);
    NoteAddsNothing(trace, close, connection, INBOUND);
    NoteAddsNothing(trace, close, connection, OUTBOUND);
  }

  lemma LivedOutlivesTheJournal(cfg: Config, l: Life, healthy: bool, cause: Cause)
    requires Lived(cfg, l, cause) && (healthy ==> l.healthy)
    ensures Lived(cfg, l.(healthy := healthy), cause)
  {
    hide Because, Chained, InterimsWhole, Looks, Captures;
    BecauseOutlivesTheJournal(cfg, l, healthy, cause);
  }

  /** A connection whose first record was refused. */
  lemma NothingHappened(cfg: Config, incoming: Bytes, connection: ID, faults: set<Failure>)
    ensures Lived(cfg, LifeOf(incoming, [], Report([], CLOSE_EVIDENCE_FAILURE, 0, 0, 0), 0, faults, [], None, false), OpenRefused)
    ensures PartialEvidence(cfg, connection, incoming, [], [], Some(OpenDraft(connection)), false, [])
  {
    NoExchange(cfg, incoming, []);
    NoteAddsNothing([], OpenDraft(connection), connection, INBOUND);
    NoteAddsNothing([], OpenDraft(connection), connection, OUTBOUND);
  }

  lemma OpenJournalled(connection: ID, incoming: Bytes)
    ensures Journalled([OpenDraft(connection)], connection, incoming, 0, 0, [])
    ensures NotesOf([] + [OpenDraft(connection)]) == [] && [] + [OpenDraft(connection)] == [OpenDraft(connection)]
  {
    assert [OpenDraft(connection)][..0] == [];
    assert [] + [OpenDraft(connection)] == [OpenDraft(connection)];
  }

  lemma TailOf(front: Bytes, from: nat, more: Bytes)
    requires from == |front|
    ensures |front + more| == from + |more| && (front + more)[from..] == more
  {
  }

  lemma ShortIsCutOff(cfg: Config, l: Life)
    requires LastFailed(l) && NothingSentSince(l) && l.plainEnd < RequestEnd(l.exchanges) + BUFFER_SIZE
    requires var e := l.exchanges[|l.exchanges| - 1];
             e.responseEnd - e.responseStart - e.interim < |Rendered(ContextOf(cfg, e.info), e.selection.plan)|
    ensures AnswerCutOff(cfg, l)
  {
    hide Rendered;
  }

  lemma CutOffIsTrue(cfg: Config, l: Life)
    requires AnswerCutOff(cfg, l) && FailedOnTheWay(cfg, l) && Exhausted(cfg, l) && EndsWith(l.answers, [No(StreamOver), No(Cancelled)])
    ensures Because(cfg, l, BytesUsedUp(InAnswer))
  {
    hide EndsWith;
    hide AnswerCutOff, Exhausted, StoodOpen, HeadFollowed, HeadAccepted, BodyBegun, RequestTaken, Rendered;
  }

  /** Where a failed attempt at a header block stopped, and why. */
  lemma HeadStops(cfg: Config, l: Life, end: nat, limit: nat, r: HeadOutcome)
    requires HeadFound(cfg.grammar, l.incoming, RequestEnd(l.exchanges), end, limit, r) && RequestEnd(l.exchanges) <= end <= l.plainEnd
    requires r.Refused? || r.CutLine? || (r.Interrupted? && r.failure !in [EOF, Timeout, HeaderLimit])
    requires r.Interrupted? || r.CutLine? ==>
               && end == l.plainEnd && r.failure in [EOF, UnexpectedEOF, Timeout, Broken, HeaderLimit, ConnectionLimit, JournalFailed]
               && (r.failure in [EOF, UnexpectedEOF] && l.healthy ==> end == |l.incoming|)
               && (r.failure == JournalFailed ==> !l.healthy) && r.failure != ConnectionLimit
               && (r.failure in [Timeout, Broken] ==> r.failure in l.faults)
    requires r == Interrupted(UnexpectedEOF) ==> RequestEnd(l.exchanges) < end
    ensures HeadBadAt(cfg, l, end, limit)
  {
  }

  /** What each failure of a body is. */
  function BodyFailure(head: Head, failure: Failure, bodyRead: nat, end: nat, peeked: nat): Cause {
    if failure == Timeout then BodyTooSlow(head, bodyRead)
    else if failure == BodyLimit then BodyTooLong(head, bodyRead)
    else if failure == ConnectionLimit then BytesUsedUp(InBody(head))
    else BadBody(head, end, peeked)
  }

  lemma BodyFailureIsTrue(cfg: Config, l: Life, head: Head, failure: Failure, read: nat, end: nat, trailer: nat, peeked: nat)
    requires BodyBegun(cfg, l, head) && end <= l.plainEnd <= |l.incoming|
    requires BodyFound(cfg.grammar, head.info, l.incoming, head.end, end, cfg.limits.bodyBytes, read, Some(failure), trailer, peeked)
    requires failure in [UnexpectedEOF, Timeout, Broken, ConnectionLimit, JournalFailed, BadSyntax, BadTrailer, BodyLimit]
    requires failure !in [BadSyntax, BodyLimit] ==>
               && end == l.plainEnd
               && (Timeout in l.faults || Broken in l.faults || !l.healthy || Exhausted(cfg, l) || end == |l.incoming|)
    requires failure !in [BadSyntax, BadTrailer] ==> peeked == 0
    requires failure in [Timeout, Broken] ==> failure in l.faults
    requires failure == ConnectionLimit ==> Exhausted(cfg, l)
    requires failure == JournalFailed ==> !l.healthy
    requires failure == UnexpectedEOF && l.healthy ==> end == |l.incoming|
    requires EndsWith(l.answers, if failure == Timeout then AT_BODY + [No(LifetimeOver)] else AT_BODY)
    ensures Because(cfg, l, BodyFailure(head, failure, read, end, peeked))
  {
    hide EndsWith;
    hide HeadTaken, AllGoOn, Rendered, Promised, OpensTunnel, RequestTaken, NoHead, NoBodyWithin, NoHeadWithin;
    hide InterimOut, StoodOpen, LastFailed, HeadFollowed, Exhausted, BodyAwaited, BodyBadAt, BodyExceeds, BodyFound;
    BodyFoundFacts(cfg.grammar, head.info, l.incoming, head.end, end, cfg.limits.bodyBytes, read, failure, trailer, peeked);
    BodyIsRead(cfg, l, head, failure, read, end, trailer, peeked);
    if failure in [UnexpectedEOF, Broken, JournalFailed, BadSyntax, BadTrailer] {
      BodyIsBad(cfg, l, head, failure, read, end, trailer, peeked);
    }
  }

  /** Where the reading of a failed body stopped. */
  lemma BodyIsRead(cfg: Config, l: Life, head: Head, failure: Failure, read: nat, end: nat, trailer: nat, peeked: nat)
    requires BodyBegun(cfg, l, head) && end <= l.plainEnd <= |l.incoming|
    requires BodyFound(cfg.grammar, head.info, l.incoming, head.end, end, cfg.limits.bodyBytes, read, Some(failure), trailer, peeked)
    ensures failure == BodyLimit ==> BodyExceeds(cfg, l, head, end, read)
    ensures failure !in [BadSyntax, BodyLimit] && end == l.plainEnd ==> BodyStarved(cfg, l, head)
    ensures failure !in [BadSyntax, BodyLimit, BadTrailer] && end == l.plainEnd ==>
              BodyAwaited(cfg, l, head) && cfg.grammar.body(head.info, l.incoming[head.end..l.plainEnd]) == BodyMore(read)
  {
    hide BodyBegun, BodyUnfinished, FrontsWithin;
    BodyFoundFacts(cfg.grammar, head.info, l.incoming, head.end, end, cfg.limits.bodyBytes, read, failure, trailer, peeked);
  }

  lemma BodyIsBad(cfg: Config, l: Life, head: Head, failure: Failure, read: nat, end: nat, trailer: nat, peeked: nat)
    requires BodyBegun(cfg, l, head) && end <= l.plainEnd <= |l.incoming|
    requires BodyFound(cfg.grammar, head.info, l.incoming, head.end, end, cfg.limits.bodyBytes, read, Some(failure), trailer, peeked)
    requires failure in [UnexpectedEOF, Broken, JournalFailed, BadSyntax, BadTrailer]
    requires failure != BadSyntax ==>
               && end == l.plainEnd
               && (Timeout in l.faults || Broken in l.faults || !l.healthy || Exhausted(cfg, l) || end == |l.incoming|)
    requires failure !in [BadSyntax, BadTrailer] ==> peeked == 0
    requires failure == Broken ==> Broken in l.faults
    requires failure == JournalFailed ==> !l.healthy
    requires failure == UnexpectedEOF && l.healthy ==> end == |l.incoming|
    ensures BodyBadAt(cfg, l, head, end, peeked)
  {
    hide BodyBegun, BodyUnfinished, FrontsWithin, Exhausted;
    BodyFoundFacts(cfg.grammar, head.info, l.incoming, head.end, end, cfg.limits.bodyBytes, read, failure, trailer, peeked);
  }

  /** What a failed body says about any body at this place. */
  lemma BodyFoundFacts(g: Grammar, info: RequestInfo, stream: Bytes, start: nat, end: nat, max: nat, read: nat, failure: Failure,
                       trailer: nat, peeked: nat)
    requires BodyFound(g, info, stream, start, end, max, read, Some(failure), trailer, peeked)
    ensures start <= end <= |stream| && BodyUnfinished(g, info, stream, start, end) && FrontsWithin(g, info, stream, start, end, max)
    ensures failure == BodyLimit ==> read > max && NoBodyWithin(g, info, stream, start, max)
  {
    if failure == BodyLimit {
      forall other: nat | BodyAt(g, info, stream, start, other)
        ensures !BodyWithin(g, info, stream, start, other, max)
      {
        LongBodyStaysLong(g, info, stream, start, end, max, read, trailer, peeked, other);
      }
    }
  }

  /** The new exchange is right about its bytes, and the earlier ones stay right. */
  lemma AnswerIsOk(cfg: Config, incoming: Bytes, sentBefore: Bytes, printed: Bytes, es: seq<Exchange>, e: Exchange)
    requires Chained(cfg, incoming, sentBefore, es) && AllGoOn(es)
    requires e.requestStart == RequestEnd(es) && e.responseStart == ResponseEnd(es)
    requires e.selection.plan.close <==> e.info.close || |es| + 1 >= cfg.limits.requests
    requires Answers(cfg, incoming, History(es), e)
    requires e.interim <= |INTERIM| && (e.interim > 0 ==> WantsInterim(e.info) && |INTERIM| <= cfg.limits.responseBytes)
    requires |sentBefore| == ResponseEnd(es) + e.interim && sentBefore[ResponseEnd(es)..] == INTERIM[..e.interim]
    requires e.responseEnd == |sentBefore + printed|
    requires printed != [] ==> |printed| <= Max(cfg.limits.responseBytes - e.interim, 0)
    requires var rendered := Rendered(ContextOf(cfg, e.info), e.selection.plan);
             |printed| <= |rendered| && printed == rendered[..|printed|] && (e.complete ==> |printed| == |rendered|)
    requires e.digest == cfg.sha(INTERIM[..e.interim] + printed)
    ensures Chained(cfg, incoming, sentBefore + printed, es + [e])
    ensures History(es + [e]) == History(es) + [RequestOf(e.info)]
  {
    hide Answers, Rendered, Chained, AllGoOn;
    var sent := sentBefore + printed;
    ChainStays(cfg, incoming, sentBefore, printed, es);
    assert sent[e.responseStart..e.responseEnd] == sentBefore[ResponseEnd(es)..] + printed;
    ChainGrows(cfg, incoming, sent, es, e);
  }
}
