/** Why connections end, what the journal is told about it, and that an
    undisturbed connection answers all it could
    (handleConnection, internal/engine/connection.go). */
module Endings {
  import opened Wrappers
  import opened Bytes
  import opened Ids
  import opened Format
  import opened Drafts
  import opened Headers
  import opened Rendering
  import opened Routes
  import opened ConnectionIO
  import opened Parsing
  import opened Lives
  import opened Exchanges
  import opened Samples

  // ---------- the records of limits ----------

  /** A limit record begins with its code. */
  lemma CodeStandsFirst(connection: ID, code: nat, observed: nat)
    requires code < 256
    ensures var d := LimitDraft(connection, code, observed); d.kind == LIMIT_REACHED && d.payload != [] && d.payload[0] as nat == code
  {
  }

  /** No exchange of a connection that stood open was its end. */
  lemma OpenNorEnded(cfg: Config, l: Life)
    requires StoodOpen(cfg, l)
    ensures !LastFailed(l) && l.requests < cfg.limits.requests
    ensures forall connection :: RequestNote(cfg.limits, connection, l.requests) == []
  {
  }

  ghost predicate HasLimitRecord(notes: seq<Draft>) {
    exists d :: d in notes && d.kind == LIMIT_REACHED
  }

  /** Closing for a limit leaves a limit record, but for one cause. */
  lemma LimitIsRecorded(cfg: Config, l: Life, connection: ID, notes: seq<Draft>, cause: Cause)
    requires Because(cfg, l, cause) && NotesFit(cfg, l, connection, notes, cause) && ReasonOf(cause) == CLOSE_LIMIT_REACHED
    ensures HasLimitRecord(notes) <==> !cause.InterimCut?
  {
    hide AskedFor;
    hide HeadTaken, RequestTaken, Promised, Rendered, OpensTunnel, InterimAllowed, InterimUnfinished;
    hide Exhausted, NoHeadWithin, BodyBegun;
    if cause.InterimCut? {
      OpenNorEnded(cfg, l);
      assert notes == [];
    } else if cause.RequestsUsedUp? {
      assert LimitDraft(connection, LIMIT_REQUESTS, l.requests) in notes;
    } else {
      var d := NoteOf(cfg.limits, connection, cause).value;
      assert d in CauseNote(cfg.limits, connection, cause);
      assert d in notes && d.kind == LIMIT_REACHED;
    }
  }

  /** The interim line did not fit into what was left of the byte budget: an
      accepted header block asked for it, and what stands behind the last
      response is an unfinished interim line that ends at the budget. */
  ghost predicate InterimDidNotFit(cfg: Config, l: Life) {
    exists head: Head ::
      && HeadAccepted(cfg, l, head) && WantsInterim(head.info) && InterimAllowed(cfg, head.info)
      && Exhausted(cfg, l) && InterimUnfinished(l) && l.plainEnd < head.end + BUFFER_SIZE
  }

  /** An accepted header block at one place rules out every other account of it. */
  lemma AcceptedRulesOut(cfg: Config, l: Life, head: Head, cause: Cause)
    requires StoodOpen(cfg, l) && HeadTaken(cfg, l.incoming, RequestEnd(l.exchanges), head.end, head.info)
    requires InterimAllowed(cfg, head.info) && Because(cfg, l, cause)
    ensures !cause.HeadTooLong? && !cause.BadVersion? && !cause.BadExpectation? && !cause.InterimTooLong?
    ensures cause.BodyTooLong? ==> BodyBegun(cfg, l, cause.head)
    ensures cause == BytesUsedUp(InHead) ==> l.plainEnd < head.end
    ensures cause.BadHead? ==> !l.healthy || Broken in l.faults || Timeout in l.faults
    ensures forall other | BodyBegun(cfg, l, other) :: other == head
  {
    hide AskedFor;
    hide Promised, Rendered, OpensTunnel, AllGoOn, BodyAt, BodyWithin, NoBody, NoBodyWithin, BodyUnfinished;
    var start := RequestEnd(l.exchanges);
    forall other: Head | HeadAt(cfg.grammar, l.incoming, start, other.end, other.info)
      ensures other == head
    {
      HeadIsDetermined(cfg.grammar, l.incoming, start, head.end, head.info, other.end, other.info);
    }
  }

  /** Closing for a limit leaves no limit record exactly when the interim line
      did not fit, unless the lifetime ran out or the socket fell short without an error. */
  lemma LimitWithoutRecord(cfg: Config, l: Life, connection: ID, notes: seq<Draft>, cause: Cause)
    requires Lived(cfg, l, cause) && NotesFit(cfg, l, connection, notes, cause) && ReasonOf(cause) == CLOSE_LIMIT_REACHED
    requires Yes(LifetimeOver) !in l.answers && ShortWrite !in l.faults
    ensures !HasLimitRecord(notes) <==> InterimDidNotFit(cfg, l)
  {
    hide Chained, InterimsWhole, NotesFit, InterimAllowed, HeadTaken, Promised, Rendered, OpensTunnel;
    hide RequestTaken, NoBodyWithin, BodyUnfinished;
    LimitIsRecorded(cfg, l, connection, notes, cause);
    LastIsIn(l.answers, Yes(LifetimeOver));
    if InterimDidNotFit(cfg, l) {
      var head: Head :| HeadAccepted(cfg, l, head) && WantsInterim(head.info) && InterimAllowed(cfg, head.info)
                        && Exhausted(cfg, l) && InterimUnfinished(l) && l.plainEnd < head.end + BUFFER_SIZE;
      AcceptedRulesOut(cfg, l, head, cause);
      OpenNorEnded(cfg, l);
    }
  }

  /** A write timeout leaves a record exactly when it struck a response, and not the interim line before it. */
  lemma TimeoutWithoutRecord(cfg: Config, l: Life, connection: ID, notes: seq<Draft>, cause: Cause)
    requires Lived(cfg, l, cause) && NotesFit(cfg, l, connection, notes, cause) && ReasonOf(cause) == CLOSE_WRITE_TIMEOUT
    ensures StoodOpen(cfg, l) ==> notes == []
    ensures !StoodOpen(cfg, l) ==> LimitDraft(connection, LIMIT_WRITE_TIMEOUT, cfg.limits.writeSeconds) in notes
  {
    hide AskedFor, Looks, CaptureDone;
    hide Chained, InterimsWhole, HeadTaken, InterimAllowed;
    if StoodOpen(cfg, l) {
      OpenNorEnded(cfg, l);
    } else {
      assert LimitDraft(connection, LIMIT_WRITE_TIMEOUT, cfg.limits.writeSeconds) in CauseNote(cfg.limits, connection, cause);
    }
  }

  /** It happens: the same peer, with room for the interim line, whose write runs into its deadline. */
  lemma TimeoutCanGoUnnoted(connection: ID)
    ensures var cfg, head := SampleConfig(100, 100, 0), Head(1, WaitingInfo());
            var l := Life([2], INTERIM[..1], [], 0, 1, 1, {Timeout}, AT_REQUEST, None, true);
            && ValidConfig(cfg)
            && Lived(cfg, l, InterimTooSlow(head)) && NotesFit(cfg, l, connection, [], InterimTooSlow(head))
            && ReasonOf(InterimTooSlow(head)) == CLOSE_WRITE_TIMEOUT
  {
    hide ValidConfig, Link, ExchangeOk;
    var cfg, head := SampleConfig(100, 100, 0), Head(1, WaitingInfo());
    SampleConfigIsValid(100, 100, 0);
    assert [2][0..1] == [2];
    assert HeadAt(cfg.grammar, [2], 0, 1, WaitingInfo());
    assert Because(cfg, Life([2], INTERIM[..1], [], 0, 1, 1, {Timeout}, AT_REQUEST, None, true), InterimTooSlow(head));
  }

  // ---------- timeouts ----------

  /** A connection that closes for a timeout while it stood open for another
      request closes as idle if and only if not a byte of that request came;
      and its lifetime was not over when it was asked for, last of all. */
  lemma IdleMeansNothingCame(cfg: Config, l: Life, cause: Cause)
    requires Lived(cfg, l, cause) && ReasonOf(cause) in [CLOSE_IDLE_TIMEOUT, CLOSE_HEADER_TIMEOUT]
    ensures StoodOpen(cfg, l) && Timeout in l.faults && EndsWith(l.answers, [No(LifetimeOver)])
    ensures ReasonOf(cause) == CLOSE_IDLE_TIMEOUT <==> l.plainEnd == RequestEnd(l.exchanges)
  {
    hide Chained, InterimsWhole, EndsWith, Looks;
    WaitAnswered(l.answers, false);
  }

  /** ... and says so in its record. */
  lemma IdleIsNoted(cfg: Config, l: Life, connection: ID, notes: seq<Draft>, cause: Cause)
    requires Lived(cfg, l, cause) && NotesFit(cfg, l, connection, notes, cause)
    requires ReasonOf(cause) in [CLOSE_IDLE_TIMEOUT, CLOSE_HEADER_TIMEOUT]
    ensures notes != [] && notes[0] == (if l.plainEnd == RequestEnd(l.exchanges) then LimitDraft(connection, LIMIT_IDLE_TIMEOUT, 0)
                                        else LimitDraft(connection, LIMIT_HEADER_TIMEOUT, l.plainEnd - RequestEnd(l.exchanges)))
  {
    hide Chained, InterimsWhole, EndsWith, Looks, LimitDraft;
    IdleMeansNothingCame(cfg, l, cause);
    OpenNorEnded(cfg, l);
  }

  // ---------- what is captured behind a failure ----------

  /** Where no error of the socket stops it, the capture takes all that the
      peer sends, up to its own limit and the byte budget. */
  lemma CaptureTakesAll(cfg: Config, l: Life, cause: Cause)
    requires Lived(cfg, l, cause) && Captures(cause) && l.healthy && l.late == Some({})
    ensures l.bytesIn == Min(|l.incoming|, Min(l.plainEnd + cfg.limits.postFailureBytes,
                                               cfg.limits.connectionBytes - |l.sent|))
  {
    hide AskedFor;
    hide Chained, InterimsWhole, Because, Looks, Captures;
  }

  // ---------- parser failures at a header block ----------

  /** A parser failure at a header block means that none starts there, unless
      the socket or the journal failed, or a line that was cut by a timeout or
      by the read cap is refused; and in the last case none within the limit does. */
  lemma BadHeadIsHonest(cfg: Config, l: Life, position: nat, buffered: nat)
    requires Because(cfg, l, BadHead(position, buffered)) && l.healthy && Broken !in l.faults
    ensures NoHead(cfg.grammar, l.incoming, RequestEnd(l.exchanges))
            || (CutAt(cfg.grammar, l.incoming, RequestEnd(l.exchanges), position)
                && (Timeout in l.faults || position == RequestEnd(l.exchanges) + buffered + ReadCap(cfg)))
    ensures Timeout !in l.faults ==> NoHeadWithin(cfg.grammar, l.incoming, RequestEnd(l.exchanges), cfg.limits.headerBytes)
  {
    hide AskedFor;
    hide AllGoOn;
  }

  /** It happens: a timeout between the two bytes of a header block, where the library refuses the cut line. */
  lemma TimeoutCanLookMalformed(connection: ID)
    ensures var cfg, cause := SampleConfig(100, 100, 1), BadHead(1, 0);
            var l := Life([3, 1], [], [], 0, 2, 1, {Timeout}, AT_HEAD, Some({}), true);
            && ValidConfig(cfg) && Lived(cfg, l, cause) && HeadAt(cfg.grammar, [3, 1], 0, 2, PlainInfo())
            && NotesFit(cfg, l, connection, [ParserErrorDraft(connection, PARSER_INVALID_HTTP, 1)], cause)
  {
    hide ValidConfig, Link, ExchangeOk;
    var cfg := SampleConfig(100, 100, 1);
    SampleConfigIsValid(100, 100, 1);
    assert [3, 1][0..1] == [3] && [3, 1][0..2] == [3, 1];
    assert Because(cfg, Life([3, 1], [], [], 0, 2, 1, {Timeout}, AT_HEAD, Some({}), true), BadHead(1, 0));
  }

  // ---------- the header limit ----------

  /** A header-limit record is about a header block, and then none within the
      limit starts there, or about the trailer of a body whose header block was taken. */
  lemma HeaderLimitIsHonest(cfg: Config, l: Life, connection: ID, notes: seq<Draft>, cause: Cause, observed: nat)
    requires Lived(cfg, l, cause) && NotesFit(cfg, l, connection, notes, cause)
    requires LimitDraft(connection, LIMIT_HEADER_BYTES, observed) in notes
    ensures (StoodOpen(cfg, l) && NoHeadWithin(cfg.grammar, l.incoming, RequestEnd(l.exchanges), cfg.limits.headerBytes))
            || exists head: Head, end: nat ::
                 && BodyBegun(cfg, l, head) && BodyAt(cfg.grammar, head.info, l.incoming, head.end, end)
                 && TrailerOf(cfg.grammar.body(head.info, l.incoming[head.end..end])) > cfg.limits.headerBytes
  {
    hide AskedFor, Looks, CaptureDone;
    hide Chained, InterimsWhole, HeadTaken, InterimAllowed, NoHeadWithin;
    var d := LimitDraft(connection, LIMIT_HEADER_BYTES, observed);
    CodeStandsFirst(connection, LIMIT_HEADER_BYTES, observed);
    CodeStandsFirst(connection, LIMIT_REQUESTS, l.requests);
    CodeStandsFirst(connection, LIMIT_POST_FAILURE_BYTES, cfg.limits.postFailureBytes);
    assert d in CauseNote(cfg.limits, connection, cause);
    NotedAsHeader(cfg.limits, connection, cause, observed);
  }

  lemma NotedAsHeader(limits: Limits, connection: ID, cause: Cause, observed: nat)
    requires NoteOf(limits, connection, cause) == Some(LimitDraft(connection, LIMIT_HEADER_BYTES, observed))
    ensures cause.HeadTooLong? || cause.TrailerTooLong?
  {
    hide LimitDraft;
    forall code: nat, n: nat | code < 256
      ensures LimitDraft(connection, code, n).payload != [] && LimitDraft(connection, code, n).payload[0] as nat == code
      ensures LimitDraft(connection, code, n).kind == LIMIT_REACHED
    {
      CodeStandsFirst(connection, code, n);
    }
  }

  // ---------- undisturbed connections ----------

  /** Nothing happened to the connection before it ended: no event, no error of
      the socket, no refused record, and the byte budget was not used up. */
  ghost predicate Calm(cfg: Config, l: Life) {
    l.healthy && l.faults == {} && AllQuiet(l.answers) && l.plainEnd + |l.sent| < cfg.limits.connectionBytes
  }

  /** Causes after which no acceptable request is left where the connection ended. */
  predicate NothingLeft(cause: Cause) {
    || cause.PeerLeft? || cause.HeadTooLong? || cause.BadHead? || cause.BadVersion? || cause.BadExpectation?
    || cause.BodyTooLong? || cause.InterimTooLong? || cause.BadBody? || cause.TrailerTooLong?
  }

  /** Causes that follow a request that was taken. */
  predicate AfterRequest(cause: Cause) {
    cause.ConnectRefused? || cause.ResponseTooLong? || cause.RequestsUsedUp? || cause.CloseAsked?
  }

  /** How an undisturbed connection can end. */
  lemma CalmCauses(cfg: Config, l: Life, cause: Cause)
    requires Calm(cfg, l) && Because(cfg, l, cause)
    ensures NothingLeft(cause) || AfterRequest(cause)
    ensures NothingLeft(cause) ==> StoodOpen(cfg, l)
  {
    hide EndsWith;
    QuietHasNoYes(l.answers, Cancelled);
    QuietHasNoYes(l.answers, LifetimeOver);
    QuietHasNoYes(l.answers, SetupFailed);
    QuietHasNoYes(l.answers, StreamOver);
    QuietHasNoYes(l.answers, HandshakeFailed);
    hide HeadTaken, RequestTaken, Promised, Rendered, OpensTunnel, InterimAllowed, InterimUnfinished;
    hide NoHeadWithin, BodyAt, AllGoOn;
  }

  /** When nothing acceptable is left, no acceptable request follows. */
  lemma NoRequestFollows(cfg: Config, l: Life, cause: Cause, headEnd: nat, end: nat, info: RequestInfo)
    requires l.healthy && l.faults == {} && Because(cfg, l, cause) && NothingLeft(cause)
    requires cause.BadBody? ==> !Exhausted(cfg, l)
    ensures !RequestTaken(cfg, l.incoming, RequestEnd(l.exchanges), headEnd, end, info)
  {
    hide AskedFor;
    hide Promised, Rendered, OpensTunnel, AllGoOn, InterimUnfinished;
    var start := RequestEnd(l.exchanges);
    if RequestTaken(cfg, l.incoming, start, headEnd, end, info) {
      forall other: Head | HeadAt(cfg.grammar, l.incoming, start, other.end, other.info)
        ensures other == Head(headEnd, info)
      {
        HeadIsDetermined(cfg.grammar, l.incoming, start, headEnd, info, other.end, other.info);
      }
    }
  }

  /** What a complete exchange says about the size of its response. */
  lemma CompleteFits(cfg: Config, incoming: Bytes, sent: Bytes, es: seq<Exchange>, i: nat)
    requires Chained(cfg, incoming, sent, es) && InterimsWhole(es) && i < |es| && es[i].complete
    ensures |Rendered(ContextOf(cfg, es[i].info), es[i].selection.plan)| <= cfg.limits.responseBytes - es[i].interim
    ensures es[i].interim == if WantsInterim(es[i].info) then |INTERIM| else 0
  {
    hide Answers, Rendered;
    assert Link(cfg, incoming, sent, es, i);
  }

  /** The same request, answered the same way, needs the same room. */
  lemma TooLongIsTooLong(cfg: Config, l: Life, sentB: Bytes, b: seq<Exchange>)
    requires Lived(cfg, l, ResponseTooLong) && ShortWrite !in l.faults
    requires Chained(cfg, l.incoming, sentB, b) && InterimsWhole(b) && l.exchanges != []
    requires |b| >= |l.exchanges| && SameExchange(l.exchanges[|l.exchanges| - 1], b[|l.exchanges| - 1])
    ensures !b[|l.exchanges| - 1].complete
  {
    hide ExchangeOk, Rendered;
    var i := |l.exchanges| - 1;
    assert Link(cfg, l.incoming, l.sent, l.exchanges, i);
    InterimIsWhole(cfg, l.incoming, l.sent, l.exchanges, i);
    if b[i].complete {
      CompleteFits(cfg, l.incoming, sentB, b, i);
    }
  }

  lemma InterimIsWhole(cfg: Config, incoming: Bytes, sent: Bytes, es: seq<Exchange>, i: nat)
    requires Chained(cfg, incoming, sent, es) && InterimsWhole(es) && i < |es|
    ensures es[i].interim == if WantsInterim(es[i].info) then |INTERIM| else 0
  {
    hide Answers, Rendered;
    assert Link(cfg, incoming, sent, es, i);
  }

  /** A refused tunnel is refused again. */
  lemma TunnelIsTunnel(cfg: Config, l: Life, cause: Cause, sentB: Bytes, b: seq<Exchange>)
    requires ValidService(cfg.service, cfg.limits.responseBytes)
    requires Because(cfg, l, cause) && cause.ConnectRefused?
    requires Chained(cfg, l.incoming, sentB, b) && |l.exchanges| <= |b|
    requires RequestEnd(b[..|l.exchanges|]) == RequestEnd(l.exchanges) && History(b[..|l.exchanges|]) == History(l.exchanges)
    ensures |b| == |l.exchanges|
  {
    hide AskedFor;
    hide ValidService, Promised, Rendered, HeadAt, BodyAt, BodyWithin, InterimAllowed, AllGoOn;
    var n := |l.exchanges|;
    if n < |b| {
      assert Link(cfg, l.incoming, sentB, b, n);
      RequestIsDetermined(cfg.grammar, l.incoming, RequestEnd(l.exchanges), cause.head.end, cause.end, cause.head.info,
                          b[n].headEnd, b[n].requestEnd, b[n].info);
      PromiseIsDeterministic(cfg.service, cfg.limits.responseBytes, History(l.exchanges), RequestOf(b[n].info),
                             b[n].selection.plan.close, b[n].selection, cause.selection);
    }
  }

  /** The exchanges of an undisturbed connection are all there could be: any
      other right account of what the peer sent is a front of them. */
  lemma CalmIsMaximal(cfg: Config, l: Life, cause: Cause, sentB: Bytes, b: seq<Exchange>)
    requires ValidService(cfg.service, cfg.limits.responseBytes) && cfg.limits.requests >= 1
    requires Lived(cfg, l, cause) && Calm(cfg, l)
    requires Chained(cfg, l.incoming, sentB, b) && InterimsWhole(b)
    ensures |b| <= |l.exchanges| && forall i | 0 <= i < |b| :: SameExchange(b[i], l.exchanges[i])
  {
    hide ValidService, ExchangeOk, Promised, Rendered, History, Because, InterimsWhole;
    var a := l.exchanges;
    var n := |a|;
    FragmentationIsInvisible(cfg, l.incoming, sentB, b, l.sent, a, if |b| < n then |b| else n);
    if |b| > n {
      FragmentationIsInvisible(cfg, l.incoming, l.sent, a, sentB, b, n);
      SameHistory(a, b[..n]);
      assert Link(cfg, l.incoming, sentB, b, n);
      if n > 0 {
        assert Link(cfg, l.incoming, sentB, b, n - 1) && b[..n][n - 1] == b[n - 1];
      }
      CalmEndStays(cfg, l, cause, sentB, b);
    }
  }

  lemma CalmEndStays(cfg: Config, l: Life, cause: Cause, sentB: Bytes, b: seq<Exchange>)
    requires ValidService(cfg.service, cfg.limits.responseBytes) && cfg.limits.requests >= 1
    requires Lived(cfg, l, cause) && Calm(cfg, l)
    requires Chained(cfg, l.incoming, sentB, b) && InterimsWhole(b) && |l.exchanges| <= |b|
    requires RequestEnd(b[..|l.exchanges|]) == RequestEnd(l.exchanges) && History(b[..|l.exchanges|]) == History(l.exchanges)
    requires forall i | 0 <= i < |l.exchanges| :: SameExchange(l.exchanges[i], b[i])
    ensures |b| == |l.exchanges|
  {
    hide AskedFor, Looks, CaptureDone;
    hide ValidService, Promised, Rendered, History, InterimsWhole, BodyAt, BodyWithin, HeadTaken;
    hide InterimAllowed, Because, RequestTaken;
    var n := |l.exchanges|;
    CalmCauses(cfg, l, cause);
    if NothingLeft(cause) {
      if n < |b| {
        assert Link(cfg, l.incoming, sentB, b, n);
        NoRequestFollows(cfg, l, cause, b[n].headEnd, b[n].requestEnd, b[n].info);
      }
    } else if cause.ConnectRefused? {
      TunnelIsTunnel(cfg, l, cause, sentB, b);
    } else {
      LastEnds(cfg, l, cause, sentB, b);
    }
  }

  /** A last exchange that ended one connection ends the other. */
  lemma LastEnds(cfg: Config, l: Life, cause: Cause, sentB: Bytes, b: seq<Exchange>)
    requires cfg.limits.requests >= 1 && Lived(cfg, l, cause) && ShortWrite !in l.faults
    requires cause.ResponseTooLong? || cause.RequestsUsedUp? || cause.CloseAsked?
    requires Chained(cfg, l.incoming, sentB, b) && InterimsWhole(b) && |b| >= |l.exchanges|
    requires forall i | 0 <= i < |l.exchanges| :: SameExchange(l.exchanges[i], b[i])
    ensures |b| == |l.exchanges|
  {
    hide AskedFor, Looks, CaptureDone;
    hide ExchangeOk, Rendered, InterimsWhole;
    OnlyTheLastCloses(cfg, l.incoming, sentB, b);
    var i := |l.exchanges| - 1;
    assert Link(cfg, l.incoming, l.sent, l.exchanges, i) && Link(cfg, l.incoming, sentB, b, i);
    if cause.ResponseTooLong? {
      TooLongIsTooLong(cfg, l, sentB, b);
    }
  }

  // ---------- fragmentation ----------

  /** The same exchange, with the same outcome and the same bytes sent for it. */
  ghost predicate SameOutcome(a: Exchange, sentA: Bytes, b: Exchange, sentB: Bytes) {
    && SameExchange(a, b) && a.complete == b.complete && a.interim == b.interim && a.digest == b.digest
    && a.responseStart <= a.responseEnd <= |sentA| && b.responseStart <= b.responseEnd <= |sentB|
    && sentA[a.responseStart..a.responseEnd] == sentB[b.responseStart..b.responseEnd]
  }

  /** Only an answer that is too long stays incomplete in an undisturbed connection. */
  lemma CalmIncomplete(cfg: Config, l: Life, cause: Cause, i: nat)
    requires Lived(cfg, l, cause) && Calm(cfg, l) && i < |l.exchanges|
    ensures !l.exchanges[i].complete ==> cause.ResponseTooLong? && i == |l.exchanges| - 1
  {
    hide ExchangeOk, Rendered, HeadTaken, RequestTaken, Promised, OpensTunnel, InterimAllowed;
    hide InterimUnfinished, NoHeadWithin, BodyAt;
    CalmCauses(cfg, l, cause);
    assert Link(cfg, l.incoming, l.sent, l.exchanges, i);
  }

  lemma CalmSends(cfg: Config, l: Life, cause: Cause, i: nat)
    requires Lived(cfg, l, cause) && Calm(cfg, l) && i < |l.exchanges|
    ensures var e := l.exchanges[i];
            && e.responseStart <= e.responseEnd <= |l.sent| && e.interim <= |INTERIM|
            && e.interim == (if WantsInterim(e.info) then |INTERIM| else 0)
            && e.digest == cfg.sha(l.sent[e.responseStart..e.responseEnd])
            && l.sent[e.responseStart..e.responseEnd]
               == INTERIM[..e.interim] + if e.complete then Rendered(ContextOf(cfg, e.info), e.selection.plan) else []
  {
    hide Answers, Rendered, Because;
    var e := l.exchanges[i];
    assert Link(cfg, l.incoming, l.sent, l.exchanges, i);
    InterimIsWhole(cfg, l.incoming, l.sent, l.exchanges, i);
    CalmIncomplete(cfg, l, cause, i);
    var rendered := Rendered(ContextOf(cfg, e.info), e.selection.plan);
    assert rendered[..|rendered|] == rendered && rendered[..0] == [];
    if !e.complete {
      NothingOfIt(cfg, l, cause);
    }
  }

  lemma NothingOfIt(cfg: Config, l: Life, cause: Cause)
    requires Because(cfg, l, cause) && cause.ResponseTooLong?
    ensures l.exchanges != [] && var e := l.exchanges[|l.exchanges| - 1]; e.responseEnd == e.responseStart + e.interim
  {
    hide AskedFor;
    hide Rendered;
  }

  /** Two undisturbed connections with the same peer, however the socket
      splits its reads and writes, have the same exchanges, as many of them,
      with the same bytes sent for each. */
  lemma CalmLivesAgree(cfg: Config, l: Life, c: Cause, m: Life, d: Cause)
    requires ValidService(cfg.service, cfg.limits.responseBytes) && cfg.limits.requests >= 1
    requires Lived(cfg, l, c) && Calm(cfg, l) && Lived(cfg, m, d) && Calm(cfg, m) && l.incoming == m.incoming
    ensures |l.exchanges| == |m.exchanges|
    ensures forall i | 0 <= i < |l.exchanges| :: SameOutcome(l.exchanges[i], l.sent, m.exchanges[i], m.sent)
  {
    hide ValidService, Chained, Rendered, Because, InterimsWhole;
    CalmIsMaximal(cfg, l, c, m.sent, m.exchanges);
    CalmIsMaximal(cfg, m, d, l.sent, l.exchanges);
    forall i | 0 <= i < |l.exchanges|
      ensures SameOutcome(l.exchanges[i], l.sent, m.exchanges[i], m.sent)
    {
      assert SameExchange(m.exchanges[i], l.exchanges[i]);
      CalmSends(cfg, l, c, i);
      CalmSends(cfg, m, d, i);
      SameCompletion(cfg, l, c, m, d, i);
    }
  }

  lemma SameCompletion(cfg: Config, l: Life, c: Cause, m: Life, d: Cause, i: nat)
    requires Lived(cfg, l, c) && Calm(cfg, l) && Lived(cfg, m, d) && Calm(cfg, m) && l.incoming == m.incoming
    requires |l.exchanges| == |m.exchanges| && i < |l.exchanges| && SameExchange(l.exchanges[i], m.exchanges[i])
    ensures l.exchanges[i].complete == m.exchanges[i].complete
  {
    hide Chained, Rendered, Because, InterimsWhole;
    CalmIncomplete(cfg, l, c, i);
    CalmIncomplete(cfg, m, d, i);
    if !l.exchanges[i].complete {
      TooLongIsTooLong(cfg, l, m.sent, m.exchanges);
    } else if !m.exchanges[i].complete {
      TooLongIsTooLong(cfg, m, l.sent, l.exchanges);
    }
  }

  // ---------- why it ended ----------

  /** A healthy connection closes as left by the peer only when its exchanges
      cover all the peer sent, and all that was sent to it. */
  lemma RemoteMeansAll(cfg: Config, l: Life, cause: Cause)
    requires Lived(cfg, l, cause) && ReasonOf(cause) == CLOSE_REMOTE && l.healthy
    ensures RequestBytes(l.incoming, l.exchanges) == l.incoming && ResponseBytes(l.sent, l.exchanges) == l.sent
    ensures l.bytesIn == l.plainEnd == |l.incoming|
  {
    hide AskedFor;
    hide Chained, AllGoOn;
    ExchangesTile(cfg, l.incoming, l.sent, l.exchanges);
    assert l.incoming[..|l.incoming|] == l.incoming && l.sent[..|l.sent|] == l.sent;
  }

  /** Where an undisturbed connection ended otherwise than left by its peer, more had come than was answered. */
  lemma SomethingCame(cfg: Config, l: Life, cause: Cause)
    requires ShownBy(cfg, l, cause) && Calm(cfg, l) && NothingLeft(cause) && !cause.PeerLeft? && l.plainEnd <= |l.incoming|
    ensures RequestEnd(l.exchanges) < |l.incoming|
  {
    hide AllGoOn, NoHeadWithin, NoBodyWithin, BodyUnfinished, FrontsWithin, InterimAllowed, BodyAt, BodyWithin;
  }

  /** An exchange that asks for the close ends the connection. */
  lemma OpenAsksForNoClose(cfg: Config, l: Life)
    requires Chained(cfg, l.incoming, l.sent, l.exchanges) && AllGoOn(l.exchanges) && l.exchanges != []
    ensures !l.exchanges[|l.exchanges| - 1].info.close
  {
    hide ExchangeOk;
    assert Link(cfg, l.incoming, l.sent, l.exchanges, |l.exchanges| - 1);
  }

  /** What the causes behind a request say about the last exchange. */
  lemma BehindARequest(cfg: Config, l: Life, cause: Cause)
    requires ShownBy(cfg, l, cause) && AfterRequest(cause)
    ensures cause.ConnectRefused? ==> |l.exchanges| < l.requests
    ensures cause.ResponseTooLong? ==> LastFailed(l)
    ensures cause.RequestsUsedUp? ==> LastSucceeded(l) && |l.exchanges| == cfg.limits.requests
    ensures cause.CloseAsked? ==> LastSucceeded(l) && l.exchanges[|l.exchanges| - 1].info.close
                                  && |l.exchanges| < cfg.limits.requests
  {
    hide Rendered, RequestTaken, Promised, OpensTunnel, AllGoOn;
  }

  lemma LeftBehind(cfg: Config, l: Life)
    requires ShownBy(cfg, l, PeerLeft) && l.healthy
    ensures RequestEnd(l.exchanges) == |l.incoming| && StoodOpen(cfg, l)
  {
    hide AllGoOn;
  }

  /** An undisturbed connection closes as left by the peer exactly when the
      exchanges cover the peer's stream and none of them was the last one;
      normally exactly when the last one was asked to be, before the limit. */
  lemma CalmReasons(cfg: Config, l: Life, cause: Cause)
    requires Lived(cfg, l, cause) && Calm(cfg, l)
    ensures ReasonOf(cause) in [CLOSE_REMOTE, CLOSE_NORMAL, CLOSE_LIMIT_REACHED, CLOSE_PARSER_FAILURE]
    ensures ReasonOf(cause) == CLOSE_REMOTE <==> RequestEnd(l.exchanges) == |l.incoming| && StoodOpen(cfg, l)
    ensures ReasonOf(cause) == CLOSE_NORMAL <==>
              LastSucceeded(l) && l.exchanges[|l.exchanges| - 1].info.close && |l.exchanges| < cfg.limits.requests
  {
    hide AskedFor, ShownBy, Looks, CaptureDone, Chained, InterimsWhole, AllGoOn, AllQuiet;
    CalmCauses(cfg, l, cause);
    if AfterRequest(cause) {
      BehindARequest(cfg, l, cause);
    } else if cause.PeerLeft? {
      LeftBehind(cfg, l);
    } else {
      SomethingCame(cfg, l, cause);
    }
    if AllGoOn(l.exchanges) && l.exchanges != [] {
      OpenAsksForNoClose(cfg, l);
      OpenIsComplete(l);
    }
  }

  lemma OpenIsComplete(l: Life)
    requires AllGoOn(l.exchanges)
    ensures !LastFailed(l)
  {
  }
}
