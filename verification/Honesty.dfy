/** What a reader of a connection's records and of its close reason may
    conclude about the connection (handleConnection, internal/engine/connection.go). */
module Honesty {
  import opened Wrappers
  import opened Bytes
  import opened Ids
  import opened Format
  import opened Drafts
  import opened Headers
  import opened Rendering
  import opened Routes
  import opened ConnectionIO
  import opened Parsing
  import opened Lives
  import opened Exchanges

  // ---------- what the records say ----------

  /** The header limit: no header block within it starts behind the last
      exchange, or so many bytes of a trailer follow a body. */
  ghost predicate HeaderTooLong(cfg: Config, l: Life, n: nat) {
    && n > cfg.limits.headerBytes
    && ((StoodOpen(cfg, l) && NoHeadWithin(cfg.grammar, l.incoming, RequestEnd(l.exchanges), cfg.limits.headerBytes))
        || exists head: Head, end: nat ::
             && BodyBegun(cfg, l, head) && BodyAt(cfg.grammar, head.info, l.incoming, head.end, end)
             && TrailerOf(cfg.grammar.body(head.info, l.incoming[head.end..end])) == n)
  }

  /** The body limit: an accepted header block announced so much, or no body
      within the limit follows it. */
  ghost predicate BodyIsTooLong(cfg: Config, l: Life, n: nat) {
    && n > cfg.limits.bodyBytes
    && exists head: Head ::
         && HeadAccepted(cfg, l, head)
         && (head.info.declared == n || NoBodyWithin(cfg.grammar, head.info, l.incoming, head.end, cfg.limits.bodyBytes))
  }

  /** The response limit: the interim line is longer, or the rendering of the
      last response does not fit behind it. */
  ghost predicate ResponseIsTooLong(cfg: Config, l: Life, n: nat) {
    || (n == 25 > cfg.limits.responseBytes && exists head: Head :: HeadAccepted(cfg, l, head) && WantsInterim(head.info))
    || (n == cfg.limits.responseBytes && LastFailed(l)
        && var e := l.exchanges[|l.exchanges| - 1];
           |Rendered(ContextOf(cfg, e.info), e.selection.plan)| > cfg.limits.responseBytes - e.interim)
  }

  /** So many decoded bytes of a body had come when the time for it was over. */
  ghost predicate BodyCameTo(cfg: Config, l: Life, n: nat) {
    exists head: Head ::
      BodyBegun(cfg, l, head) && head.end <= l.plainEnd <= |l.incoming|
      && cfg.grammar.body(head.info, l.incoming[head.end..l.plainEnd]) == BodyMore(n)
  }

  /** What a limit record says, by its code. */
  ghost predicate LimitIsTrue(cfg: Config, l: Life, code: nat, n: nat) {
    if code == 1 then HeaderTooLong(cfg, l, n)
    else if code == 2 then BodyIsTooLong(cfg, l, n)
    else if code == 3 then n == l.requests == cfg.limits.requests
    else if code == 4 then EndsWith(l.answers, [Yes(LifetimeOver)])
    else if code == 5 then n == cfg.limits.connectionBytes == l.plainEnd + |l.sent|
    else if code == 6 then ResponseIsTooLong(cfg, l, n)
    else if code == 7 then n == cfg.limits.streamSeconds && LastFailed(l) && EndsWith(l.answers, [Yes(StreamOver), No(LifetimeOver)])
    else if code == 8 then n == cfg.limits.postFailureBytes && l.bytesIn == l.plainEnd + n && l.late.Some?
    else if code == 9 then StoodOpen(cfg, l) && Timeout in l.faults && n == l.plainEnd - RequestEnd(l.exchanges) > 0
    else if code == 10 then Timeout in l.faults && BodyCameTo(cfg, l, n)
    else if code == 11 then StoodOpen(cfg, l) && Timeout in l.faults && n == 0 && l.plainEnd == RequestEnd(l.exchanges)
    else code == 12 && n == cfg.limits.writeSeconds && LastFailed(l) && Timeout in l.faults
  }

  /** A header block or a body is refused at this place, or ends there for good. */
  ghost predicate NotHttp(cfg: Config, l: Life, position: nat) {
    || (StoodOpen(cfg, l) && exists buffered: nat ::
          Buffered(l, buffered) && HeadBadAt(cfg, l, position, buffered + ReadCap(cfg)))
    || exists head: Head, end: nat, peeked: nat :: BodyBadAt(cfg, l, head, end, peeked) && position == Max(end - peeked, 0)
  }

  /** What a parser-error record says, by its code. */
  ghost predicate ErrorIsTrue(cfg: Config, l: Life, code: nat, position: nat) {
    if code == 1 then NotHttp(cfg, l, position)
    else if code == 2 then
      exists head: Head :: HeadFollowed(cfg, l, head) && !VersionSupported(cfg, head.info) && position == head.end
    else if code == 3 then
      exists head: Head :: HeadFollowed(cfg, l, head) && head.info.expectation == UnsupportedExpectation && position == head.end
    else
      && code == 4
      && exists head: Head, selection ::
           && RequestTaken(cfg, l.incoming, RequestEnd(l.exchanges), head.end, position, head.info)
           && OpensTunnel(head.info, selection)
  }

  ghost predicate IsTrue(cfg: Config, l: Life, m: Meaning) {
    match m
    case LimitHit(code, n) => LimitIsTrue(cfg, l, code, n)
    case Refusal(code, position) => ErrorIsTrue(cfg, l, code, position)
    case _ => false
  }

  /** The numbers fit the 64 bits that the records have for them. */
  ghost predicate Countable(cfg: Config, l: Life, cause: Cause) {
    && |l.incoming| < TWO_64 && cfg.limits.connectionBytes < TWO_64 && cfg.limits.responseBytes < TWO_64
    && cfg.limits.postFailureBytes < TWO_64 && cfg.limits.streamSeconds < TWO_64 && cfg.limits.writeSeconds < TWO_64
    && cfg.limits.requests < TWO_64
    && (cause.LifetimeEnded? ==> cause.seconds < TWO_64)
    && (cause.BodyTooLong? || cause.BodyTooSlow? || cause.TrailerTooLong? ==> cause.size < TWO_64)
  }

  lemma InterimSizeIs25()
    ensures |INTERIM| == 25
  {
  }

  /** The record of the cause is true. */
  lemma CauseIsTold(cfg: Config, l: Life, connection: ID, cause: Cause)
    requires Lived(cfg, l, cause) && Countable(cfg, l, cause)
    requires NoteOf(cfg.limits, connection, cause).Some?
    ensures IsTrue(cfg, l, MeaningOf(NoteOf(cfg.limits, connection, cause).value))
  {
    hide MeaningOf, LimitDraft, ParserErrorDraft, Chained, InterimsWhole, Looks, EndsWith, IsTrue;
    if LimitNumbers(cfg, cause).Some? {
      var (code, n) := LimitNumbers(cfg, cause).value;
      CauseInBounds(cfg, l, cause);
      LimitTellsWhat(connection, code, n);
      LimitOfCause(cfg, l, cause);
      TrueLimit(cfg, l, code, n);
    } else {
      var (code, position) := ErrorNumbers(cause).value;
      CauseInBounds(cfg, l, cause);
      ParserErrorTellsWhere(connection, code, position);
      ErrorOfCause(cfg, l, cause);
      TrueError(cfg, l, code, position);
    }
  }

  lemma TrueLimit(cfg: Config, l: Life, code: nat, n: nat)
    ensures IsTrue(cfg, l, LimitHit(code, n)) == LimitIsTrue(cfg, l, code, n)
  {
  }

  lemma TrueError(cfg: Config, l: Life, code: nat, position: nat)
    ensures IsTrue(cfg, l, Refusal(code, position)) == ErrorIsTrue(cfg, l, code, position)
  {
  }

  /** The numbers of the limit record that goes with a cause. */
  function LimitNumbers(cfg: Config, cause: Cause): Option<(nat, nat)> {
    match cause
    case LifetimeEnded(seconds, _) => Some((LIMIT_LIFETIME, seconds))
    case IdleTooLong => Some((LIMIT_IDLE_TIMEOUT, 0))
    case HeadTooSlow(size) => Some((LIMIT_HEADER_TIMEOUT, size))
    case HeadTooLong(size, _) => Some((LIMIT_HEADER_BYTES, size))
    case BytesUsedUp(_) => Some((LIMIT_CONNECTION_BYTES, cfg.limits.connectionBytes))
    case BodyTooLong(_, size) => Some((LIMIT_BODY_BYTES, size))
    case InterimTooLong(_) => Some((LIMIT_RESPONSE_BYTES, |INTERIM|))
    case BodyTooSlow(_, size) => Some((LIMIT_BODY_TIMEOUT, size))
    case TrailerTooLong(_, _, size) => Some((LIMIT_HEADER_BYTES, size))
    case ResponseTooLong => Some((LIMIT_RESPONSE_BYTES, cfg.limits.responseBytes))
    case StreamTooLong => Some((LIMIT_STREAM_LIFETIME, cfg.limits.streamSeconds))
    case AnswerTooSlow => Some((LIMIT_WRITE_TIMEOUT, cfg.limits.writeSeconds))
    case _ => None
  }

  /** ... and of the parser-error record. */
  function ErrorNumbers(cause: Cause): Option<(nat, nat)> {
    match cause
    case BadHead(position, _) => Some((PARSER_INVALID_HTTP, position))
    case BadVersion(head) => Some((PARSER_UNSUPPORTED_VERSION, head.end))
    case BadExpectation(head) => Some((PARSER_UNSUPPORTED_EXPECTATION, head.end))
    case BadBody(_, end, peeked) => Some((PARSER_INVALID_HTTP, Max(end - peeked, 0)))
    case ConnectRefused(_, end, _) => Some((PARSER_PROHIBITED_CONNECT, end))
    case _ => None
  }

  lemma CauseInBounds(cfg: Config, l: Life, cause: Cause)
    requires Lived(cfg, l, cause) && Countable(cfg, l, cause)
    ensures LimitNumbers(cfg, cause).Some? ==> LimitNumbers(cfg, cause).value.0 < 65536 && LimitNumbers(cfg, cause).value.1 < TWO_64
    ensures ErrorNumbers(cause).Some? ==> ErrorNumbers(cause).value.0 < 65536 && ErrorNumbers(cause).value.1 < TWO_64
  {
    hide Chained, InterimsWhole, Looks, EndsWith, HeadTaken, RequestTaken, AllGoOn, Rendered, Promised, OpensTunnel;
    hide CaptureDone, BodyUnfinished, FrontsWithin, NoHeadWithin, NoBodyWithin, FailedOnTheWay, HeadAt, InterimAllowed;
    InterimSizeIs25();
  }

  lemma LimitOfCause(cfg: Config, l: Life, cause: Cause)
    requires Lived(cfg, l, cause) && LimitNumbers(cfg, cause).Some?
    ensures var (code, n) := LimitNumbers(cfg, cause).value; LimitIsTrue(cfg, l, code, n)
  {
    hide Chained, InterimsWhole, Looks, HeadTaken, RequestTaken, AllGoOn, Rendered, Promised, OpensTunnel, EndsWith;
    hide CaptureDone, BodyUnfinished, FrontsWithin, NoHeadWithin, NoBodyWithin, HeadAt, InterimAllowed;
    InterimSizeIs25();
    if cause.TrailerTooLong? {
      assert BodyBegun(cfg, l, cause.head);
    }
    if cause.BodyTooSlow? {
      assert BodyBegun(cfg, l, cause.head);
    }
  }

  lemma ErrorOfCause(cfg: Config, l: Life, cause: Cause)
    requires Lived(cfg, l, cause) && ErrorNumbers(cause).Some?
    ensures var (code, position) := ErrorNumbers(cause).value; ErrorIsTrue(cfg, l, code, position)
  {
    hide Chained, InterimsWhole, Looks, HeadTaken, RequestTaken, AllGoOn, Rendered, Promised, OpensTunnel, EndsWith;
    hide CaptureDone, HeadBadAt, BodyBadAt, HeadAt;
  }

  /** Everything that the limit and parser-error records of a connection say,
      decoded from their payloads, is true of it. */
  lemma RecordsAreTrue(cfg: Config, l: Life, connection: ID, notes: seq<Draft>, cause: Cause)
    requires Lived(cfg, l, cause) && NotesFit(cfg, l, connection, notes, cause) && Countable(cfg, l, cause)
    ensures forall d | d in notes :: IsTrue(cfg, l, MeaningOf(d))
  {
    hide MeaningOf, LimitDraft, ParserErrorDraft, Chained, InterimsWhole, Looks, EndsWith, IsTrue, NoteOf, Because;
    hide LimitIsTrue, CaptureStopped;
    if l.requests >= cfg.limits.requests {
      LimitTellsWhat(connection, LIMIT_REQUESTS, l.requests);
      TrueLimit(cfg, l, LIMIT_REQUESTS, l.requests);
      RequestsAreTrue(cfg, l);
    }
    if NoteOf(cfg.limits, connection, cause).Some? {
      CauseIsTold(cfg, l, connection, cause);
    }
    LimitTellsWhat(connection, LIMIT_POST_FAILURE_BYTES, cfg.limits.postFailureBytes);
    TrueLimit(cfg, l, LIMIT_POST_FAILURE_BYTES, cfg.limits.postFailureBytes);
    if Captures(cause) && l.bytesIn == l.plainEnd + cfg.limits.postFailureBytes {
      CaptureIsTrue(cfg, l);
    }
  }

  lemma RequestsAreTrue(cfg: Config, l: Life)
    requires l.requests == cfg.limits.requests
    ensures LimitIsTrue(cfg, l, LIMIT_REQUESTS, l.requests)
  {
  }

  lemma CaptureIsTrue(cfg: Config, l: Life)
    requires l.bytesIn == l.plainEnd + cfg.limits.postFailureBytes && l.late.Some?
    ensures LimitIsTrue(cfg, l, LIMIT_POST_FAILURE_BYTES, cfg.limits.postFailureBytes)
  {
  }

  // ---------- what the close reason says ----------

  /** What the reason in a CLOSE record says, by its code. */
  ghost predicate ReasonIsTrue(cfg: Config, l: Life, reason: nat) {
    if reason == 1 then
      && StoodOpen(cfg, l) && |l.sent| == ResponseEnd(l.exchanges) && l.bytesIn == RequestEnd(l.exchanges)
      && (l.healthy ==> l.bytesIn == |l.incoming|)
    else if reason == 2 then
      LastSucceeded(l) && l.exchanges[|l.exchanges| - 1].info.close && |l.exchanges| < cfg.limits.requests
    else if reason == 3 then LimitIsTrue(cfg, l, 11, 0)
    else if reason == 4 then LimitIsTrue(cfg, l, 9, Max(l.plainEnd - RequestEnd(l.exchanges), 0))
    else if reason == 5 then exists n: nat :: LimitIsTrue(cfg, l, 10, n)
    else if reason == 6 then
      Timeout in l.faults && (LastFailed(l) || exists head: Head :: HeadAccepted(cfg, l, head) && WantsInterim(head.info))
    else if reason == 7 then Yes(HandshakeFailed) in l.answers && l.exchanges == [] && l.bytesIn == 0 && l.sent == []
    else if reason == 8 then exists code: nat, position: nat :: ErrorIsTrue(cfg, l, code, position)
    else if reason == 9 then
      || (exists code: nat, n: nat :: code <= 7 && LimitIsTrue(cfg, l, code, n))
      || (exists head: Head :: HeadAccepted(cfg, l, head) && WantsInterim(head.info) && Exhausted(cfg, l) && InterimUnfinished(l))
    else if reason == 10 then EndsWith(l.answers, [Yes(Cancelled)])
    else if reason == 11 then !l.healthy && l.exchanges == [] && l.sent == [] && l.bytesIn == 0 && l.answers == []
    else
      && reason == 12
      && (EndsWith(l.answers, [Yes(SetupFailed)]) || Broken in l.faults || ShortWrite in l.faults || !l.healthy)
  }

  /** And so is the reason it was closed for. */
  lemma ReasonsAreTrue(cfg: Config, l: Life, cause: Cause)
    requires Lived(cfg, l, cause)
    ensures ReasonIsTrue(cfg, l, ReasonOf(cause))
  {
    hide Chained, InterimsWhole, Looks, HeadTaken, RequestTaken, AllGoOn, Rendered, Promised, OpensTunnel, EndsWith;
    hide CaptureDone, HeadBadAt, BodyBadAt, HeadAt, LimitIsTrue, ErrorIsTrue, NoHeadWithin, NoBodyWithin;
    hide BodyBegun, BodyAwaited, BodyExceeds, LongHeadAt, Buffered, AnswerCutOff, Undecided, CutAt, BodyAt, BodyWithin;
    if LimitNumbers(cfg, cause).Some? {
      LimitOfCause(cfg, l, cause);
    }
    if ErrorNumbers(cause).Some? {
      ErrorOfCause(cfg, l, cause);
    }
    if cause.RequestsUsedUp? {
      RequestsAreTrue(cfg, l);
    }
    if cause.HandshakeBroken? {
      assert l.answers[1] == Yes(HandshakeFailed);
    }
  }
}
