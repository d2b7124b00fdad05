/** What the life of one connection promises: its exchanges, why it ended, and
    what the journal was told about that (internal/engine/connection.go). */
module Lives {
  import opened Wrappers
  import opened Bytes
  import opened Ids
  import opened Format
  import opened Drafts
  import opened Headers
  import opened Rendering
  import opened Routes
  import opened Traces
  import opened ConnectionIO
  import opened Parsing

  datatype Limits = Limits(connectionBytes: nat, headerBytes: nat, bodyBytes: nat, requests: nat, responseBytes: nat,
                           postFailureBytes: nat, streamSeconds: nat, writeSeconds: nat)

  datatype Config = Config(limits: Limits, service: Service, https: bool, grammar: Grammar, statusText: nat -> Bytes,
                           sha: Bytes -> Bytes)

  ghost predicate ValidConfig(cfg: Config) {
    && ValidService(cfg.service, cfg.limits.responseBytes)
    && cfg.limits.connectionBytes >= 1 && cfg.limits.headerBytes >= 1 && cfg.limits.bodyBytes >= 1
    && cfg.limits.requests >= 1 && cfg.limits.responseBytes >= 1 && cfg.limits.postFailureBytes >= 1
  }

  const CLOSE_REMOTE: nat := 1
  const CLOSE_NORMAL: nat := 2
  const CLOSE_IDLE_TIMEOUT: nat := 3
  const CLOSE_HEADER_TIMEOUT: nat := 4
  const CLOSE_BODY_TIMEOUT: nat := 5
  const CLOSE_WRITE_TIMEOUT: nat := 6
  const CLOSE_TLS_ERROR: nat := 7
  const CLOSE_PARSER_FAILURE: nat := 8
  const CLOSE_LIMIT_REACHED: nat := 9
  const CLOSE_SHUTDOWN: nat := 10
  const CLOSE_EVIDENCE_FAILURE: nat := 11
  const CLOSE_INTERNAL_ERROR: nat := 12

  const LIMIT_HEADER_BYTES: nat := 1
  const LIMIT_BODY_BYTES: nat := 2
  const LIMIT_REQUESTS: nat := 3
  const LIMIT_LIFETIME: nat := 4
  const LIMIT_CONNECTION_BYTES: nat := 5
  const LIMIT_RESPONSE_BYTES: nat := 6
  const LIMIT_STREAM_LIFETIME: nat := 7
  const LIMIT_POST_FAILURE_BYTES: nat := 8
  const LIMIT_HEADER_TIMEOUT: nat := 9
  const LIMIT_BODY_TIMEOUT: nat := 10
  const LIMIT_IDLE_TIMEOUT: nat := 11
  const LIMIT_WRITE_TIMEOUT: nat := 12

  const PARSER_INVALID_HTTP: nat := 1
  const PARSER_UNSUPPORTED_VERSION: nat := 2
  const PARSER_UNSUPPORTED_EXPECTATION: nat := 3
  const PARSER_PROHIBITED_CONNECT: nat := 4

  const INTERIM: Bytes := Text("HTTP/1.1 100 Continue\r\n\r\n")

  // ---------- requests that are taken ----------

  predicate VersionSupported(cfg: Config, info: RequestInfo) {
    info.major == 1 && (info.minor == 1 || (info.minor == 0 && !cfg.https))
  }

  predicate WantsInterim(info: RequestInfo) {
    info.expectation == Continue && info.mayHaveBody
  }

  predicate InterimAllowed(cfg: Config, info: RequestInfo) {
    info.declared <= cfg.limits.bodyBytes && (WantsInterim(info) ==> |INTERIM| <= cfg.limits.responseBytes)
  }

  /** A header block that passes every check on it. */
  ghost predicate HeadTaken(cfg: Config, incoming: Bytes, start: nat, headEnd: nat, info: RequestInfo) {
    && HeadAt(cfg.grammar, incoming, start, headEnd, info)
    && headEnd - start <= cfg.limits.headerBytes
    && VersionSupported(cfg, info)
    && info.expectation != UnsupportedExpectation
  }

  function TrailerOf(v: BodyVerdict): nat {
    if v.BodyDone? then v.trailerBytes else 0
  }

  /** A whole request that passes every check up to the choice of the response. */
  ghost predicate RequestTaken(cfg: Config, incoming: Bytes, start: nat, headEnd: nat, end: nat, info: RequestInfo) {
    && HeadTaken(cfg, incoming, start, headEnd, info)
    && InterimAllowed(cfg, info)
    && BodyAt(cfg.grammar, info, incoming, headEnd, end)
    && BodyWithin(cfg.grammar, info, incoming, headEnd, end, cfg.limits.bodyBytes)
    && TrailerOf(cfg.grammar.body(info, incoming[headEnd..end])) <= cfg.limits.headerBytes
  }

  /** A successful CONNECT would open a tunnel. */
  predicate OpensTunnel(info: RequestInfo, selection: Selection) {
    EqualFold(info.verb, Text("CONNECT")) && 200 <= selection.plan.status < 300
  }

  // ---------- what an exchange event promises ----------

  /** An exchange event, with the decisions behind it. `interim` is how much of
      the 100 Continue line was sent first. */
  datatype Exchange = Exchange(info: RequestInfo, requestStart: nat, headEnd: nat, requestEnd: nat,
                               responseStart: nat, responseEnd: nat, digest: Bytes, complete: bool,
                               interim: nat, selection: Selection)

  function ContextOf(cfg: Config, info: RequestInfo): Context {
    Context(info.major, info.minor, info.verb, cfg.statusText)
  }

  function RequestOf(info: RequestInfo): Request {
    Request(info.verb, info.path)
  }

  /** The request was taken from exactly these bytes and answered as the configuration promises. */
  ghost predicate Answers(cfg: Config, incoming: Bytes, history: seq<Request>, e: Exchange) {
    && RequestTaken(cfg, incoming, e.requestStart, e.headEnd, e.requestEnd, e.info)
    && Promised(cfg.service, history, RequestOf(e.info), e.selection.plan.close, e.selection)
    && !OpensTunnel(e.info, e.selection)
  }

  /** Exactly these bytes were sent for it: the interim line, then the
      rendering of the response, as far as they went. */
  ghost predicate Sends(cfg: Config, sent: Bytes, e: Exchange) {
    && e.responseStart + e.interim <= e.responseEnd <= |sent|
    && e.responseEnd - e.responseStart <= cfg.limits.responseBytes
    && e.digest == cfg.sha(sent[e.responseStart..e.responseEnd])
    && e.interim <= |INTERIM| && (e.interim > 0 ==> WantsInterim(e.info))
    && var rendered := Rendered(ContextOf(cfg, e.info), e.selection.plan);
       var printed := e.responseEnd - e.responseStart - e.interim;
       && printed <= |rendered|
       && sent[e.responseStart..e.responseEnd] == INTERIM[..e.interim] + rendered[..printed]
       && (e.complete ==> printed == |rendered|)
  }

  ghost predicate ExchangeOk(cfg: Config, incoming: Bytes, sent: Bytes, history: seq<Request>, e: Exchange) {
    Answers(cfg, incoming, history, e) && Sends(cfg, sent, e)
  }

  function RequestEnd(es: seq<Exchange>): nat {
    if es == [] then 0 else es[|es| - 1].requestEnd
  }

  function ResponseEnd(es: seq<Exchange>): nat {
    if es == [] then 0 else es[|es| - 1].responseEnd
  }

  function History(es: seq<Exchange>): (h: seq<Request>)
    ensures |h| == |es|
  {
    seq(|es|, i requires 0 <= i < |es| => RequestOf(es[i].info))
  }

  /** Exchange `i` is right, starts where the one before ended in both
      streams, announces the close exactly when the request asks for it or is
      the last one allowed, and is the last one if it announces the close or
      was not sent in full. */
  ghost predicate Link(cfg: Config, incoming: Bytes, sent: Bytes, es: seq<Exchange>, i: nat)
    requires i < |es|
  {
    && ExchangeOk(cfg, incoming, sent, History(es[..i]), es[i])
    && es[i].requestStart == RequestEnd(es[..i])
    && es[i].responseStart == ResponseEnd(es[..i])
    && (es[i].selection.plan.close <==> es[i].info.close || i + 1 >= cfg.limits.requests)
    && (i + 1 < |es| ==> es[i].complete && !es[i].selection.plan.close)
  }

  ghost predicate Chained(cfg: Config, incoming: Bytes, sent: Bytes, es: seq<Exchange>) {
    forall i | 0 <= i < |es| :: Link(cfg, incoming, sent, es, i)
  }

  /** No exchange ended the connection. */
  ghost predicate AllGoOn(es: seq<Exchange>) {
    forall i | 0 <= i < |es| :: es[i].complete && !es[i].selection.plan.close
  }

  /** Every interim line that was wanted went out whole. */
  ghost predicate InterimsWhole(es: seq<Exchange>) {
    forall i | 0 <= i < |es| && WantsInterim(es[i].info) :: es[i].interim == |INTERIM|
  }

  lemma ExchangeStays(cfg: Config, incoming: Bytes, sent: Bytes, more: Bytes, history: seq<Request>, e: Exchange)
    requires ExchangeOk(cfg, incoming, sent, history, e)
    ensures ExchangeOk(cfg, incoming, sent + more, history, e)
  {
    hide Answers, Rendered;
    assert (sent + more)[e.responseStart..e.responseEnd] == sent[e.responseStart..e.responseEnd];
  }

  lemma NoExchange(cfg: Config, incoming: Bytes, sent: Bytes)
    ensures Chained(cfg, incoming, sent, []) && AllGoOn([]) && InterimsWhole([]) && History([]) == []
  {
  }

  /** Sending more disturbs no earlier exchange. */
  lemma ChainStays(cfg: Config, incoming: Bytes, sent: Bytes, more: Bytes, es: seq<Exchange>)
    requires Chained(cfg, incoming, sent, es)
    ensures Chained(cfg, incoming, sent + more, es)
  {
    hide ExchangeOk;
    forall i | 0 <= i < |es|
      ensures Link(cfg, incoming, sent + more, es, i)
    {
      assert Link(cfg, incoming, sent, es, i);
      ExchangeStays(cfg, incoming, sent, more, History(es[..i]), es[i]);
    }
  }

  lemma ChainGrows(cfg: Config, incoming: Bytes, sent: Bytes, es: seq<Exchange>, e: Exchange)
    requires Chained(cfg, incoming, sent, es) && AllGoOn(es)
    requires ExchangeOk(cfg, incoming, sent, History(es), e)
    requires e.requestStart == RequestEnd(es) && e.responseStart == ResponseEnd(es)
    requires e.selection.plan.close <==> e.info.close || |es| + 1 >= cfg.limits.requests
    ensures Chained(cfg, incoming, sent, es + [e])
    ensures History(es + [e]) == History(es) + [RequestOf(e.info)]
  {
    hide ExchangeOk;
    var all := es + [e];
    forall i | 0 <= i < |all|
      ensures Link(cfg, incoming, sent, all, i)
    {
      if i < |es| {
        assert Link(cfg, incoming, sent, es, i);
        assert all[..i] == es[..i];
      } else {
        assert all[..i] == es;
      }
    }
  }

  // ---------- why a connection ended ----------

  datatype Head = Head(end: nat, info: RequestInfo)

  datatype Stage = InHead | InBody(head: Head) | InAnswer

  datatype Cause =
    | OpenRefused
    | ShutdownSeen
    | LifetimeEnded(seconds: nat, waiting: bool)
    | HandshakeBroken
    | SetupBroken
    | PeerLeft
    | IdleTooLong
    | HeadTooSlow(size: nat)
    | HeadTooLong(size: nat, buffered: nat)
    | BytesUsedUp(stage: Stage)
    | BadHead(position: nat, buffered: nat)
    | BadVersion(head: Head)
    | BadExpectation(head: Head)
    | BodyTooLong(head: Head, size: nat)
    | InterimTooLong(head: Head)
    | InterimCut(head: Head)
    | InterimTooSlow(head: Head)
    | InterimBroken(head: Head)
    | BodyTooSlow(head: Head, size: nat)
    | BadBody(head: Head, end: nat, peeked: nat)
    | TrailerTooLong(head: Head, end: nat, size: nat)
    | ConnectRefused(head: Head, end: nat, selection: Selection)
    | ResponseTooLong
    | StreamTooLong
    | AnswerTooSlow
    | AnswerBroken
    | RequestsUsedUp
    | CloseAsked

  function ReasonOf(cause: Cause): nat {
    match cause
    case OpenRefused => CLOSE_EVIDENCE_FAILURE
    case ShutdownSeen => CLOSE_SHUTDOWN
    case LifetimeEnded(_, _) => CLOSE_LIMIT_REACHED
    case HandshakeBroken => CLOSE_TLS_ERROR
    case SetupBroken => CLOSE_INTERNAL_ERROR
    case PeerLeft => CLOSE_REMOTE
    case IdleTooLong => CLOSE_IDLE_TIMEOUT
    case HeadTooSlow(_) => CLOSE_HEADER_TIMEOUT
    case HeadTooLong(_, _) => CLOSE_LIMIT_REACHED
    case BytesUsedUp(_) => CLOSE_LIMIT_REACHED
    case BadHead(_, _) => CLOSE_PARSER_FAILURE
    case BadVersion(_) => CLOSE_PARSER_FAILURE
    case BadExpectation(_) => CLOSE_PARSER_FAILURE
    case BodyTooLong(_, _) => CLOSE_LIMIT_REACHED
    case InterimTooLong(_) => CLOSE_LIMIT_REACHED
    case InterimCut(_) => CLOSE_LIMIT_REACHED
    case InterimTooSlow(_) => CLOSE_WRITE_TIMEOUT
    case InterimBroken(_) => CLOSE_INTERNAL_ERROR
    case BodyTooSlow(_, _) => CLOSE_BODY_TIMEOUT
    case BadBody(_, _, _) => CLOSE_PARSER_FAILURE
    case TrailerTooLong(_, _, _) => CLOSE_LIMIT_REACHED
    case ConnectRefused(_, _, _) => CLOSE_PARSER_FAILURE
    case ResponseTooLong => CLOSE_LIMIT_REACHED
    case StreamTooLong => CLOSE_LIMIT_REACHED
    case AnswerTooSlow => CLOSE_WRITE_TIMEOUT
    case AnswerBroken => CLOSE_INTERNAL_ERROR
    case RequestsUsedUp => CLOSE_LIMIT_REACHED
    case CloseAsked => CLOSE_NORMAL
  }

  /** The record that says why; None where the journal is told nothing but the reason. */
  function NoteOf(limits: Limits, connection: ID, cause: Cause): Option<Draft> {
    match cause
    case LifetimeEnded(seconds, _) => Some(LimitDraft(connection, LIMIT_LIFETIME, seconds))
    case IdleTooLong => Some(LimitDraft(connection, LIMIT_IDLE_TIMEOUT, 0))
    case HeadTooSlow(size) => Some(LimitDraft(connection, LIMIT_HEADER_TIMEOUT, size))
    case HeadTooLong(size, _) => Some(LimitDraft(connection, LIMIT_HEADER_BYTES, size))
    case BytesUsedUp(_) => Some(LimitDraft(connection, LIMIT_CONNECTION_BYTES, limits.connectionBytes))
    case BadHead(position, _) => Some(ParserErrorDraft(connection, PARSER_INVALID_HTTP, position))
    case BadVersion(head) => Some(ParserErrorDraft(connection, PARSER_UNSUPPORTED_VERSION, head.end))
    case BadExpectation(head) => Some(ParserErrorDraft(connection, PARSER_UNSUPPORTED_EXPECTATION, head.end))
    case BodyTooLong(_, size) => Some(LimitDraft(connection, LIMIT_BODY_BYTES, size))
    case InterimTooLong(_) => Some(LimitDraft(connection, LIMIT_RESPONSE_BYTES, |INTERIM|))
    case BodyTooSlow(_, size) => Some(LimitDraft(connection, LIMIT_BODY_TIMEOUT, size))
    case BadBody(_, end, peeked) => Some(ParserErrorDraft(connection, PARSER_INVALID_HTTP, Max(end - peeked, 0)))
    case TrailerTooLong(_, _, size) => Some(LimitDraft(connection, LIMIT_HEADER_BYTES, size))
    case ConnectRefused(_, end, _) => Some(ParserErrorDraft(connection, PARSER_PROHIBITED_CONNECT, end))
    case ResponseTooLong => Some(LimitDraft(connection, LIMIT_RESPONSE_BYTES, limits.responseBytes))
    case StreamTooLong => Some(LimitDraft(connection, LIMIT_STREAM_LIFETIME, limits.streamSeconds))
    case AnswerTooSlow => Some(LimitDraft(connection, LIMIT_WRITE_TIMEOUT, limits.writeSeconds))
    case _ => None
  }

  /** Causes after which what follows is still captured. */
  predicate Captures(cause: Cause) {
    || (cause.LifetimeEnded? && cause.waiting) || cause.IdleTooLong? || cause.HeadTooSlow? || cause.HeadTooLong?
    || cause.BadHead? || cause.BadVersion? || cause.BadExpectation? || cause.BodyTooLong? || cause.InterimTooLong?
    || cause.BodyTooSlow? || cause.BadBody? || cause.TrailerTooLong? || (cause.BytesUsedUp? && cause.stage.InBody?)
  }

  /** A connection at some moment: both streams, what was made of them, what
      the socket reported, what the surroundings answered. `plainEnd` is where
      the flagged bytes begin, and `late` what the socket reported during the
      capture of these, if there was one; `faults` is what it reported before. */
  datatype Life = Life(incoming: Bytes, sent: Bytes, exchanges: seq<Exchange>, requests: nat, bytesIn: nat, plainEnd: nat,
                       faults: set<Failure>, answers: seq<Sighting>, late: Option<set<Failure>>, healthy: bool)

  // ---------- the questions of one turn ----------

  /** At the top of the loop the handler looks at the shutdown and at the lifetime. */
  const LOOKS: seq<Sighting> := [No(Cancelled), No(LifetimeOver)]

  /** What it has asked when it waits for a header block, ... */
  const AT_HEAD: seq<Sighting> := [No(Cancelled), No(LifetimeOver), No(SetupFailed)]

  /** ... when the request has its identifier, ... */
  const AT_REQUEST: seq<Sighting> := [No(Cancelled), No(LifetimeOver), No(SetupFailed), No(SetupFailed)]

  /** ... when it reads the body, ... */
  const AT_BODY: seq<Sighting> := [No(Cancelled), No(LifetimeOver), No(SetupFailed), No(SetupFailed), No(SetupFailed)]

  /** ... and when it answers. */
  const AT_ANSWER: seq<Sighting> :=
    [No(Cancelled), No(LifetimeOver), No(SetupFailed), No(SetupFailed), No(SetupFailed), No(LifetimeOver)]

  /** A deadline that ran out while the handler waited. */
  lemma WaitAnswered(answers: seq<Sighting>, over: bool)
    requires EndsWith(answers, AT_HEAD + [Sighting(LifetimeOver, over)]) || EndsWith(answers, AT_BODY + [Sighting(LifetimeOver, over)])
    ensures EndsWith(answers, [No(SetupFailed), Sighting(LifetimeOver, over)]) && EndsWith(answers, [Sighting(LifetimeOver, over)])
  {
    var head, body := AT_HEAD + [Sighting(LifetimeOver, over)], AT_BODY + [Sighting(LifetimeOver, over)];
    assert head[2] == No(SetupFailed) == body[4] && head[3] == Sighting(LifetimeOver, over) == body[5];
  }

  /** Nothing that was asked for had happened. */
  ghost predicate AllQuiet(answers: seq<Sighting>) {
    forall i | 0 <= i < |answers| :: !answers[i].yes
  }

  /** What was asked for last was asked for. */
  lemma LastIsIn(answers: seq<Sighting>, a: Sighting)
    ensures EndsWith(answers, [a]) ==> a in answers
  {
    if EndsWith(answers, [a]) {
      assert [a][0] == a;
    }
  }

  lemma QuietHasNoYes(answers: seq<Sighting>, event: Event)
    requires AllQuiet(answers)
    ensures Yes(event) !in answers && !EndsWith(answers, [Yes(event)])
    ensures forall other :: !EndsWith(answers, [Yes(event), other])
  {
    LastIsIn(answers, Yes(event));
    forall other
      ensures !EndsWith(answers, [Yes(event), other])
    {
      assert [Yes(event), other][0] == Yes(event);
    }
  }

  /** How often it looked, and nothing kept it from going on. */
  function Looks(answers: seq<Sighting>): nat {
    if |answers| < 2 then 0
    else Looks(answers[..|answers| - 1]) + if answers[|answers| - 2..] == LOOKS then 1 else 0
  }

  lemma LooksNeverFall(answers: seq<Sighting>)
    requires answers != []
    ensures Looks(answers) >= Looks(answers[..|answers| - 1])
  {
  }

  lemma {:induction false} LooksStay(answers: seq<Sighting>, more: seq<Sighting>)
    ensures Looks(answers + more) >= Looks(answers)
    decreases |more|
  {
    hide Looks;
    if more == [] {
      assert answers + more == answers;
    } else {
      LooksStay(answers, more[..|more| - 1]);
      LooksNeverFall(answers + more);
      assert (answers + more)[..|answers + more| - 1] == answers + more[..|more| - 1];
    }
  }

  lemma LookedAgain(answers: seq<Sighting>, more: seq<Sighting>)
    requires LOOKS <= more
    ensures Looks(answers + more) >= Looks(answers) + 1
  {
    LooksStay(answers, [No(Cancelled)]);
    var once := answers + LOOKS;
    assert once[..|once| - 1] == answers + [No(Cancelled)] && once[|once| - 2..] == LOOKS;
    LooksStay(once, more[2..]);
    assert once + more[2..] == answers + more;
  }

  /** The stream's deadline and the shutdown were asked for behind the response. */
  ghost predicate FateAsked(answers: seq<Sighting>) {
    || EndsWith(answers, [Yes(StreamOver)]) || EndsWith(answers, [No(StreamOver), Yes(Cancelled)])
    || EndsWith(answers, [No(StreamOver), No(Cancelled)])
  }

  // ---------- why it ended ----------

  ghost predicate Exhausted(cfg: Config, l: Life) {
    l.plainEnd + |l.sent| == cfg.limits.connectionBytes
  }

  /** The connection stood open for another request. */
  ghost predicate StoodOpen(cfg: Config, l: Life) {
    AllGoOn(l.exchanges) && |l.exchanges| == l.requests < cfg.limits.requests
  }

  /** ... and this header block followed the last exchange. */
  ghost predicate HeadFollowed(cfg: Config, l: Life, head: Head) {
    && StoodOpen(cfg, l) && head.end <= l.plainEnd
    && HeadAt(cfg.grammar, l.incoming, RequestEnd(l.exchanges), head.end, head.info)
    && head.end - RequestEnd(l.exchanges) <= cfg.limits.headerBytes
  }

  /** ... and was taken. */
  ghost predicate HeadAccepted(cfg: Config, l: Life, head: Head) {
    && StoodOpen(cfg, l) && head.end <= l.plainEnd
    && HeadTaken(cfg, l.incoming, RequestEnd(l.exchanges), head.end, head.info)
  }

  /** ... and its body was begun, behind the interim line if one was wanted. */
  ghost predicate BodyBegun(cfg: Config, l: Life, head: Head) {
    HeadAccepted(cfg, l, head) && InterimAllowed(cfg, head.info) && InterimOut(l, head.info)
  }

  function InterimSize(info: RequestInfo): nat {
    if WantsInterim(info) then |INTERIM| else 0
  }

  /** The interim line is out where it was wanted, and nothing else since the last exchange. */
  ghost predicate InterimOut(l: Life, info: RequestInfo) {
    ShortWrite !in l.faults ==> |l.sent| == ResponseEnd(l.exchanges) + InterimSize(info)
  }

  /** Nothing was sent since the last exchange. */
  ghost predicate NothingSentSince(l: Life) {
    |l.sent| == ResponseEnd(l.exchanges)
  }

  /** What stands behind the last response is the beginning of an interim line, not all of it. */
  ghost predicate InterimUnfinished(l: Life) {
    var tail := |l.sent| - ResponseEnd(l.exchanges);
    0 <= tail < |INTERIM| && l.sent[ResponseEnd(l.exchanges)..] == INTERIM[..tail]
  }

  /** The last request was counted and its exchange recorded. */
  ghost predicate LastRecorded(l: Life) {
    l.exchanges != [] && |l.exchanges| == l.requests
  }

  ghost predicate LastFailed(l: Life) {
    LastRecorded(l) && !l.exchanges[|l.exchanges| - 1].complete
  }

  ghost predicate LastSucceeded(l: Life) {
    LastRecorded(l) && l.exchanges[|l.exchanges| - 1].complete
  }

  /** No body of at most `max` decoded bytes starts here. */
  ghost predicate NoBodyWithin(g: Grammar, info: RequestInfo, stream: Bytes, start: nat, max: int) {
    forall end: nat | BodyAt(g, info, stream, start, end) :: !BodyWithin(g, info, stream, start, end, max)
  }

  /** What the read cap lets through in one attempt at a header block, besides what is already buffered. */
  function ReadCap(cfg: Config): nat {
    cfg.limits.headerBytes + 4096
  }

  /** So many bytes can have been buffered behind the last exchange; none before the first. */
  ghost predicate Buffered(l: Life, buffered: nat) {
    && buffered < BUFFER_SIZE && (l.exchanges == [] ==> buffered == 0)
    && RequestEnd(l.exchanges) + buffered <= l.plainEnd
  }

  /** A header block ends at `end`, or the read cap does, and all that was received asks for more. */
  ghost predicate LongHeadAt(g: Grammar, stream: Bytes, start: nat, end: nat, received: nat, limit: nat) {
    && end <= received && end - start <= limit
    && (HeadEndsAt(g, stream, start, end)
        || (end == received && end - start == limit && Undecided(g, stream, start, end) && !CutAt(g, stream, start, end)))
  }

  /** No more of a header block can come: the stream is over, or the socket or
      the journal failed, or a timeout or the read cap cuts a line that is refused. */
  ghost predicate HeadLost(cfg: Config, l: Life, end: nat, limit: nat) {
    var start := RequestEnd(l.exchanges);
    || !l.healthy || Broken in l.faults || (start < end && end == |l.incoming|)
    || (CutAt(cfg.grammar, l.incoming, start, end) && (Timeout in l.faults || end - start == limit))
  }

  /** What was received is refused at `end`, or ends there unfinished and no more can come. */
  ghost predicate HeadBadAt(cfg: Config, l: Life, end: nat, limit: nat) {
    var g, s, start := cfg.grammar, l.incoming, RequestEnd(l.exchanges);
    && start <= end <= l.plainEnd && end - start <= limit
    && (HeadRefusedAt(g, s, start, end)
        || (end == l.plainEnd && Undecided(g, s, start, end) && HeadLost(cfg, l, end, limit)))
  }

  /** The body was read up to `end`, and it was neither complete nor bad nor too large before. */
  ghost predicate BodyRead(cfg: Config, l: Life, head: Head, end: nat) {
    && BodyBegun(cfg, l, head) && end <= l.plainEnd
    && BodyUnfinished(cfg.grammar, head.info, l.incoming, head.end, end)
    && FrontsWithin(cfg.grammar, head.info, l.incoming, head.end, end, cfg.limits.bodyBytes)
  }

  /** All that was received of the body was read, and it asks for more. */
  ghost predicate BodyStarved(cfg: Config, l: Life, head: Head) {
    && BodyRead(cfg, l, head, l.plainEnd)
    && Unfinished(cfg.grammar.body(head.info, l.incoming[head.end..l.plainEnd]), cfg.limits.bodyBytes)
  }

  /** ... and the error behind it is not lost in a trailer. */
  ghost predicate BodyAwaited(cfg: Config, l: Life, head: Head) {
    BodyStarved(cfg, l, head) && cfg.grammar.cutBody(head.info, l.incoming[head.end..l.plainEnd]).None?
  }

  /** The body that is refused at `end` is too large there. */
  ghost predicate BodyExceeds(cfg: Config, l: Life, head: Head, end: nat, size: nat) {
    && BodyRead(cfg, l, head, end)
    && DecodedSize(cfg.grammar.body(head.info, l.incoming[head.end..end])) == size
  }

  /** No more of a body can come. */
  ghost predicate BodyLost(cfg: Config, l: Life, head: Head, peeked: nat)
    requires head.end <= l.plainEnd <= |l.incoming|
  {
    match cfg.grammar.cutBody(head.info, l.incoming[head.end..l.plainEnd])
    case Some(unread) =>
      peeked == unread
      && (Timeout in l.faults || Broken in l.faults || !l.healthy || Exhausted(cfg, l) || l.plainEnd == |l.incoming|)
    case None => peeked == 0 && (Broken in l.faults || !l.healthy || l.plainEnd == |l.incoming|)
  }

  /** The body is refused at `end`, or ends there unfinished and no more can come. */
  ghost predicate BodyBadAt(cfg: Config, l: Life, head: Head, end: nat, peeked: nat) {
    && BodyRead(cfg, l, head, end)
    && (cfg.grammar.body(head.info, l.incoming[head.end..end]) == BodyBad(peeked)
        || (end == l.plainEnd && BodyStarved(cfg, l, head) && BodyLost(cfg, l, head, peeked)))
  }

  /** The last response was cut off with nothing behind it, and the next request not yet asked for. */
  ghost predicate AnswerCutOff(cfg: Config, l: Life) {
    && LastFailed(l) && NothingSentSince(l) && l.plainEnd < RequestEnd(l.exchanges) + BUFFER_SIZE
    && var e := l.exchanges[|l.exchanges| - 1];
       e.responseEnd - e.responseStart - e.interim < |Rendered(ContextOf(cfg, e.info), e.selection.plan)|
  }

  /** What each cause says about the connection. */
  ghost predicate Because(cfg: Config, l: Life, cause: Cause) {
    AskedFor(cfg, l, cause) && ShownBy(cfg, l, cause)
  }

  /** The questions that had been asked last, and how they were answered. */
  ghost predicate AskedFor(cfg: Config, l: Life, cause: Cause) {
    match cause
    case OpenRefused => l.answers == []
    case ShutdownSeen => EndsWith(l.answers, [Yes(Cancelled)])
    case LifetimeEnded(_, waiting) =>
      && EndsWith(l.answers, [Yes(LifetimeOver)])
      && (waiting <==> StoodOpen(cfg, l) && EndsWith(l.answers, [No(SetupFailed), Yes(LifetimeOver)]))
    case HandshakeBroken => l.answers == [No(LifetimeOver), Yes(HandshakeFailed), No(LifetimeOver)]
    case SetupBroken => EndsWith(l.answers, [Yes(SetupFailed)])
    case PeerLeft => EndsWith(l.answers, AT_HEAD)
    case IdleTooLong => EndsWith(l.answers, AT_HEAD + [No(LifetimeOver)])
    case HeadTooSlow(_) => EndsWith(l.answers, AT_HEAD + [No(LifetimeOver)])
    case HeadTooLong(_, _) => EndsWith(l.answers, AT_HEAD)
    case BytesUsedUp(stage) =>
      (match stage
       case InHead => EndsWith(l.answers, AT_HEAD)
       case InBody(_) => EndsWith(l.answers, AT_BODY)
       case InAnswer => EndsWith(l.answers, [No(StreamOver), No(Cancelled)]))
    case BadHead(_, _) => EndsWith(l.answers, AT_HEAD)
    case BadVersion(_) => EndsWith(l.answers, AT_HEAD)
    case BadExpectation(_) => EndsWith(l.answers, AT_HEAD)
    case BodyTooLong(head, _) => EndsWith(l.answers, if head.info.declared > cfg.limits.bodyBytes then AT_REQUEST else AT_BODY)
    case InterimTooLong(_) => EndsWith(l.answers, AT_REQUEST)
    case InterimCut(_) => EndsWith(l.answers, AT_REQUEST)
    case InterimTooSlow(_) => EndsWith(l.answers, AT_REQUEST)
    case InterimBroken(_) => EndsWith(l.answers, AT_REQUEST)
    case BodyTooSlow(_, _) => EndsWith(l.answers, AT_BODY + [No(LifetimeOver)])
    case BadBody(_, _, _) => EndsWith(l.answers, AT_BODY)
    case TrailerTooLong(_, _, _) => EndsWith(l.answers, AT_BODY)
    case ConnectRefused(_, _, _) => EndsWith(l.answers, AT_ANSWER)
    case ResponseTooLong => FateAsked(l.answers)
    case StreamTooLong => EndsWith(l.answers, [Yes(StreamOver), No(LifetimeOver)])
    case AnswerTooSlow => EndsWith(l.answers, [No(StreamOver), No(Cancelled), No(LifetimeOver)])
    case AnswerBroken => EndsWith(l.answers, [No(StreamOver), No(Cancelled)])
    case RequestsUsedUp => FateAsked(l.answers)
    case CloseAsked => FateAsked(l.answers)
  }

  /** The last response failed although its rendering is within what is left of the response limit. */
  ghost predicate FailedOnTheWay(cfg: Config, l: Life) {
    && LastFailed(l)
    && var e := l.exchanges[|l.exchanges| - 1];
       |Rendered(ContextOf(cfg, e.info), e.selection.plan)| <= Max(cfg.limits.responseBytes - e.interim, 0)
  }

  /** What the streams, the exchanges and the errors of the socket show. */
  ghost predicate ShownBy(cfg: Config, l: Life, cause: Cause) {
    var g, s, start := cfg.grammar, l.incoming, RequestEnd(l.exchanges);
    match cause
    case OpenRefused => !l.healthy && l.exchanges == [] && l.sent == [] && l.bytesIn == 0
    case ShutdownSeen => StoodOpen(cfg, l) || FailedOnTheWay(cfg, l)
    case LifetimeEnded(_, waiting) => (waiting ==> Timeout in l.faults) && (LastFailed(l) ==> FailedOnTheWay(cfg, l))
    case HandshakeBroken => l.exchanges == [] && l.sent == [] && l.bytesIn == 0
    case SetupBroken => StoodOpen(cfg, l)
    case PeerLeft => StoodOpen(cfg, l) && NothingSentSince(l) && l.bytesIn == start && (l.healthy ==> start == |s|)
    case IdleTooLong => StoodOpen(cfg, l) && Timeout in l.faults && l.plainEnd == start
    case HeadTooSlow(size) =>
      && StoodOpen(cfg, l) && Timeout in l.faults && size == l.plainEnd - start > 0
      && Undecided(g, s, start, l.plainEnd) && !CutAt(g, s, start, l.plainEnd)
    case HeadTooLong(size, buffered) =>
      && StoodOpen(cfg, l) && NoHeadWithin(g, s, start, cfg.limits.headerBytes) && size > cfg.limits.headerBytes
      && Buffered(l, buffered) && LongHeadAt(g, s, start, start + size, l.plainEnd, buffered + ReadCap(cfg))
    case BytesUsedUp(stage) =>
      && Exhausted(cfg, l)
      && (match stage
          case InHead => StoodOpen(cfg, l) && NothingSentSince(l) && NoHeadWithin(g, s, start, l.plainEnd - start)
          case InBody(head) => BodyAwaited(cfg, l, head)
          case InAnswer => AnswerCutOff(cfg, l) && FailedOnTheWay(cfg, l))
    case BadHead(position, buffered) =>
      StoodOpen(cfg, l) && Buffered(l, buffered) && HeadBadAt(cfg, l, position, buffered + ReadCap(cfg))
    case BadVersion(head) => HeadFollowed(cfg, l, head) && !VersionSupported(cfg, head.info)
    case BadExpectation(head) =>
      HeadFollowed(cfg, l, head) && VersionSupported(cfg, head.info) && head.info.expectation == UnsupportedExpectation
    case BodyTooLong(head, size) =>
      && HeadAccepted(cfg, l, head) && size > cfg.limits.bodyBytes
      && (head.info.declared == size
          || (NoBodyWithin(g, head.info, s, head.end, cfg.limits.bodyBytes)
              && exists end: nat :: BodyExceeds(cfg, l, head, end, size)))
    case InterimTooLong(head) =>
      && HeadAccepted(cfg, l, head) && head.info.declared <= cfg.limits.bodyBytes
      && WantsInterim(head.info) && |INTERIM| > cfg.limits.responseBytes
    case InterimCut(head) =>
      && HeadAccepted(cfg, l, head) && InterimAllowed(cfg, head.info) && WantsInterim(head.info)
      && Exhausted(cfg, l) && InterimUnfinished(l) && l.plainEnd < head.end + BUFFER_SIZE
    case InterimTooSlow(head) =>
      HeadAccepted(cfg, l, head) && InterimAllowed(cfg, head.info) && WantsInterim(head.info) && Timeout in l.faults
    case InterimBroken(head) =>
      && HeadAccepted(cfg, l, head) && InterimAllowed(cfg, head.info) && WantsInterim(head.info)
      && (Broken in l.faults || ShortWrite in l.faults || !l.healthy)
    case BodyTooSlow(head, size) =>
      BodyAwaited(cfg, l, head) && Timeout in l.faults && g.body(head.info, s[head.end..l.plainEnd]) == BodyMore(size)
    case BadBody(head, end, peeked) => BodyBadAt(cfg, l, head, end, peeked)
    case TrailerTooLong(head, end, size) =>
      && BodyBegun(cfg, l, head) && end <= l.plainEnd && BodyAt(g, head.info, s, head.end, end)
      && BodyWithin(g, head.info, s, head.end, end, cfg.limits.bodyBytes)
      && size == TrailerOf(g.body(head.info, s[head.end..end])) > cfg.limits.headerBytes
    case ConnectRefused(head, end, selection) =>
      && AllGoOn(l.exchanges) && |l.exchanges| + 1 == l.requests && end <= l.plainEnd
      && RequestTaken(cfg, s, start, head.end, end, head.info) && InterimOut(l, head.info) && OpensTunnel(head.info, selection)
      && Promised(cfg.service, History(l.exchanges), RequestOf(head.info), selection.plan.close, selection)
      && (selection.plan.close <==> head.info.close || l.requests >= cfg.limits.requests)
    case ResponseTooLong =>
      && LastFailed(l)
      && var e := l.exchanges[|l.exchanges| - 1];
         && |Rendered(ContextOf(cfg, e.info), e.selection.plan)| > cfg.limits.responseBytes - e.interim
         && e.responseEnd == e.responseStart + e.interim
    case StreamTooLong => FailedOnTheWay(cfg, l)
    case AnswerTooSlow => FailedOnTheWay(cfg, l) && Timeout in l.faults
    case AnswerBroken => FailedOnTheWay(cfg, l) && (Broken in l.faults || ShortWrite in l.faults || !l.healthy)
    case RequestsUsedUp => LastSucceeded(l) && |l.exchanges| == cfg.limits.requests
    case CloseAsked => LastSucceeded(l) && l.exchanges[|l.exchanges| - 1].info.close && |l.exchanges| < cfg.limits.requests
  }

  lemma AcceptedIsOpen(cfg: Config, l: Life, head: Head)
    requires HeadAccepted(cfg, l, head)
    ensures |l.exchanges| == l.requests < cfg.limits.requests
  {
    hide HeadTaken, AllGoOn;
  }

  lemma BrokenAnswer(cfg: Config, l: Life)
    requires FailedOnTheWay(cfg, l) && (Broken in l.faults || ShortWrite in l.faults || !l.healthy)
    requires EndsWith(l.answers, [No(StreamOver), No(Cancelled)])
    ensures Because(cfg, l, AnswerBroken)
  {
    hide FailedOnTheWay, EndsWith;
  }

  /** The three ways an interim line fails. */
  lemma FailedInterim(cfg: Config, l: Life, failure: Failure, head: Head)
    requires HeadAccepted(cfg, l, head) && InterimAllowed(cfg, head.info) && WantsInterim(head.info)
    requires EndsWith(l.answers, AT_REQUEST) && failure in [Timeout, Broken, ConnectionLimit, JournalFailed, ShortWrite]
    requires failure in [Timeout, Broken, ShortWrite] ==> failure in l.faults
    requires failure == JournalFailed ==> !l.healthy
    requires failure == ConnectionLimit ==> Exhausted(cfg, l) && InterimUnfinished(l) && l.plainEnd < head.end + BUFFER_SIZE
    ensures Because(cfg, l, if failure == Timeout then InterimTooSlow(head) else if failure == ConnectionLimit then InterimCut(head)
                            else InterimBroken(head))
  {
    hide HeadAccepted, InterimAllowed, WantsInterim, EndsWith, Exhausted, InterimUnfinished;
  }

  /** The same connection, perhaps with more captured, or with the journal gone bad. */
  ghost predicate Later(l: Life, later: Life) {
    later == l.(bytesIn := later.bytesIn, late := later.late, healthy := later.healthy) && (later.healthy ==> l.healthy)
  }

  lemma StillRead(cfg: Config, l: Life, later: Life, head: Head, end: nat)
    requires Later(l, later) && BodyRead(cfg, l, head, end)
    ensures BodyRead(cfg, later, head, end)
  {
    hide HeadTaken, AllGoOn, FrontsWithin, BodyUnfinished, InterimAllowed;
  }

  lemma StillSo(cfg: Config, l: Life, later: Life)
    requires Later(l, later)
    ensures forall head, end: nat, size | BodyExceeds(cfg, l, head, end, size) :: BodyExceeds(cfg, later, head, end, size)
    ensures forall head, end: nat, peeked | BodyBadAt(cfg, l, head, end, peeked) :: BodyBadAt(cfg, later, head, end, peeked)
    ensures forall head | BodyAwaited(cfg, l, head) :: BodyAwaited(cfg, later, head)
    ensures forall end, limit | HeadBadAt(cfg, l, end, limit) :: HeadBadAt(cfg, later, end, limit)
  {
    hide BodyRead;
    forall head, end: nat | BodyRead(cfg, l, head, end)
      ensures BodyRead(cfg, later, head, end)
    {
      StillRead(cfg, l, later, head, end);
    }
    forall head, end: nat | BodyRead(cfg, l, head, end)
      ensures head.end <= end <= |l.incoming|
    {
      ReadInBounds(cfg, l, head, end);
    }
  }

  lemma ReadInBounds(cfg: Config, l: Life, head: Head, end: nat)
    requires BodyRead(cfg, l, head, end)
    ensures head.end <= end <= |l.incoming|
  {
    hide BodyBegun;
  }

  /** What does not look at the capture or the journal stands as it stood. */
  lemma StandsAsBefore(cfg: Config, l: Life, later: Life)
    requires Later(l, later)
    ensures StoodOpen(cfg, later) == StoodOpen(cfg, l) && LastFailed(later) == LastFailed(l)
    ensures LastSucceeded(later) == LastSucceeded(l) && FailedOnTheWay(cfg, later) == FailedOnTheWay(cfg, l)
    ensures Exhausted(cfg, later) == Exhausted(cfg, l) && NothingSentSince(later) == NothingSentSince(l)
    ensures InterimUnfinished(later) == InterimUnfinished(l) && AnswerCutOff(cfg, later) == AnswerCutOff(cfg, l)
    ensures forall head | HeadFollowed(cfg, l, head) :: HeadFollowed(cfg, later, head)
    ensures forall head | HeadAccepted(cfg, l, head) :: HeadAccepted(cfg, later, head)
    ensures forall head | BodyBegun(cfg, l, head) :: BodyBegun(cfg, later, head)
    ensures forall buffered | Buffered(l, buffered) :: Buffered(later, buffered)
    ensures forall info | InterimOut(l, info) :: InterimOut(later, info)
  {
    hide Rendered, HeadTaken, AllGoOn, HeadAt, InterimAllowed;
  }

  /** What was asked for last was asked for last. */
  lemma AskedOutlives(cfg: Config, l: Life, later: Life, cause: Cause)
    requires Later(l, later) && AskedFor(cfg, l, cause)
    ensures AskedFor(cfg, later, cause)
  {
    hide StoodOpen, EndsWith, FateAsked;
    StandsAsBefore(cfg, l, later);
  }

  lemma ShownOutlives(cfg: Config, l: Life, later: Life, cause: Cause)
    requires Later(l, later) && ShownBy(cfg, l, cause) && (later.bytesIn == l.bytesIn || Captures(cause))
    ensures ShownBy(cfg, later, cause)
  {
    hide HeadTaken, AllGoOn, Rendered, Promised, OpensTunnel, RequestTaken, NoBody, NoHead, NoBodyWithin;
    hide NoHeadWithin, BodyExceeds, BodyBadAt, BodyAwaited, HeadBadAt, LongHeadAt, Undecided, CutAt;
    hide StoodOpen, LastFailed, LastSucceeded, FailedOnTheWay, Exhausted, NothingSentSince, InterimUnfinished, AnswerCutOff;
    hide HeadFollowed, HeadAccepted, BodyBegun, Buffered, InterimOut, BodyAt, BodyWithin, InterimAllowed, WantsInterim;
    StandsAsBefore(cfg, l, later);
    StillSo(cfg, l, later);
    BegunIsAccepted(cfg);
  }

  /** Where a body was begun, its header block was accepted, within what was received. */
  lemma BegunIsAccepted(cfg: Config)
    ensures forall l: Life, head | BodyBegun(cfg, l, head) :: HeadAccepted(cfg, l, head)
    ensures forall l: Life, head | BodyAwaited(cfg, l, head) :: head.end <= l.plainEnd <= |l.incoming|
    ensures forall l: Life, head | HeadAccepted(cfg, l, head) :: head.end <= l.plainEnd
  {
    hide HeadTaken, AllGoOn, InterimAllowed, FrontsWithin;
  }

  /** The same moment with the journal possibly gone bad. */
  lemma BecauseOutlivesTheJournal(cfg: Config, l: Life, healthy: bool, cause: Cause)
    requires Because(cfg, l, cause) && (healthy ==> l.healthy)
    ensures Because(cfg, l.(healthy := healthy), cause)
  {
    hide AskedFor, ShownBy;
    AskedOutlives(cfg, l, l.(healthy := healthy), cause);
    ShownOutlives(cfg, l, l.(healthy := healthy), cause);
  }

  /** Capturing what follows changes no cause. */
  lemma BecauseOutlivesCapture(cfg: Config, l: Life, later: Life, cause: Cause)
    requires Because(cfg, l, cause) && Captures(cause)
    requires later == l.(bytesIn := later.bytesIn, late := later.late, healthy := later.healthy)
    requires later.healthy ==> l.healthy
    ensures Because(cfg, later, cause)
  {
    hide AskedFor, ShownBy;
    AskedOutlives(cfg, l, later, cause);
    ShownOutlives(cfg, l, later, cause);
  }

  // ---------- what the journal is told ----------

  /** The last request allowed is noted when it is counted. */
  function RequestNote(limits: Limits, connection: ID, requests: nat): seq<Draft> {
    if requests >= limits.requests then [LimitDraft(connection, LIMIT_REQUESTS, requests)] else []
  }

  function CauseNote(limits: Limits, connection: ID, cause: Cause): seq<Draft> {
    match NoteOf(limits, connection, cause) case None => [] case Some(d) => [d]
  }

  /** The capture ended before its own limit, or without the record of it:
      the peer's stream or the byte budget was over, or the socket reported an error. */
  ghost predicate CaptureStopped(cfg: Config, l: Life) {
    || l.bytesIn == |l.incoming| || l.late != Some({})
    || (l.bytesIn < l.plainEnd + cfg.limits.postFailureBytes && l.bytesIn + |l.sent| == cfg.limits.connectionBytes)
  }

  /** Behind the causes that call for it, and only there, bytes are captured:
      up to the capture's own limit, unless it is stopped or the journal fails. */
  ghost predicate CaptureDone(cfg: Config, l: Life, cause: Cause) {
    if Captures(cause) then
      && l.late.Some? && l.bytesIn <= l.plainEnd + cfg.limits.postFailureBytes
      && (l.healthy ==> l.bytesIn == l.plainEnd + cfg.limits.postFailureBytes || CaptureStopped(cfg, l))
    else l.late.None? && l.bytesIn == l.plainEnd
  }

  /** Everything the records say besides the data: the request limit, the
      cause, and a capture that reached its own limit; nothing else. */
  ghost predicate NotesFit(cfg: Config, l: Life, connection: ID, notes: seq<Draft>, cause: Cause) {
    var told := RequestNote(cfg.limits, connection, l.requests) + CauseNote(cfg.limits, connection, cause);
    || (notes == told && (Captures(cause) ==> CaptureStopped(cfg, l)))
    || (Captures(cause) && l.bytesIn == l.plainEnd + cfg.limits.postFailureBytes
        && notes == told + [LimitDraft(connection, LIMIT_POST_FAILURE_BYTES, cfg.limits.postFailureBytes)])
  }

  /** A connection that has ended: its exchanges are right and chained, within
      every limit, the handler looked before every request, what followed was
      captured where it should be, and the cause is true of it. */
  ghost predicate Lived(cfg: Config, l: Life, cause: Cause) {
    && Chained(cfg, l.incoming, l.sent, l.exchanges)
    && |l.exchanges| <= l.requests <= cfg.limits.requests
    && RequestEnd(l.exchanges) <= l.plainEnd <= l.bytesIn <= |l.incoming|
    && ResponseEnd(l.exchanges) <= |l.sent|
    && l.bytesIn + |l.sent| <= cfg.limits.connectionBytes
    && (ShortWrite !in l.faults ==> InterimsWhole(l.exchanges))
    && l.requests <= Looks(l.answers)
    && CaptureDone(cfg, l, cause)
    && Because(cfg, l, cause)
  }

  // ---------- the flags of what was sent ----------

  function FlagOf(plan: Plan): byte {
    if plan.mode == Ndjson then FLAG_STREAMING else 0
  }

  /** The interim line is sent plainly, and a response as its plan's mode asks. */
  function ExchangeFlags(e: Exchange): Bytes {
    Repeat(0, e.interim) + Repeat(FlagOf(e.selection.plan), Max(e.responseEnd - e.responseStart - e.interim, 0))
  }

  function FlagsOfExchanges(es: seq<Exchange>): Bytes {
    if es == [] then [] else FlagsOfExchanges(es[..|es| - 1]) + ExchangeFlags(es[|es| - 1])
  }

  /** The flags of all that was sent; what stands behind the last response was sent plainly. */
  function SentFlags(es: seq<Exchange>, size: nat): Bytes {
    FlagsOfExchanges(es) + Repeat(0, Max(size - ResponseEnd(es), 0))
  }

  lemma PlainlySentMore(es: seq<Exchange>, size: nat, more: nat)
    requires ResponseEnd(es) <= size
    ensures SentFlags(es, size) + Repeat(0, more) == SentFlags(es, size + more)
  {
    hide FlagsOfExchanges;
    RepeatMore(0, size - ResponseEnd(es), more);
  }

  /** One more exchange, behind its interim line. */
  lemma FlagsGrow(es: seq<Exchange>, e: Exchange, size: nat, printed: nat)
    requires e.responseStart == ResponseEnd(es) && size == ResponseEnd(es) + e.interim && e.responseEnd == size + printed
    ensures SentFlags(es, size) + Repeat(FlagOf(e.selection.plan), printed) == SentFlags(es + [e], size + printed)
  {
    hide Repeat;
    assert (es + [e])[..|es + [e]| - 1] == es;
    assert Repeat(0, 0) == [];
    Assoc(FlagsOfExchanges(es), Repeat(0, e.interim), Repeat(FlagOf(e.selection.plan), printed));
  }
}
