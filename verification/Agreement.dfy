/** Two connections with the same peer: when they end alike, whatever the
    socket made of their reads (handleConnection, internal/engine/connection.go). */
module Agreement {
  import opened Wrappers
  import opened Bytes
  import opened Ids
  import opened Format
  import opened Drafts
  import opened Headers
  import opened Rendering
  import opened Routes
  import opened ConnectionIO
  import opened Parsing
  import opened Lives
  import opened Exchanges
  import opened Endings
  import opened Samples

  // ---------- where an undisturbed connection stops ----------

  /** What the exchanges of a connection say about what may follow them. */
  datatype Place = Place(start: nat, count: nat, goesOn: bool, lastComplete: bool, lastAsked: bool)

  ghost function PlaceOf(es: seq<Exchange>): Place {
    Place(RequestEnd(es), |es|, AllGoOn(es), es != [] && es[|es| - 1].complete, es != [] && es[|es| - 1].info.close)
  }

  /** So much can be buffered at this place. */
  ghost predicate Room(s: Bytes, p: Place, buffered: nat) {
    buffered < BUFFER_SIZE && (p.count == 0 ==> buffered == 0) && p.start + buffered <= |s|
  }

  /** The parser comes to the end of what the read cap lets through without a decision. */
  ghost predicate CapReached(cfg: Config, s: Bytes, start: nat, buffered: nat) {
    Undecided(cfg.grammar, s, start, start + buffered + ReadCap(cfg))
  }

  /** A header block at this place passes its size check. */
  ghost predicate HeadFits(cfg: Config, s: Bytes, p: Place, head: Head) {
    HeadAt(cfg.grammar, s, p.start, head.end, head.info) && head.end - p.start <= cfg.limits.headerBytes
  }

  /** A header block at this place leads to its body. */
  ghost predicate HeadPasses(cfg: Config, s: Bytes, p: Place, head: Head) {
    HeadTaken(cfg, s, p.start, head.end, head.info) && InterimAllowed(cfg, head.info)
  }

  /** The reading of a body stops at `end`: it is decided there, or the stream is over. */
  ghost predicate BodyStops(cfg: Config, s: Bytes, head: Head, end: nat) {
    && BodyUnfinished(cfg.grammar, head.info, s, head.end, end)
    && FrontsWithin(cfg.grammar, head.info, s, head.end, end, cfg.limits.bodyBytes)
    && (end == |s| || !Unfinished(cfg.grammar.body(head.info, s[head.end..end]), cfg.limits.bodyBytes))
  }

  ghost predicate StopsAtSize(cfg: Config, s: Bytes, head: Head, end: nat, size: nat) {
    BodyStops(cfg, s, head, end) && DecodedSize(cfg.grammar.body(head.info, s[head.end..end])) == size
  }

  function Unread(lost: Option<nat>): nat {
    match lost case Some(n) => n case None => 0
  }

  /** What a cause says about the peer's stream behind the last exchange, if nothing disturbs the connection. */
  ghost predicate Stops(cfg: Config, s: Bytes, p: Place, cause: Cause) {
    var g, open := cfg.grammar, p.goesOn && p.count < cfg.limits.requests;
    match cause
    case PeerLeft => open && p.start == |s|
    case HeadTooLong(size, buffered) =>
      && open && Room(s, p, buffered) && cfg.limits.headerBytes < size <= buffered + ReadCap(cfg)
      && (HeadEndsAt(g, s, p.start, p.start + size)
          || (size == buffered + ReadCap(cfg) && CapReached(cfg, s, p.start, buffered) && !CutAt(g, s, p.start, p.start + size)))
    case BadHead(position, buffered) =>
      && open && Room(s, p, buffered) && p.start < position <= p.start + buffered + ReadCap(cfg)
      && (HeadRefusedAt(g, s, p.start, position)
          || (Undecided(g, s, p.start, position)
              && (position == |s|
                  || (position == p.start + buffered + ReadCap(cfg) && CutAt(g, s, p.start, position)))))
    case BadVersion(head) => open && HeadFits(cfg, s, p, head) && !VersionSupported(cfg, head.info)
    case BadExpectation(head) =>
      && open && HeadFits(cfg, s, p, head) && VersionSupported(cfg, head.info) && head.info.expectation == UnsupportedExpectation
    case BodyTooLong(head, size) =>
      && open && HeadTaken(cfg, s, p.start, head.end, head.info) && size > cfg.limits.bodyBytes
      && (head.info.declared == size
          || (InterimAllowed(cfg, head.info)
              && exists end: nat :: StopsAtSize(cfg, s, head, end, size)))
    case InterimTooLong(head) =>
      && open && HeadTaken(cfg, s, p.start, head.end, head.info) && head.info.declared <= cfg.limits.bodyBytes
      && WantsInterim(head.info) && |INTERIM| > cfg.limits.responseBytes
    case BadBody(head, end, peeked) =>
      && open && HeadPasses(cfg, s, p, head) && BodyStops(cfg, s, head, end)
      && var v := g.body(head.info, s[head.end..end]);
         v == BodyBad(peeked)
         || (Unfinished(v, cfg.limits.bodyBytes) && peeked == Unread(g.cutBody(head.info, s[head.end..end])))
    case TrailerTooLong(head, end, size) =>
      && open && HeadPasses(cfg, s, p, head)
      && BodyAt(g, head.info, s, head.end, end) && BodyWithin(g, head.info, s, head.end, end, cfg.limits.bodyBytes)
      && size == TrailerOf(g.body(head.info, s[head.end..end])) > cfg.limits.headerBytes
    case ConnectRefused(head, end, _) => open && RequestTaken(cfg, s, p.start, head.end, end, head.info)
    case ResponseTooLong => !p.goesOn && p.count > 0 && !p.lastComplete
    case RequestsUsedUp => !p.goesOn && p.count == cfg.limits.requests && p.lastComplete
    case CloseAsked => !p.goesOn && 0 < p.count < cfg.limits.requests && p.lastComplete
    case _ => false
  }

  /** An undisturbed connection stops for its cause. */
  lemma CalmStops(cfg: Config, l: Life, cause: Cause)
    requires Lived(cfg, l, cause) && Calm(cfg, l)
    ensures Stops(cfg, l.incoming, PlaceOf(l.exchanges), cause)
  {
    hide AskedFor, FailedOnTheWay, CaptureDone, Looks;
    hide Chained, InterimsWhole, NoHeadWithin, NoBodyWithin, Rendered, Promised, OpensTunnel, BodyAt;
    hide BodyWithin, AllGoOn;
    hide BodyStops;
    CalmCauses(cfg, l, cause);
    if AtHead(cause) {
      AtHeadStops(cfg, l, cause);
      return;
    }
    if cause.BodyTooLong? && cause.head.info.declared != cause.size {
      var end: nat :| BodyExceeds(cfg, l, cause.head, end, cause.size);
      ExcessStops(cfg, l, cause.head, end, cause.size);
      assert StopsAtSize(cfg, l.incoming, cause.head, end, cause.size);
    }
    if cause.BadBody? {
      BadBodyStops(cfg, l, cause.head, cause.end, cause.peeked);
    }
    if AfterRequest(cause) && !cause.ConnectRefused? {
      LastEnded(cfg, l, cause);
    }
  }

  lemma AtHeadStops(cfg: Config, l: Life, cause: Cause)
    requires Because(cfg, l, cause) && Calm(cfg, l) && l.plainEnd <= |l.incoming| && AtHead(cause)
    ensures Stops(cfg, l.incoming, PlaceOf(l.exchanges), cause)
  {
    hide AskedFor;
    hide NoHeadWithin, AllGoOn, HeadEndsAt;
  }

  lemma ExcessStops(cfg: Config, l: Life, head: Head, end: nat, size: nat)
    requires BodyExceeds(cfg, l, head, end, size) && size > cfg.limits.bodyBytes
    ensures BodyStops(cfg, l.incoming, head, end) && HeadPasses(cfg, l.incoming, PlaceOf(l.exchanges), head)
  {
    hide BodyUnfinished, FrontsWithin, HeadTaken, AllGoOn;
    InBody(cfg, l, head, end);
  }

  lemma InBody(cfg: Config, l: Life, head: Head, end: nat)
    requires BodyRead(cfg, l, head, end)
    ensures head.end <= end <= |l.incoming|
  {
    hide HeadTaken, AllGoOn, InterimAllowed;
  }

  lemma BadBodyStops(cfg: Config, l: Life, head: Head, end: nat, peeked: nat)
    requires BodyBadAt(cfg, l, head, end, peeked) && Calm(cfg, l)
    ensures BodyStops(cfg, l.incoming, head, end) && HeadPasses(cfg, l.incoming, PlaceOf(l.exchanges), head)
    ensures var v := cfg.grammar.body(head.info, l.incoming[head.end..end]);
            v == BodyBad(peeked)
            || (Unfinished(v, cfg.limits.bodyBytes)
                && peeked == Unread(cfg.grammar.cutBody(head.info, l.incoming[head.end..end])))
  {
    hide BodyUnfinished, FrontsWithin, HeadTaken, AllGoOn;
    InBody(cfg, l, head, end);
  }

  /** The last exchange of a connection that ended behind it was its end. */
  lemma LastEnded(cfg: Config, l: Life, cause: Cause)
    requires Lived(cfg, l, cause) && (cause.ResponseTooLong? || cause.RequestsUsedUp? || cause.CloseAsked?)
    ensures l.exchanges != [] && !AllGoOn(l.exchanges)
  {
    hide ExchangeOk, Rendered, InterimsWhole;
    var i := |l.exchanges| - 1;
    assert Link(cfg, l.incoming, l.sent, l.exchanges, i);
    assert !(l.exchanges[i].complete && !l.exchanges[i].selection.plan.close);
  }

  // ---------- it can stop for one of them only ----------

  /** The same reason, and the same record of it. */
  ghost predicate SameEnd(limits: Limits, c: Cause, d: Cause) {
    ReasonOf(c) == ReasonOf(d) && forall connection :: NoteOf(limits, connection, c) == NoteOf(limits, connection, d)
  }

  predicate AtHead(cause: Cause) {
    cause.HeadTooLong? || cause.BadHead?
  }

  predicate InHead(cause: Cause) {
    cause.BadVersion? || cause.BadExpectation? || cause.InterimTooLong? || cause.BodyTooLong?
    || cause.BadBody? || cause.TrailerTooLong? || cause.ConnectRefused?
  }

  function HeadOf(cause: Cause): Head
    requires InHead(cause)
  {
    cause.head
  }

  /** Within the size limit there is one header block, or the parser stops without one. */
  lemma HeadOrNone(cfg: Config, s: Bytes, p: Place, cause: Cause)
    requires Stops(cfg, s, p, cause)
    ensures AtHead(cause) ==>
              p.goesOn && p.start < |s| && NoHeadWithin(cfg.grammar, s, p.start, cfg.limits.headerBytes)
    ensures InHead(cause) ==> p.goesOn && p.start < |s| && HeadFits(cfg, s, p, HeadOf(cause))
    ensures !AtHead(cause) && !InHead(cause) ==> cause.PeerLeft? || AfterRequest(cause)
  {
    hide BodyStops, BodyAt, BodyWithin, InterimAllowed, VersionSupported;
    var g := cfg.grammar;
    if AtHead(cause) {
      forall other: nat, info | HeadAt(g, s, p.start, other, info)
        ensures other - p.start > cfg.limits.headerBytes
      {
      }
    }
  }

  /** The reading of a body stops in one place. */
  lemma BodyStopsOnce(cfg: Config, s: Bytes, head: Head, e1: nat, e2: nat)
    requires BodyStops(cfg, s, head, e1) && BodyStops(cfg, s, head, e2)
    ensures e1 == e2
  {
  }

  lemma DoneStops(cfg: Config, s: Bytes, head: Head, end: nat)
    requires BodyAt(cfg.grammar, head.info, s, head.end, end)
    requires BodyWithin(cfg.grammar, head.info, s, head.end, end, cfg.limits.bodyBytes)
    ensures BodyStops(cfg, s, head, end) && cfg.grammar.body(head.info, s[head.end..end]).BodyDone?
    ensures DecodedSize(cfg.grammar.body(head.info, s[head.end..end])) <= cfg.limits.bodyBytes
  {
  }

  /** How a body can stop, once its header block has passed. */
  predicate InItsBody(cause: Cause) {
    (cause.BodyTooLong? && cause.head.info.declared != cause.size) || cause.BadBody? || cause.TrailerTooLong? || cause.ConnectRefused?
  }

  /** Where it stops. */
  ghost predicate BodyEndsFor(cfg: Config, s: Bytes, cause: Cause, end: nat)
    requires InItsBody(cause)
  {
    && BodyStops(cfg, s, cause.head, end)
    && var v := cfg.grammar.body(cause.head.info, s[cause.head.end..end]);
       match cause
       case BodyTooLong(_, size) => DecodedSize(v) == size > cfg.limits.bodyBytes
       case BadBody(head, at, peeked) =>
         && at == end
         && (v == BodyBad(peeked)
             || (Unfinished(v, cfg.limits.bodyBytes) && peeked == Unread(cfg.grammar.cutBody(head.info, s[head.end..end]))))
       case TrailerTooLong(_, at, size) =>
         at == end && v.BodyDone? && v.decoded <= cfg.limits.bodyBytes && v.trailerBytes == size > cfg.limits.headerBytes
       case ConnectRefused(_, at, _) =>
         at == end && v.BodyDone? && v.decoded <= cfg.limits.bodyBytes && v.trailerBytes <= cfg.limits.headerBytes
  }

  lemma BodyEnds(cfg: Config, s: Bytes, p: Place, cause: Cause) returns (end: nat)
    requires Stops(cfg, s, p, cause) && InItsBody(cause)
    ensures BodyEndsFor(cfg, s, cause, end)
    ensures InterimAllowed(cfg, cause.head.info) && VersionSupported(cfg, cause.head.info)
    ensures cause.head.info.expectation != UnsupportedExpectation
  {
    hide BodyStops, HeadAt, BodyAt, BodyWithin, VersionSupported, InterimAllowed;
    if cause.BodyTooLong? {
      end :| StopsAtSize(cfg, s, cause.head, end, cause.size);
    } else {
      end := cause.end;
      if !cause.BadBody? {
        DoneStops(cfg, s, cause.head, end);
      }
    }
  }

  /** The body decides between them. */
  lemma BodyDecides(cfg: Config, s: Bytes, c: Cause, d: Cause, end: nat)
    requires InItsBody(c) && InItsBody(d) && c.head == d.head
    requires BodyEndsFor(cfg, s, c, end) && BodyEndsFor(cfg, s, d, end)
    ensures SameEnd(cfg.limits, c, d)
  {
    hide BodyStops;
  }

  /** Of the causes that concern one header block, one applies. */
  lemma InHeadOnce(cfg: Config, s: Bytes, p: Place, c: Cause, d: Cause)
    requires Stops(cfg, s, p, c) && Stops(cfg, s, p, d) && InHead(c) && InHead(d)
    ensures SameEnd(cfg.limits, c, d)
  {
    hide Stops;
    HeadOrNone(cfg, s, p, c);
    HeadOrNone(cfg, s, p, d);
    HeadIsDetermined(cfg.grammar, s, p.start, HeadOf(c).end, HeadOf(c).info, HeadOf(d).end, HeadOf(d).info);
    HeadDecides(cfg, s, p, c);
    HeadDecides(cfg, s, p, d);
    if InItsBody(c) && InItsBody(d) {
      var e1 := BodyEnds(cfg, s, p, c);
      var e2 := BodyEnds(cfg, s, p, d);
      OneBodyEnd(cfg, s, c, d, e1, e2);
      BodyDecides(cfg, s, c, d, e1);
    }
  }

  lemma OneBodyEnd(cfg: Config, s: Bytes, c: Cause, d: Cause, e1: nat, e2: nat)
    requires InItsBody(c) && InItsBody(d) && c.head == d.head
    requires BodyEndsFor(cfg, s, c, e1) && BodyEndsFor(cfg, s, d, e2)
    ensures e1 == e2
  {
    hide BodyStops;
    BodyStopsOnce(cfg, s, c.head, e1, e2);
  }

  /** Before the body, the header block decides. */
  lemma HeadDecides(cfg: Config, s: Bytes, p: Place, cause: Cause)
    requires Stops(cfg, s, p, cause) && InHead(cause)
    ensures var info := HeadOf(cause).info;
            && (cause.BadVersion? <==> !VersionSupported(cfg, info))
            && (cause.BadExpectation? <==> VersionSupported(cfg, info) && info.expectation == UnsupportedExpectation)
            && (cause.BodyTooLong? && info.declared == cause.size <==>
                  && VersionSupported(cfg, info) && info.expectation != UnsupportedExpectation
                  && info.declared > cfg.limits.bodyBytes)
            && (cause.InterimTooLong? <==>
                  && VersionSupported(cfg, info) && info.expectation != UnsupportedExpectation
                  && info.declared <= cfg.limits.bodyBytes && !InterimAllowed(cfg, info))
            && (InItsBody(cause) <==>
                  VersionSupported(cfg, info) && info.expectation != UnsupportedExpectation && InterimAllowed(cfg, info))
  {
    hide BodyStops, HeadAt, BodyAt, BodyWithin, VersionSupported;
  }

  /** Where the parser stops for want of a header block within the limit, it
      stops in one place, unless the read cap has a say. */
  lemma AtHeadOnce(cfg: Config, s: Bytes, p: Place, c: Cause, d: Cause)
    requires Stops(cfg, s, p, c) && Stops(cfg, s, p, d) && AtHead(c) && AtHead(d) && !CapReached(cfg, s, p.start, 0)
    ensures SameEnd(cfg.limits, c, d)
  {
    var e1 := DecidedAt(cfg, s, p, c);
    var e2 := DecidedAt(cfg, s, p, d);
    hide Stops;
    DecidedOnce(cfg, s, p.start, e1, e2);
  }

  /** The first front that is decided on, or the whole stream if none is. */
  ghost predicate FirstDecision(g: Grammar, s: Bytes, start: nat, end: nat) {
    HeadEndsAt(g, s, start, end) || HeadRefusedAt(g, s, start, end) || (end == |s| && Undecided(g, s, start, end))
  }

  lemma DecidedOnce(cfg: Config, s: Bytes, start: nat, e1: nat, e2: nat)
    requires FirstDecision(cfg.grammar, s, start, e1) && FirstDecision(cfg.grammar, s, start, e2)
    ensures e1 == e2
  {
  }

  lemma DecidedAt(cfg: Config, s: Bytes, p: Place, cause: Cause) returns (end: nat)
    requires Stops(cfg, s, p, cause) && AtHead(cause) && !CapReached(cfg, s, p.start, 0)
    ensures FirstDecision(cfg.grammar, s, p.start, end)
    ensures cause.HeadTooLong? ==> HeadEndsAt(cfg.grammar, s, p.start, end) && p.start + cause.size == end
    ensures cause.BadHead? ==> !HeadEndsAt(cfg.grammar, s, p.start, end) && cause.position == end
  {
    end := if cause.HeadTooLong? then p.start + cause.size else cause.position;
    CapStays(cfg, s, p.start, cause.buffered);
  }

  lemma CapStays(cfg: Config, s: Bytes, start: nat, buffered: nat)
    requires !CapReached(cfg, s, start, 0)
    ensures !CapReached(cfg, s, start, buffered)
  {
  }

  /** At one place in a stream an undisturbed connection can stop for one
      reason only, with one record of it, unless the parser came to the read cap. */
  lemma StopsOnce(cfg: Config, s: Bytes, p: Place, c: Cause, d: Cause)
    requires Stops(cfg, s, p, c) && Stops(cfg, s, p, d)
    ensures SameEnd(cfg.limits, c, d) || (AtHead(c) && AtHead(d) && CapReached(cfg, s, p.start, 0))
  {
    HeadOrNone(cfg, s, p, c);
    HeadOrNone(cfg, s, p, d);
    hide HeadAt, BodyStops, BodyAt, BodyWithin, StopsAtSize, HeadTaken, HeadPasses, RequestTaken, CapReached;
    if AtHead(c) && AtHead(d) {
      if !CapReached(cfg, s, p.start, 0) {
        AtHeadOnce(cfg, s, p, c, d);
      }
    } else if InHead(c) && InHead(d) {
      InHeadOnce(cfg, s, p, c, d);
    } else {
      OnlyOneKind(cfg, s, p, c, d);
    }
  }

  /** A header block within the limit, the lack of one, and the end of the stream or of the last exchange exclude each other. */
  lemma OnlyOneKind(cfg: Config, s: Bytes, p: Place, c: Cause, d: Cause)
    requires Stops(cfg, s, p, c) && Stops(cfg, s, p, d) && !(AtHead(c) && AtHead(d)) && !(InHead(c) && InHead(d))
    ensures SameEnd(cfg.limits, c, d)
  {
    HeadOrNone(cfg, s, p, c);
    HeadOrNone(cfg, s, p, d);
    hide BodyStops, BodyAt, BodyWithin, StopsAtSize, HeadTaken, HeadPasses, RequestTaken, CapReached;
  }

  // ---------- twins ----------

  /** An undisturbed connection with the same peer. */
  ghost predicate Twin(cfg: Config, l: Life, m: Life, d: Cause) {
    m.incoming == l.incoming && Lived(cfg, m, d) && Calm(cfg, m)
  }

  lemma TwinsStopAlike(cfg: Config, l: Life, c: Cause, m: Life, d: Cause)
    requires ValidService(cfg.service, cfg.limits.responseBytes) && cfg.limits.requests >= 1
    requires Twin(cfg, l, l, c) && Twin(cfg, l, m, d)
    ensures PlaceOf(l.exchanges) == PlaceOf(m.exchanges)
  {
    hide ValidService, Lived, Calm;
    CalmLivesAgree(cfg, l, c, m, d);
    SamePlace(l.exchanges, l.sent, m.exchanges, m.sent);
  }

  lemma SamePlace(a: seq<Exchange>, sentA: Bytes, b: seq<Exchange>, sentB: Bytes)
    requires |a| == |b| && forall i | 0 <= i < |a| :: SameOutcome(a[i], sentA, b[i], sentB)
    ensures PlaceOf(a) == PlaceOf(b)
  {
    forall i | 0 <= i < |a|
      ensures a[i].complete == b[i].complete && a[i].selection == b[i].selection
      ensures a[i].info == b[i].info && a[i].requestEnd == b[i].requestEnd
    {
      assert SameOutcome(a[i], sentA, b[i], sentB);
    }
  }

  /** Two undisturbed connections with the same peer end for the same reason,
      with the same record of it, unless the header block behind the last
      exchange is still undecided after all that the read cap lets through. */
  lemma CalmEndsAgree(cfg: Config, l: Life, c: Cause, m: Life, d: Cause)
    requires ValidService(cfg.service, cfg.limits.responseBytes) && cfg.limits.requests >= 1
    requires Twin(cfg, l, l, c) && Twin(cfg, l, m, d)
    ensures SameEnd(cfg.limits, c, d) || (AtHead(c) && AtHead(d) && CapReached(cfg, l.incoming, RequestEnd(l.exchanges), 0))
  {
    hide ValidService, Lived, Calm, Stops, CapReached;
    TwinsStopAlike(cfg, l, c, m, d);
    CalmStops(cfg, l, c);
    CalmStops(cfg, m, d);
    StopsOnce(cfg, l.incoming, PlaceOf(l.exchanges), c, d);
  }

  // ---------- when the reasons can differ ----------

  /** With so much buffered, the attempt can end for the header limit. */
  ghost predicate LimitAt(cfg: Config, s: Bytes, p: Place, buffered: nat, end: nat) {
    var g := cfg.grammar;
    && Room(s, p, buffered) && cfg.limits.headerBytes < end - p.start <= buffered + ReadCap(cfg)
    && (HeadEndsAt(g, s, p.start, end)
        || (end == p.start + buffered + ReadCap(cfg) && Undecided(g, s, p.start, end) && !CutAt(g, s, p.start, end)))
  }

  /** With so much buffered, the attempt can end as a parser failure. */
  ghost predicate ParserAt(cfg: Config, s: Bytes, p: Place, buffered: nat, end: nat) {
    var g := cfg.grammar;
    && Room(s, p, buffered) && p.start < end <= p.start + buffered + ReadCap(cfg)
    && (HeadRefusedAt(g, s, p.start, end)
        || (Undecided(g, s, p.start, end)
            && (end == |s| || (end == p.start + buffered + ReadCap(cfg) && CutAt(g, s, p.start, end)))))
  }

  /** The peer's stream behind the last exchange leaves both open, depending on
      how much of it the read before happened to bring along. */
  ghost predicate MayDiffer(cfg: Config, s: Bytes, p: Place) {
    && p.goesOn && p.count < cfg.limits.requests
    && (exists b: nat, end: nat :: LimitAt(cfg, s, p, b, end))
    && (exists b: nat, end: nat :: ParserAt(cfg, s, p, b, end))
  }

  ghost predicate Differ(cfg: Config, l: Life) {
    exists m1, d1, m2, d2 :: Twin(cfg, l, m1, d1) && Twin(cfg, l, m2, d2) && ReasonOf(d1) != ReasonOf(d2)
  }

  lemma DifferingEnds(cfg: Config, s: Bytes, p: Place, c: Cause, d: Cause)
    requires Stops(cfg, s, p, c) && Stops(cfg, s, p, d) && ReasonOf(c) != ReasonOf(d)
    ensures MayDiffer(cfg, s, p)
  {
    StopsOnce(cfg, s, p, c, d);
    hide HeadEndsAt, HeadRefusedAt, Undecided, CutAt;
    var long, bad := if c.HeadTooLong? then c else d, if c.HeadTooLong? then d else c;
    assert LimitAt(cfg, s, p, long.buffered, p.start + long.size);
    assert ParserAt(cfg, s, p, bad.buffered, bad.position);
  }

  /** The same connection, had it stopped here, and captured what followed. */
  function Until(cfg: Config, l: Life, end: nat): Life {
    l.(requests := |l.exchanges|, bytesIn := Min(|l.incoming|, end + cfg.limits.postFailureBytes), plainEnd := end,
       answers := l.answers + AT_HEAD, late := Some({}))
  }

  lemma AskedOnceMore(answers: seq<Sighting>)
    requires AllQuiet(answers)
    ensures AllQuiet(answers + AT_HEAD) && EndsWith(answers + AT_HEAD, AT_HEAD)
    ensures Looks(answers + AT_HEAD) >= Looks(answers)
  {
    hide Looks;
    LooksStay(answers, AT_HEAD);
  }

  lemma UntilIsRight(cfg: Config, l: Life, c: Cause, end: nat, d: Cause)
    requires Twin(cfg, l, l, c) && |l.incoming| + |l.sent| < cfg.limits.connectionBytes
    requires RequestEnd(l.exchanges) <= end <= |l.incoming| && |l.exchanges| <= cfg.limits.requests
    requires Because(cfg, Until(cfg, l, end), d) && AtHead(d)
    ensures Twin(cfg, l, Until(cfg, l, end), d)
  {
    hide Because, Chained, InterimsWhole, Looks;
    AskedOnceMore(l.answers);
  }

  lemma LimitHappens(cfg: Config, l: Life, c: Cause, buffered: nat, end: nat) returns (m: Life, d: Cause)
    requires Twin(cfg, l, l, c) && |l.incoming| + |l.sent| < cfg.limits.connectionBytes
    requires PlaceOf(l.exchanges).goesOn && |l.exchanges| < cfg.limits.requests
    requires LimitAt(cfg, l.incoming, PlaceOf(l.exchanges), buffered, end)
    ensures Twin(cfg, l, m, d) && ReasonOf(d) == CLOSE_LIMIT_REACHED
  {
    hide Lived, Calm, AllGoOn;
    var start := RequestEnd(l.exchanges);
    var stop := Max(end, start + buffered);
    m, d := Until(cfg, l, stop), HeadTooLong(end - start, buffered);
    NoneWithin(cfg, l.incoming, start, buffered, end);
    hide NoHeadWithin, HeadEndsAt, Undecided, CutAt;
    assert Because(cfg, m, d);
    UntilIsRight(cfg, l, c, stop, d);
  }

  lemma NoneWithin(cfg: Config, s: Bytes, start: nat, buffered: nat, end: nat)
    requires start + cfg.limits.headerBytes < end <= |s|
    requires HeadEndsAt(cfg.grammar, s, start, end) || Undecided(cfg.grammar, s, start, end)
    ensures NoHeadWithin(cfg.grammar, s, start, cfg.limits.headerBytes)
  {
    forall other: nat, info | HeadAt(cfg.grammar, s, start, other, info)
      ensures other - start > cfg.limits.headerBytes
    {
    }
  }

  lemma ParserHappens(cfg: Config, l: Life, c: Cause, buffered: nat, end: nat) returns (m: Life, d: Cause)
    requires Twin(cfg, l, l, c) && |l.incoming| + |l.sent| < cfg.limits.connectionBytes
    requires PlaceOf(l.exchanges).goesOn && |l.exchanges| < cfg.limits.requests
    requires ParserAt(cfg, l.incoming, PlaceOf(l.exchanges), buffered, end)
    ensures Twin(cfg, l, m, d) && ReasonOf(d) == CLOSE_PARSER_FAILURE
  {
    hide Lived, Calm, AllGoOn;
    var start := RequestEnd(l.exchanges);
    var stop := if HeadRefusedAt(cfg.grammar, l.incoming, start, end) then Max(end, start + buffered) else end;
    m, d := Until(cfg, l, stop), BadHead(end, buffered);
    Reaches(cfg, l.incoming, PlaceOf(l.exchanges), buffered, end);
    hide HeadRefusedAt, Undecided, CutAt;
    assert Because(cfg, m, d);
    UntilIsRight(cfg, l, c, stop, d);
  }

  lemma Reaches(cfg: Config, s: Bytes, p: Place, buffered: nat, end: nat)
    requires ParserAt(cfg, s, p, buffered, end)
    ensures end <= |s|
    ensures HeadRefusedAt(cfg.grammar, s, p.start, end) || p.start + buffered <= end
  {
  }

  /** The reasons of undisturbed connections with one peer can differ if and
      only if the peer's stream leaves both open, given room in the byte budget. */
  lemma ReasonsDifferExactly(cfg: Config, l: Life, c: Cause)
    requires ValidService(cfg.service, cfg.limits.responseBytes) && cfg.limits.requests >= 1
    requires Twin(cfg, l, l, c) && |l.incoming| + |l.sent| < cfg.limits.connectionBytes
    ensures Differ(cfg, l) <==> MayDiffer(cfg, l.incoming, PlaceOf(l.exchanges))
  {
    hide ValidService, Lived, Calm, Stops, LimitAt, ParserAt, AllGoOn;
    var p := PlaceOf(l.exchanges);
    if Differ(cfg, l) {
      var m1, d1, m2, d2 :| Twin(cfg, l, m1, d1) && Twin(cfg, l, m2, d2) && ReasonOf(d1) != ReasonOf(d2);
      TwinsStopAlike(cfg, l, c, m1, d1);
      TwinsStopAlike(cfg, l, c, m2, d2);
      CalmStops(cfg, m1, d1);
      CalmStops(cfg, m2, d2);
      DifferingEnds(cfg, l.incoming, p, d1, d2);
    }
    if MayDiffer(cfg, l.incoming, p) {
      var b1: nat, e1: nat :| LimitAt(cfg, l.incoming, p, b1, e1);
      var b2: nat, e2: nat :| ParserAt(cfg, l.incoming, p, b2, e2);
      var m1, d1 := LimitHappens(cfg, l, c, b1, e1);
      var m2, d2 := ParserHappens(cfg, l, c, b2, e2);
      assert Differ(cfg, l);
    }
  }

  // ---------- and they do ----------

  /** A request, and then more than the read cap lets through without a decision. */
  function LongStream(): Bytes {
    [1] + seq(4200, i => 0)
  }

  lemma LongStreamIsUndecided(lost: nat, end: nat)
    requires 1 <= end <= |LongStream()|
    ensures Undecided(SampleGrammar(lost), LongStream(), 1, end)
  {
    var s := LongStream();
    forall k | 1 < k <= end
      ensures SampleHead(s[1..k]) == NeedMore
    {
      assert s[1..k][0] == 0;
    }
  }

  ghost function LongConfig(): Config {
    SampleConfig(|SampleResponse()| + 2, |SampleResponse()| + 10000, 4113)
  }

  /** Its first request answered, and read so far. */
  ghost function LongLife(end: nat): Life {
    var size := |SampleResponse()|;
    Life(LongStream(), SampleResponse()[..size], [SampleExchange(size)], 1, Min(|LongStream()|, end + 16), end, {},
         ANSWERED + AT_HEAD, Some({}), true)
  }

  lemma LongLifeStoodOpen(end: nat)
    ensures StoodOpen(LongConfig(), LongLife(end)) && RequestEnd(LongLife(end).exchanges) == 1
    ensures ReadCap(LongConfig()) == 4112 && LongConfig().grammar == SampleGrammar(4113)
  {
    hide SampleResponse;
  }

  lemma LongLifeIsLived(end: nat, cause: Cause)
    requires 1 <= end <= |LongStream()| && Because(LongConfig(), LongLife(end), cause) && AtHead(cause)
    ensures Twin(LongConfig(), LongLife(4113), LongLife(end), cause)
  {
    hide Because, Chained, InterimsWhole, SampleResponse, LongStream, SampleConfig, SampleExchange, Looks;
    LongLifeNumbers(end);
    AnsweredIsQuiet();
    AskedOnceMore(ANSWERED);
    LongIsLong();
    SampleIsChained(|SampleResponse()| + 2, |SampleResponse()| + 10000, 4113, LongStream(), |SampleResponse()|);
  }

  lemma LongLifeNumbers(end: nat)
    ensures var cfg, l := LongConfig(), LongLife(end);
            && RequestEnd(l.exchanges) == 1 && ResponseEnd(l.exchanges) == |l.sent| == |SampleResponse()|
            && cfg.limits.requests == 4 && cfg.limits.connectionBytes == |SampleResponse()| + 10000
            && cfg.limits.postFailureBytes == 16
            && InterimsWhole(l.exchanges)
  {
    hide SampleResponse;
  }

  lemma LongIsLong()
    ensures |LongStream()| == 4201 && LongStream()[0] == 1
  {
  }

  lemma NothingBufferedIsTooLong()
    ensures Because(LongConfig(), LongLife(4113), HeadTooLong(4112, 0))
  {
    hide LongStream, SampleResponse, Undecided, StoodOpen, SampleConfig, SampleExchange, LongConfig, NoHeadWithin;
    LongLifeStoodOpen(4113);
    LongStreamIsUndecided(4113, 4113);
    LongIsLong();
    HeaderLimitIs16();
    NoneWithin(LongConfig(), LongStream(), 1, 0, 4113);
  }

  lemma HeaderLimitIs16()
    ensures LongConfig().limits.headerBytes == 16
  {
    hide SampleResponse;
  }

  lemma OneBufferedIsBad()
    ensures Because(LongConfig(), LongLife(4114), BadHead(4114, 1))
  {
    hide LongStream, SampleResponse, Undecided, StoodOpen, SampleConfig, SampleExchange, LongConfig;
    LongLifeStoodOpen(4114);
    LongStreamIsUndecided(4113, 4114);
    LongIsLong();
  }

  /** Two undisturbed connections with one peer, under a valid configuration,
      whose exchanges are the same and whose reasons differ: behind the first
      request, one had nothing buffered and ran into the read cap, the other
      had one byte, and the cap cut a line that is refused. */
  lemma ReasonsCanDiffer()
    ensures var cfg, l, m := LongConfig(), LongLife(4113), LongLife(4114);
            && ValidConfig(cfg) && l.exchanges == m.exchanges != []
            && Twin(cfg, l, l, HeadTooLong(4112, 0)) && Twin(cfg, l, m, BadHead(4114, 1))
            && ReasonOf(HeadTooLong(4112, 0)) == CLOSE_LIMIT_REACHED && ReasonOf(BadHead(4114, 1)) == CLOSE_PARSER_FAILURE
  {
    hide ValidConfig, Because, SampleResponse, Twin, LongStream;
    SampleConfigIsValid(|SampleResponse()| + 2, |SampleResponse()| + 10000, 4113);
    LongIsLong();
    NothingBufferedIsTooLong();
    OneBufferedIsBad();
    LongLifeIsLived(4113, HeadTooLong(4112, 0));
    LongLifeIsLived(4114, BadHead(4114, 1));
  }
}
