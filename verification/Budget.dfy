/** The interim line and the byte budget: the guard, computed from the peer's
    stream and the limits (handleConnection, internal/engine/connection.go). */
module Budget {
  import opened Wrappers
  import opened Bytes
  import opened Ids
  import opened Format
  import opened Drafts
  import opened Headers
  import opened Rendering
  import opened Routes
  import opened ConnectionIO
  import opened Parsing
  import opened Lives
  import opened Exchanges
  import opened Samples
  import opened Endings

  /** Behind these exchanges a header block asks for the interim line, and the
      byte budget ends before the line would; but not before the responses to
      the exchanges do, however far the connection has read ahead by then. */
  ghost predicate BudgetEndsInInterim(cfg: Config, incoming: Bytes, sent: Bytes, es: seq<Exchange>, head: Head) {
    && Chained(cfg, incoming, sent, es) && AllGoOn(es) && InterimsWhole(es) && |es| < cfg.limits.requests
    && HeadTaken(cfg, incoming, RequestEnd(es), head.end, head.info) && WantsInterim(head.info) && InterimAllowed(cfg, head.info)
    && ResponseEnd(es) + head.end <= cfg.limits.connectionBytes < ResponseEnd(es) + head.end + |INTERIM|
    && (es == [] || ResponseEnd(es) + Min(|incoming|, RequestEnd(es) + BUFFER_SIZE - 1) <= cfg.limits.connectionBytes)
  }

  /** No event, no error of the socket, no refused record. */
  ghost predicate Undisturbed(l: Life) {
    l.healthy && l.faults == {} && AllQuiet(l.answers)
  }

  lemma UndisturbedCauses(cfg: Config, l: Life, cause: Cause)
    requires Undisturbed(l) && Because(cfg, l, cause)
    ensures NothingLeft(cause) || AfterRequest(cause) || cause.BytesUsedUp? || cause.InterimCut?
    ensures NothingLeft(cause) || cause.InterimCut? || (cause.BytesUsedUp? && !cause.stage.InAnswer?) ==> StoodOpen(cfg, l)
  {
    hide EndsWith;
    QuietHasNoYes(l.answers, Cancelled);
    QuietHasNoYes(l.answers, LifetimeOver);
    QuietHasNoYes(l.answers, SetupFailed);
    QuietHasNoYes(l.answers, StreamOver);
    QuietHasNoYes(l.answers, HandshakeFailed);
    hide HeadTaken, RequestTaken, Promised, Rendered, OpensTunnel, InterimAllowed, InterimUnfinished;
    hide NoHeadWithin, BodyAt, AllGoOn, AnswerCutOff;
  }

  // ---------- where both have complete exchanges, the same bytes were sent ----------

  lemma {:induction false} SameResponseEnd(cfg: Config, incoming: Bytes, sentA: Bytes, a: seq<Exchange>, sentB: Bytes,
                                           b: seq<Exchange>, n: nat)
    requires Chained(cfg, incoming, sentA, a) && Chained(cfg, incoming, sentB, b) && InterimsWhole(a) && InterimsWhole(b)
    requires n <= |a| && n <= |b| && forall i | 0 <= i < n :: SameExchange(a[i], b[i]) && a[i].complete && b[i].complete
    ensures ResponseEnd(a[..n]) == ResponseEnd(b[..n]) && RequestEnd(a[..n]) == RequestEnd(b[..n])
    decreases n
  {
    hide ExchangeOk, InterimsWhole, Rendered, ContextOf;
    if n > 0 {
      SameResponseEnd(cfg, incoming, sentA, a, sentB, b, n - 1);
      assert Link(cfg, incoming, sentA, a, n - 1) && Link(cfg, incoming, sentB, b, n - 1);
      CompleteSize(cfg, incoming, sentA, a, n - 1);
      CompleteSize(cfg, incoming, sentB, b, n - 1);
      assert a[..n][n - 1] == a[n - 1] && b[..n][n - 1] == b[n - 1];
    }
  }

  lemma CompleteSize(cfg: Config, incoming: Bytes, sent: Bytes, es: seq<Exchange>, i: nat)
    requires Chained(cfg, incoming, sent, es) && InterimsWhole(es) && i < |es|
    ensures es[i].interim == InterimSize(es[i].info)
    ensures es[i].complete ==>
              es[i].responseEnd - es[i].responseStart
              == InterimSize(es[i].info) + |Rendered(ContextOf(cfg, es[i].info), es[i].selection.plan)|
  {
    hide Answers, Rendered;
    assert Link(cfg, incoming, sent, es, i);
  }

  // ---------- such a connection reaches that header block ----------

  /** A connection with such a peer under such a budget. */
  ghost predicate Faces(cfg: Config, l: Life, cause: Cause, sent: Bytes, es: seq<Exchange>, head: Head) {
    && Lived(cfg, l, cause) && Undisturbed(l) && BudgetEndsInInterim(cfg, l.incoming, sent, es, head)
    && ValidService(cfg.service, cfg.limits.responseBytes) && cfg.limits.requests >= 1
  }

  lemma Given(cfg: Config, l: Life, cause: Cause, sent: Bytes, es: seq<Exchange>, head: Head)
    requires Faces(cfg, l, cause, sent, es, head)
    ensures Chained(cfg, l.incoming, l.sent, l.exchanges) && InterimsWhole(l.exchanges) && Because(cfg, l, cause) && Undisturbed(l)
    ensures Chained(cfg, l.incoming, sent, es) && InterimsWhole(es) && AllGoOn(es) && |es| < cfg.limits.requests
    ensures HeadTaken(cfg, l.incoming, RequestEnd(es), head.end, head.info) && WantsInterim(head.info) && InterimAllowed(cfg, head.info)
    ensures ResponseEnd(es) + head.end <= cfg.limits.connectionBytes < ResponseEnd(es) + head.end + |INTERIM|
    ensures es == [] || ResponseEnd(es) + Min(|l.incoming|, RequestEnd(es) + BUFFER_SIZE - 1) <= cfg.limits.connectionBytes
    ensures RequestEnd(l.exchanges) <= l.plainEnd <= l.bytesIn <= |l.incoming| && ResponseEnd(l.exchanges) <= |l.sent|
    ensures l.bytesIn + |l.sent| <= cfg.limits.connectionBytes && Lived(cfg, l, cause) && ShortWrite !in l.faults
    ensures ValidService(cfg.service, cfg.limits.responseBytes) && cfg.limits.requests >= 1
  {
    hide ValidService, InterimsWhole, Because, Chained, HeadTaken, InterimAllowed, AllGoOn;
  }

  /** Its exchanges and these agree as far as both go, and so do their ends where its own are complete. */
  lemma AgreeSoFar(cfg: Config, l: Life, cause: Cause, sent: Bytes, es: seq<Exchange>, head: Head, n: nat)
    requires Faces(cfg, l, cause, sent, es, head) && n <= |l.exchanges| && n <= |es|
    ensures forall i | 0 <= i < n :: SameExchange(l.exchanges[i], es[i])
    ensures n < |l.exchanges| || AllGoOn(l.exchanges) ==>
              && ResponseEnd(l.exchanges[..n]) == ResponseEnd(es[..n]) && RequestEnd(l.exchanges[..n]) == RequestEnd(es[..n])
  {
    hide ValidService, InterimsWhole, Because, ExchangeOk, HeadTaken, InterimAllowed;
    FragmentationIsInvisible(cfg, l.incoming, l.sent, l.exchanges, sent, es, n);
    if n < |l.exchanges| || AllGoOn(l.exchanges) {
      forall i | 0 <= i < n
        ensures l.exchanges[i].complete && es[i].complete
      {
        assert Link(cfg, l.incoming, l.sent, l.exchanges, i);
      }
      hide Chained;
      SameResponseEnd(cfg, l.incoming, l.sent, l.exchanges, sent, es, n);
    }
  }

  /** An exchange whose header block asks for the interim line takes it all. */
  lemma TakesInterim(cfg: Config, incoming: Bytes, sent: Bytes, es: seq<Exchange>, n: nat, head: Head)
    requires Chained(cfg, incoming, sent, es) && InterimsWhole(es) && n < |es|
    requires HeadTaken(cfg, incoming, RequestEnd(es[..n]), head.end, head.info) && WantsInterim(head.info)
    ensures head.end <= RequestEnd(es) && ResponseEnd(es[..n]) + |INTERIM| <= ResponseEnd(es)
  {
    hide InterimAllowed, Promised, Rendered, OpensTunnel, BodyWithin, BodyAt, InterimsWhole, Sends;
    var e := es[n];
    assert Link(cfg, incoming, sent, es, n);
    HeadIsDetermined(cfg.grammar, incoming, e.requestStart, head.end, head.info, e.headEnd, e.info);
    CompleteSize(cfg, incoming, sent, es, n);
    RangesAreOrdered(cfg, incoming, sent, History(es[..n]), e);
    EndsAscend(cfg, incoming, sent, es, n, |es| - 1);
  }

  /** No exchange comes of the header block itself. */
  lemma NoExchangeBehind(cfg: Config, l: Life, cause: Cause, sent: Bytes, es: seq<Exchange>, head: Head)
    requires Faces(cfg, l, cause, sent, es, head)
    ensures |l.exchanges| <= |es|
  {
    hide Faces, Lived, Chained, InterimsWhole, AllGoOn, HeadTaken, Because, Undisturbed, InterimAllowed, ValidService;
    Given(cfg, l, cause, sent, es, head);
    var n := |es|;
    if n < |l.exchanges| {
      AgreeSoFar(cfg, l, cause, sent, es, head, n);
      assert es[..n] == es;
      TakesInterim(cfg, l.incoming, l.sent, l.exchanges, n, head);
    }
  }

  /** What the next of these exchanges needs of the byte budget is there. */
  lemma BudgetReaches(cfg: Config, incoming: Bytes, sent: Bytes, es: seq<Exchange>, head: Head, k: nat)
    requires BudgetEndsInInterim(cfg, incoming, sent, es, head) && k < |es|
    ensures ResponseEnd(es[..k]) + InterimSize(es[k].info) <= es[k].responseEnd <= ResponseEnd(es)
    ensures RequestEnd(es[..k]) < es[k].headEnd <= es[k].requestEnd <= RequestEnd(es) < head.end
    ensures RequestTaken(cfg, incoming, RequestEnd(es[..k]), es[k].headEnd, es[k].requestEnd, es[k].info)
  {
    hide InterimAllowed, AllGoOn, Promised, Rendered, OpensTunnel, BodyWithin, BodyAt, InterimsWhole;
    assert Link(cfg, incoming, sent, es, k);
    CompleteSize(cfg, incoming, sent, es, k);
    RangesAreOrdered(cfg, incoming, sent, History(es[..k]), es[k]);
    EndsAscend(cfg, incoming, sent, es, k, |es| - 1);
  }

  /** The response that was cut off is one that was sent in full here. */
  lemma NoAnswerIsCutOff(cfg: Config, l: Life, cause: Cause, sent: Bytes, es: seq<Exchange>, head: Head)
    requires Faces(cfg, l, cause, sent, es, head) && |l.exchanges| <= |es|
    ensures cause != BytesUsedUp(InAnswer)
  {
    hide Faces, Lived, Chained, InterimsWhole, AllGoOn, HeadTaken, Because, InterimAllowed, ValidService, RequestTaken;
    hide SameExchange;
    Given(cfg, l, cause, sent, es, head);
    if cause == BytesUsedUp(InAnswer) {
      CutOffFacts(cfg, l);
      var k := |l.exchanges| - 1;
      AgreeSoFar(cfg, l, cause, sent, es, head, k + 1);
      AgreeSoFar(cfg, l, cause, sent, es, head, k);
      BudgetReaches(cfg, l.incoming, sent, es, head, k);
      ShorterThanComplete(cfg, l, sent, es, k);
    }
  }

  lemma CutOffFacts(cfg: Config, l: Life)
    requires Because(cfg, l, BytesUsedUp(InAnswer))
    ensures AnswerCutOff(cfg, l) && l.exchanges != [] && Exhausted(cfg, l)
    ensures |l.sent| == ResponseEnd(l.exchanges) && l.plainEnd < RequestEnd(l.exchanges) + BUFFER_SIZE
  {
    hide Rendered;
  }

  /** It ends before the complete one does, and behind the same request. */
  lemma ShorterThanComplete(cfg: Config, l: Life, sent: Bytes, es: seq<Exchange>, k: nat)
    requires Chained(cfg, l.incoming, l.sent, l.exchanges) && Chained(cfg, l.incoming, sent, es) && AllGoOn(es)
    requires InterimsWhole(l.exchanges) && InterimsWhole(es) && |l.exchanges| == k + 1 <= |es| && AnswerCutOff(cfg, l)
    requires SameExchange(l.exchanges[k], es[k]) && ResponseEnd(l.exchanges[..k]) == ResponseEnd(es[..k])
    ensures ResponseEnd(l.exchanges) < es[k].responseEnd && RequestEnd(l.exchanges) == es[k].requestEnd
  {
    hide InterimsWhole, AllGoOn, ExchangeOk, Rendered;
    assert Link(cfg, l.incoming, l.sent, l.exchanges, k) && Link(cfg, l.incoming, sent, es, k);
    CompleteSize(cfg, l.incoming, l.sent, l.exchanges, k);
    CompleteSize(cfg, l.incoming, sent, es, k);
    AllComplete(es, k);
  }

  lemma AllComplete(es: seq<Exchange>, i: nat)
    requires AllGoOn(es) && i < |es|
    ensures es[i].complete && !es[i].selection.plan.close
  {
  }

  /** Nothing that follows a request ended the connection early. */
  lemma NotAfterARequest(cfg: Config, l: Life, cause: Cause, sent: Bytes, es: seq<Exchange>, head: Head)
    requires Faces(cfg, l, cause, sent, es, head) && |l.exchanges| < |es|
    ensures !AfterRequest(cause)
  {
    hide Faces, Lived, Chained, InterimsWhole, AllGoOn, HeadTaken, Because, Undisturbed, InterimAllowed;
    hide ValidService, SameExchange;
    hide RequestEnd, ResponseEnd;
    Given(cfg, l, cause, sent, es, head);
    var k := |l.exchanges|;
    AgreeSoFar(cfg, l, cause, sent, es, head, k);
    if cause.ConnectRefused? {
      assert l.exchanges[..k] == l.exchanges;
      SameHistory(l.exchanges, es[..k]);
      RefusedGoesOn(cfg, l, cause);
      TunnelIsTunnel(cfg, l, cause, sent, es);
    } else if AfterRequest(cause) {
      LastEnds(cfg, l, cause, sent, es);
    }
  }

  lemma RefusedGoesOn(cfg: Config, l: Life, cause: Cause)
    requires Because(cfg, l, cause) && cause.ConnectRefused?
    ensures AllGoOn(l.exchanges)
  {
    hide RequestTaken, Promised, OpensTunnel;
  }

  /** A body that is read here goes on to its end there. */
  lemma BodyGoesOn(cfg: Config, l: Life, head: Head, end: nat, headEnd: nat, requestEnd: nat, info: RequestInfo)
    requires BodyRead(cfg, l, head, end) && RequestTaken(cfg, l.incoming, RequestEnd(l.exchanges), headEnd, requestEnd, info)
    ensures head == Head(headEnd, info) && end <= requestEnd <= |l.incoming|
    ensures cfg.grammar.body(info, l.incoming[headEnd..end]).BodyMore? || end == requestEnd
    ensures cfg.grammar.body(info, l.incoming[headEnd..requestEnd]).BodyDone?
    ensures DecodedSize(cfg.grammar.body(info, l.incoming[headEnd..end])) <= cfg.limits.bodyBytes
  {
    hide AllGoOn, InterimAllowed;
    HeadIsDetermined(cfg.grammar, l.incoming, RequestEnd(l.exchanges), head.end, head.info, headEnd, info);
  }

  /** Nor did anything about the next request's header block. */
  lemma NotAtTheNext(cfg: Config, l: Life, cause: Cause, sent: Bytes, es: seq<Exchange>, head: Head)
    requires Faces(cfg, l, cause, sent, es, head) && |l.exchanges| < |es| && StoodOpen(cfg, l)
    ensures !NothingLeft(cause) && !cause.BytesUsedUp? && !cause.InterimCut?
  {
    hide Faces, Lived, Chained, InterimsWhole, AllGoOn, HeadTaken, Because, InterimAllowed, ValidService;
    hide SameExchange, RequestTaken;
    Given(cfg, l, cause, sent, es, head);
    var k := |l.exchanges|;
    OpenGoesOn(cfg, l);
    AgreeSoFar(cfg, l, cause, sent, es, head, k);
    assert l.exchanges[..k] == l.exchanges;
    BudgetReaches(cfg, l.incoming, sent, es, head, k);
    NoAnswerIsCutOff(cfg, l, cause, sent, es, head);
    NextIsNotTaken(cfg, l, cause, es[k].headEnd, es[k].requestEnd, es[k].info);
  }

  lemma OpenGoesOn(cfg: Config, l: Life)
    requires StoodOpen(cfg, l)
    ensures AllGoOn(l.exchanges)
  {
  }

  /** An acceptable request that the byte budget has room for, interim line and
      all, is not what an undisturbed connection ends at. */
  lemma NextIsNotTaken(cfg: Config, l: Life, cause: Cause, headEnd: nat, end: nat, info: RequestInfo)
    requires Undisturbed(l) && StoodOpen(cfg, l) && Because(cfg, l, cause) && l.plainEnd <= |l.incoming|
    requires RequestTaken(cfg, l.incoming, RequestEnd(l.exchanges), headEnd, end, info)
    requires ResponseEnd(l.exchanges) + InterimSize(info) + end < cfg.limits.connectionBytes
    requires ResponseEnd(l.exchanges) + InterimSize(info) + Min(|l.incoming|, end + BUFFER_SIZE - 1) <= cfg.limits.connectionBytes
    ensures !NothingLeft(cause) && !cause.InterimCut? && (cause.BytesUsedUp? ==> cause.stage.InAnswer?)
  {
    hide HeadTaken, RequestTaken, InterimAllowed, AllGoOn, Because, StoodOpen, Undisturbed;
    if NothingLeft(cause) {
      if cause.BadBody? && Exhausted(cfg, l) {
        StarvedBodyGoesOn(cfg, l, cause, headEnd, end, info);
      } else {
        QuietFacts(l);
        NoRequestFollows(cfg, l, cause, headEnd, end, info);
      }
    } else if cause.BytesUsedUp? && !cause.stage.InAnswer? {
      StarvedBodyGoesOn(cfg, l, cause, headEnd, end, info);
    } else if cause.InterimCut? {
      CutInterimFits(cfg, l, cause, headEnd, end, info);
    }
  }

  lemma QuietFacts(l: Life)
    requires Undisturbed(l)
    ensures l.healthy && l.faults == {}
  {
  }

  /** With the byte budget used up, more than this request has been received, which it would have been found in. */
  lemma StarvedBodyGoesOn(cfg: Config, l: Life, cause: Cause, headEnd: nat, end: nat, info: RequestInfo)
    requires Undisturbed(l) && Because(cfg, l, cause) && l.plainEnd <= |l.incoming|
    requires ResponseEnd(l.exchanges) + InterimSize(info) + end < cfg.limits.connectionBytes
    requires (cause.BadBody? && Exhausted(cfg, l)) || (cause.BytesUsedUp? && !cause.stage.InAnswer?)
    ensures !RequestTaken(cfg, l.incoming, RequestEnd(l.exchanges), headEnd, end, info)
  {
    if !RequestTaken(cfg, l.incoming, RequestEnd(l.exchanges), headEnd, end, info) {
    } else if cause.BadBody? {
      BodyGoesOn(cfg, l, cause.head, cause.end, headEnd, end, info);
      hide BodyUnfinished, FrontsWithin, HeadAt, BodyAt, BodyWithin, AllGoOn, InterimAllowed, RequestTaken, HeadTaken;
    } else if cause.stage.InBody? {
      BodyGoesOn(cfg, l, cause.stage.head, l.plainEnd, headEnd, end, info);
      hide BodyUnfinished, FrontsWithin, HeadAt, BodyAt, BodyWithin, AllGoOn, InterimAllowed, RequestTaken, HeadTaken;
    } else {
      hide AllGoOn, InterimAllowed, BodyWithin;
    }
  }

  /** The interim line that was cut is this request's, and there was room for it. */
  lemma CutInterimFits(cfg: Config, l: Life, cause: Cause, headEnd: nat, end: nat, info: RequestInfo)
    requires Because(cfg, l, cause) && cause.InterimCut? && l.plainEnd <= |l.incoming|
    requires ResponseEnd(l.exchanges) + InterimSize(info) + Min(|l.incoming|, end + BUFFER_SIZE - 1) <= cfg.limits.connectionBytes
    ensures !RequestTaken(cfg, l.incoming, RequestEnd(l.exchanges), headEnd, end, info)
  {
    hide AllGoOn, InterimAllowed, BodyWithin;
    if RequestTaken(cfg, l.incoming, RequestEnd(l.exchanges), headEnd, end, info) {
      HeadIsDetermined(cfg.grammar, l.incoming, RequestEnd(l.exchanges), headEnd, info, cause.head.end, cause.head.info);
    }
  }

  // ---------- and ends there ----------

  /** All of these exchanges were had. */
  lemma AllAreHad(cfg: Config, l: Life, cause: Cause, sent: Bytes, es: seq<Exchange>, head: Head)
    requires Faces(cfg, l, cause, sent, es, head)
    ensures |l.exchanges| == |es| && forall i | 0 <= i < |es| :: SameExchange(l.exchanges[i], es[i])
  {
    hide Faces, Because, StoodOpen, NothingLeft, AfterRequest, SameExchange;
    NoExchangeBehind(cfg, l, cause, sent, es, head);
    if |l.exchanges| < |es| {
      Given(cfg, l, cause, sent, es, head);
      hide Undisturbed, Lived, Chained, InterimsWhole, AllGoOn, HeadTaken, InterimAllowed, ValidService;
      UndisturbedCauses(cfg, l, cause);
      NotAfterARequest(cfg, l, cause, sent, es, head);
      NoAnswerIsCutOff(cfg, l, cause, sent, es, head);
      if StoodOpen(cfg, l) {
        NotAtTheNext(cfg, l, cause, sent, es, head);
      }
    }
    AgreeSoFar(cfg, l, cause, sent, es, head, |es|);
  }

  /** None of them was the end. */
  lemma NoneWasTheEnd(cfg: Config, l: Life, cause: Cause, sent: Bytes, es: seq<Exchange>, head: Head)
    requires Faces(cfg, l, cause, sent, es, head)
    ensures !cause.ResponseTooLong? && !cause.RequestsUsedUp? && !cause.CloseAsked? && cause != BytesUsedUp(InAnswer)
  {
    hide Faces, Because, SameExchange;
    AllAreHad(cfg, l, cause, sent, es, head);
    NoAnswerIsCutOff(cfg, l, cause, sent, es, head);
    Given(cfg, l, cause, sent, es, head);
    hide Undisturbed, Lived, Chained, InterimsWhole, HeadTaken, InterimAllowed, ValidService;
    if cause.ResponseTooLong? {
      LastFacts(cfg, l, cause);
      AllComplete(es, |es| - 1);
      TooLongIsTooLong(cfg, l, sent, es);
    } else if cause.RequestsUsedUp? || cause.CloseAsked? {
      LastFacts(cfg, l, cause);
      AskedIsAsked(cfg, l, es);
    }
  }

  lemma LastFacts(cfg: Config, l: Life, cause: Cause)
    requires Because(cfg, l, cause) && (cause.ResponseTooLong? || cause.RequestsUsedUp? || cause.CloseAsked?)
    ensures l.exchanges != [] && (cause.RequestsUsedUp? ==> |l.exchanges| == cfg.limits.requests)
    ensures cause.CloseAsked? ==> l.exchanges[|l.exchanges| - 1].info.close
  {
    hide Rendered;
  }

  lemma AskedIsAsked(cfg: Config, l: Life, es: seq<Exchange>)
    requires Chained(cfg, l.incoming, l.sent, l.exchanges) && AllGoOn(es) && |l.exchanges| == |es| > 0
    requires SameExchange(l.exchanges[|es| - 1], es[|es| - 1])
    ensures !l.exchanges[|es| - 1].info.close
  {
    hide ExchangeOk;
    assert Link(cfg, l.incoming, l.sent, l.exchanges, |es| - 1);
    AllComplete(es, |es| - 1);
  }

  /** Behind them, the header block is accepted, and only the interim line can stop there. */
  lemma OnlyTheInterimStops(cfg: Config, l: Life, cause: Cause, head: Head)
    requires Undisturbed(l) && Because(cfg, l, cause) && l.plainEnd + |l.sent| <= cfg.limits.connectionBytes && l.plainEnd <= |l.incoming|
    requires NothingLeft(cause) || cause.ConnectRefused? || cause.InterimCut? || (cause.BytesUsedUp? && !cause.stage.InAnswer?)
    requires HeadTaken(cfg, l.incoming, RequestEnd(l.exchanges), head.end, head.info) && WantsInterim(head.info)
    requires InterimAllowed(cfg, head.info)
    requires ResponseEnd(l.exchanges) + head.end <= cfg.limits.connectionBytes < ResponseEnd(l.exchanges) + head.end + |INTERIM|
    ensures cause.InterimCut?
  {
    hide Promised, Rendered, OpensTunnel, BodyWithin, NoBodyWithin, BodyUnfinished, FrontsWithin, AllGoOn;
    hide InterimAllowed;
    if StoodOpen(cfg, l) {
      AcceptedRulesOut(cfg, l, head, cause);
    }
    if cause.ConnectRefused? {
      HeadIsDetermined(cfg.grammar, l.incoming, RequestEnd(l.exchanges), head.end, head.info, cause.head.end, cause.head.info);
    }
  }

  /** So every undisturbed connection with such a peer answers exactly these
      requests and then closes for the limit, without a record of it. */
  lemma BudgetEndsInInterimUnnoted(cfg: Config, l: Life, connection: ID, notes: seq<Draft>, cause: Cause, sent: Bytes,
                                   es: seq<Exchange>, head: Head)
    requires Faces(cfg, l, cause, sent, es, head) && NotesFit(cfg, l, connection, notes, cause)
    ensures |l.exchanges| == |es| && forall i | 0 <= i < |es| :: SameExchange(l.exchanges[i], es[i])
    ensures ReasonOf(cause) == CLOSE_LIMIT_REACHED && notes == []
  {
    hide Faces, Because, SameExchange, NotesFit;
    AllAreHad(cfg, l, cause, sent, es, head);
    NoneWasTheEnd(cfg, l, cause, sent, es, head);
    Given(cfg, l, cause, sent, es, head);
    UndisturbedCauses(cfg, l, cause);
    EndsAgree(cfg, l, cause, sent, es, head);
    hide Undisturbed, Lived, Chained, InterimsWhole, HeadTaken, InterimAllowed, ValidService, StoodOpen;
    OnlyTheInterimStops(cfg, l, cause, head);
    InterimCutIsUnnoted(cfg, l, connection, notes, cause);
  }

  lemma EndsAgree(cfg: Config, l: Life, cause: Cause, sent: Bytes, es: seq<Exchange>, head: Head)
    requires Faces(cfg, l, cause, sent, es, head) && |l.exchanges| == |es|
    requires NothingLeft(cause) || cause.ConnectRefused? || cause.InterimCut? || (cause.BytesUsedUp? && !cause.stage.InAnswer?)
    ensures RequestEnd(l.exchanges) == RequestEnd(es) && ResponseEnd(l.exchanges) == ResponseEnd(es)
  {
    hide Faces, Because, SameExchange, StoodOpen, AllGoOn, Undisturbed, Lived, Chained, InterimsWhole;
    hide HeadTaken, InterimAllowed;
    hide ValidService, RequestEnd, ResponseEnd;
    Given(cfg, l, cause, sent, es, head);
    UndisturbedCauses(cfg, l, cause);
    if cause.ConnectRefused? {
      RefusedGoesOn(cfg, l, cause);
    } else {
      OpenGoesOn(cfg, l);
    }
    AgreeSoFar(cfg, l, cause, sent, es, head, |es|);
    assert l.exchanges[..|es|] == l.exchanges && es[..|es|] == es;
  }

  lemma InterimCutIsUnnoted(cfg: Config, l: Life, connection: ID, notes: seq<Draft>, cause: Cause)
    requires Because(cfg, l, cause) && cause.InterimCut? && NotesFit(cfg, l, connection, notes, cause)
    ensures notes == [] && ReasonOf(cause) == CLOSE_LIMIT_REACHED
  {
    hide HeadTaken, InterimAllowed, AllGoOn, InterimUnfinished;
  }

  /** It happens: with a valid configuration, to a peer that sends one byte
      and is sent the first one of the interim line. */
  lemma LimitCanGoUnnoted(connection: ID)
    ensures var cfg, head := SampleConfig(100, 2, 0), Head(1, WaitingInfo());
            var l := Life([2], INTERIM[..1], [], 0, 1, 1, {}, AT_REQUEST, None, true);
            && ValidConfig(cfg) && BudgetEndsInInterim(cfg, [2], [], [], head)
            && Lived(cfg, l, InterimCut(head)) && NotesFit(cfg, l, connection, [], InterimCut(head))
            && ReasonOf(InterimCut(head)) == CLOSE_LIMIT_REACHED
  {
    hide ValidConfig, Link, ExchangeOk;
    var cfg, head := SampleConfig(100, 2, 0), Head(1, WaitingInfo());
    SampleConfigIsValid(100, 2, 0);
    assert [2][0..1] == [2];
    assert HeadAt(cfg.grammar, [2], 0, 1, WaitingInfo());
    assert INTERIM[..1][0..] == INTERIM[..1];
    assert Because(cfg, Life([2], INTERIM[..1], [], 0, 1, 1, {}, AT_REQUEST, None, true), InterimCut(head));
  }
}
