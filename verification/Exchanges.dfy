/** What the exchanges of one connection say together: they tile both streams,
    and the peer's stream alone decides them, however the socket splits its
    reads (handleConnection, internal/engine/connection.go). */
module Exchanges {
  import opened Wrappers
  import opened Bytes
  import opened Format
  import opened Drafts
  import opened Ids
  import opened Rebuild
  import opened Headers
  import opened Rendering
  import opened Routes
  import opened Traces
  import opened ConnectionIO
  import opened Parsing
  import opened Lives
  import opened Handling

  // ---------- tiling ----------

  lemma RangesAreOrdered(cfg: Config, incoming: Bytes, sent: Bytes, history: seq<Request>, e: Exchange)
    requires ExchangeOk(cfg, incoming, sent, history, e)
    ensures e.requestStart < e.headEnd <= e.requestEnd <= |incoming|
    ensures e.responseStart + e.interim <= e.responseEnd <= |sent|
  {
    hide Promised, Rendered, BodyWithin, InterimAllowed;
  }

  lemma {:induction false} EndsAscend(cfg: Config, incoming: Bytes, sent: Bytes, es: seq<Exchange>, i: nat, j: nat)
    requires Chained(cfg, incoming, sent, es) && i <= j < |es|
    ensures es[i].requestStart <= es[i].requestEnd && es[i].responseStart <= es[i].responseEnd
    ensures es[i].requestEnd <= es[j].requestEnd && es[i].responseEnd <= es[j].responseEnd
    ensures i < j ==> es[i].requestEnd <= es[j].requestStart && es[i].responseEnd <= es[j].responseStart
    decreases j
  {
    hide ExchangeOk;
    assert Link(cfg, incoming, sent, es, i) && Link(cfg, incoming, sent, es, j);
    RangesAreOrdered(cfg, incoming, sent, History(es[..i]), es[i]);
    RangesAreOrdered(cfg, incoming, sent, History(es[..j]), es[j]);
    if i < j {
      EndsAscend(cfg, incoming, sent, es, i, j - 1);
      assert es[..j][j - 1] == es[j - 1];
    }
  }

  /** The bytes the events call requests, one after the other. */
  function RequestBytes(incoming: Bytes, es: seq<Exchange>): Bytes {
    if es == [] then []
    else
      var e := es[|es| - 1];
      RequestBytes(incoming, es[..|es| - 1])
      + if e.requestStart <= e.requestEnd <= |incoming| then incoming[e.requestStart..e.requestEnd] else []
  }

  /** The bytes the events call responses, one after the other. */
  function ResponseBytes(sent: Bytes, es: seq<Exchange>): Bytes {
    if es == [] then []
    else
      var e := es[|es| - 1];
      ResponseBytes(sent, es[..|es| - 1])
      + if e.responseStart <= e.responseEnd <= |sent| then sent[e.responseStart..e.responseEnd] else []
  }

  lemma FrontChained(cfg: Config, incoming: Bytes, sent: Bytes, es: seq<Exchange>, n: nat)
    requires Chained(cfg, incoming, sent, es) && n <= |es|
    ensures Chained(cfg, incoming, sent, es[..n])
  {
    hide ExchangeOk;
    forall i | 0 <= i < n
      ensures Link(cfg, incoming, sent, es[..n], i)
    {
      assert Link(cfg, incoming, sent, es, i);
      assert es[..n][..i] == es[..i];
    }
  }

  /** The requests follow each other without gap or overlap from the first
      byte received, and the responses from the first byte sent. */
  lemma {:induction false} ExchangesTile(cfg: Config, incoming: Bytes, sent: Bytes, es: seq<Exchange>)
    requires Chained(cfg, incoming, sent, es)
    ensures RequestEnd(es) <= |incoming| && RequestBytes(incoming, es) == incoming[..RequestEnd(es)]
    ensures ResponseEnd(es) <= |sent| && ResponseBytes(sent, es) == sent[..ResponseEnd(es)]
  {
    hide ExchangeOk;
    if es != [] {
      var front := es[..|es| - 1];
      var e := es[|es| - 1];
      FrontChained(cfg, incoming, sent, es, |es| - 1);
      ExchangesTile(cfg, incoming, sent, front);
      assert Link(cfg, incoming, sent, es, |es| - 1);
      RangesAreOrdered(cfg, incoming, sent, History(front), e);
      assert incoming[..e.requestEnd] == incoming[..e.requestStart] + incoming[e.requestStart..e.requestEnd];
      assert sent[..e.responseEnd] == sent[..e.responseStart] + sent[e.responseStart..e.responseEnd];
    }
  }

  /** At most the allowed number of exchanges; only the last one announces the close, and the last one allowed does. */
  lemma OnlyTheLastCloses(cfg: Config, incoming: Bytes, sent: Bytes, es: seq<Exchange>)
    requires Chained(cfg, incoming, sent, es) && cfg.limits.requests >= 1
    ensures |es| <= cfg.limits.requests
    ensures forall i | 0 <= i < |es| - 1 :: !es[i].selection.plan.close && es[i].complete
    ensures |es| == cfg.limits.requests ==> es[|es| - 1].selection.plan.close
  {
    hide ExchangeOk;
    forall i | 0 <= i < |es| - 1
      ensures !es[i].selection.plan.close && es[i].complete
    {
      assert Link(cfg, incoming, sent, es, i);
    }
    if |es| >= cfg.limits.requests {
      assert Link(cfg, incoming, sent, es, cfg.limits.requests - 1);
    }
  }

  // ---------- fragmentation ----------

  /** Two exchanges are the same request, answered by the same choice. */
  ghost predicate SameExchange(a: Exchange, b: Exchange) {
    && a.info == b.info && a.requestStart == b.requestStart && a.headEnd == b.headEnd && a.requestEnd == b.requestEnd
    && a.selection == b.selection
  }

  lemma {:induction false} SameHistory(a: seq<Exchange>, b: seq<Exchange>)
    requires |a| == |b| && forall i | 0 <= i < |a| :: SameExchange(a[i], b[i])
    ensures History(a) == History(b)
  {
  }

  lemma StepIsDetermined(cfg: Config, incoming: Bytes, sentA: Bytes, a: seq<Exchange>, sentB: Bytes, b: seq<Exchange>, i: nat)
    requires ValidService(cfg.service, cfg.limits.responseBytes)
    requires i < |a| && i < |b| && Link(cfg, incoming, sentA, a, i) && Link(cfg, incoming, sentB, b, i)
    requires RequestEnd(a[..i]) == RequestEnd(b[..i]) && History(a[..i]) == History(b[..i])
    ensures SameExchange(a[i], b[i])
  {
    hide BodyAt, BodyWithin, HeadAt, Promised, ValidService, Rendered;
    RequestIsDetermined(cfg.grammar, incoming, a[i].requestStart, a[i].headEnd, a[i].requestEnd, a[i].info,
                        b[i].headEnd, b[i].requestEnd, b[i].info);
    PromiseIsDeterministic(cfg.service, cfg.limits.responseBytes, History(a[..i]), RequestOf(a[i].info),
                           a[i].selection.plan.close, a[i].selection, b[i].selection);
  }

  /** For a fixed peer stream, any two lives of the connection, however the
      socket split its reads and writes, agree on every exchange both reached:
      the same bytes, the same request, the same choice of response. */
  lemma {:induction false} FragmentationIsInvisible(cfg: Config, incoming: Bytes, sentA: Bytes, a: seq<Exchange>,
                                                    sentB: Bytes, b: seq<Exchange>, n: nat)
    requires ValidService(cfg.service, cfg.limits.responseBytes)
    requires Chained(cfg, incoming, sentA, a) && Chained(cfg, incoming, sentB, b)
    requires n <= |a| && n <= |b|
    ensures forall i | 0 <= i < n :: SameExchange(a[i], b[i])
    decreases n
  {
    hide ValidService, ExchangeOk, History;
    if n > 0 {
      FragmentationIsInvisible(cfg, incoming, sentA, a, sentB, b, n - 1);
      SameHistory(a[..n - 1], b[..n - 1]);
      assert Link(cfg, incoming, sentA, a, n - 1) && Link(cfg, incoming, sentB, b, n - 1);
      StepIsDetermined(cfg, incoming, sentA, a, sentB, b, n - 1);
    }
  }

  /** The final response's bytes behind the interim line. */
  ghost function Printed(sent: Bytes, e: Exchange): Bytes
    requires e.responseStart + e.interim <= e.responseEnd <= |sent|
  {
    sent[e.responseStart + e.interim..e.responseEnd]
  }

  lemma PrintedIsRendered(cfg: Config, incoming: Bytes, sent: Bytes, es: seq<Exchange>, i: nat)
    requires Chained(cfg, incoming, sent, es) && i < |es|
    ensures es[i].responseStart + es[i].interim <= es[i].responseEnd <= |sent|
    ensures es[i].complete ==> Printed(sent, es[i]) == Rendered(ContextOf(cfg, es[i].info), es[i].selection.plan)
  {
    hide RequestTaken, Promised, Rendered;
    assert Link(cfg, incoming, sent, es, i);
    var e := es[i];
    var rendered := Rendered(ContextOf(cfg, e.info), e.selection.plan);
    assert Printed(sent, e) == sent[e.responseStart..e.responseEnd][e.interim..];
    assert rendered[..|rendered|] == rendered;
  }

  /** So complete responses to the same place in the stream are the same bytes. */
  lemma ResponsesAreDetermined(cfg: Config, incoming: Bytes, sentA: Bytes, a: seq<Exchange>, sentB: Bytes, b: seq<Exchange>, i: nat)
    requires ValidService(cfg.service, cfg.limits.responseBytes)
    requires Chained(cfg, incoming, sentA, a) && Chained(cfg, incoming, sentB, b)
    requires i < |a| && i < |b| && a[i].complete && b[i].complete
    ensures a[i].responseStart + a[i].interim <= a[i].responseEnd <= |sentA|
    ensures b[i].responseStart + b[i].interim <= b[i].responseEnd <= |sentB|
    ensures Printed(sentA, a[i]) == Printed(sentB, b[i])
  {
    hide ValidService, Chained, Rendered, Printed;
    FragmentationIsInvisible(cfg, incoming, sentA, a, sentB, b, i + 1);
    PrintedIsRendered(cfg, incoming, sentA, a, i);
    PrintedIsRendered(cfg, incoming, sentB, b, i);
  }

  // ---------- the records ----------

  /** The journal's records of a finished connection: OPEN, then data, parser
      errors and limits, then CLOSE with a reason; the bytes flagged as
      parser-failed are a suffix of those received, and no exchange touches them;
      each byte sent is flagged as its exchange asks. */
  lemma RecordsOfAConnection(cfg: Config, connection: ID, incoming: Bytes, sent: Bytes, trace: seq<Draft>, report: Report, plainEnd: nat)
    requires Evidence(cfg, connection, incoming, sent, trace, report, plainEnd)
    ensures |trace| >= 2 && trace[0] == OpenDraft(connection) && trace[|trace| - 1] == CloseDraft(connection, report.reason)
    ensures forall i | 0 < i < |trace| - 1 ::
              trace[i].connection == connection && trace[i].kind in [DATA, PARSER_ERROR, LIMIT_REACHED]
    ensures plainEnd <= report.bytesIn <= |incoming|
    ensures InboundWith(trace, connection, FLAG_PARSER_FAILED) == incoming[plainEnd..report.bytesIn]
    ensures InboundWith(trace, connection, 0) == incoming[..plainEnd]
    ensures forall i | 0 <= i < |report.exchanges| :: report.exchanges[i].requestEnd <= plainEnd
    ensures FlagsOut(trace, connection) == SentFlags(report.exchanges, |sent|)
  {
    hide Chained, DataOf;
    var front := trace[..|trace| - 1];
    assert forall i | 0 <= i < |front| :: trace[i] == front[i];
    assert front != [];
    assert InboundWith(front, connection, 0) + [] == InboundWith(front, connection, 0);
    assert InboundWith(front, connection, FLAG_PARSER_FAILED) + [] == InboundWith(front, connection, FLAG_PARSER_FAILED);
    forall i | 0 <= i < |report.exchanges|
      ensures report.exchanges[i].requestEnd <= plainEnd
    {
      EndsAscend(cfg, incoming, sent, report.exchanges, i, |report.exchanges| - 1);
    }
  }

  // ---------- the flags of the responses ----------

  lemma {:induction false} FlagsSize(cfg: Config, incoming: Bytes, sent: Bytes, es: seq<Exchange>)
    requires Chained(cfg, incoming, sent, es)
    ensures |FlagsOfExchanges(es)| == ResponseEnd(es)
  {
    hide ExchangeOk;
    if es != [] {
      var front := es[..|es| - 1];
      FrontChained(cfg, incoming, sent, es, |es| - 1);
      FlagsSize(cfg, incoming, sent, front);
      assert Link(cfg, incoming, sent, es, |es| - 1);
      RangesAreOrdered(cfg, incoming, sent, History(front), es[|es| - 1]);
    }
  }

  lemma {:induction false} FlagsInFront(es: seq<Exchange>, n: nat)
    requires n <= |es|
    ensures FlagsOfExchanges(es[..n]) <= FlagsOfExchanges(es)
    decreases |es|
  {
    hide ExchangeFlags;
    if n < |es| {
      FlagsInFront(es[..|es| - 1], n);
      assert es[..|es| - 1][..n] == es[..n];
    } else {
      assert es[..n] == es;
    }
  }

  /** A response is recorded as a stream, from its first to its last byte, if
      and only if its plan streams; the interim line before it never is. */
  lemma ResponsesAreFlagged(cfg: Config, incoming: Bytes, sent: Bytes, es: seq<Exchange>, i: nat)
    requires Chained(cfg, incoming, sent, es) && ResponseEnd(es) <= |sent| && i < |es|
    ensures |SentFlags(es, |sent|)| == |sent|
    ensures es[i].responseStart + es[i].interim <= es[i].responseEnd <= |sent|
    ensures forall k | es[i].responseStart <= k < es[i].responseStart + es[i].interim :: SentFlags(es, |sent|)[k] == 0
    ensures forall k | es[i].responseStart + es[i].interim <= k < es[i].responseEnd ::
              SentFlags(es, |sent|)[k] == if es[i].selection.plan.mode == Ndjson then FLAG_STREAMING else 0
  {
    hide ExchangeOk, ExchangeFlags;
    assert Link(cfg, incoming, sent, es, i);
    RangesAreOrdered(cfg, incoming, sent, History(es[..i]), es[i]);
    FlagsSize(cfg, incoming, sent, es);
    FrontChained(cfg, incoming, sent, es, i);
    FlagsSize(cfg, incoming, sent, es[..i]);
    FlagsInFront(es, i + 1);
    assert es[..i + 1][..i] == es[..i];
    FlagsAt(es[i]);
    var start := es[i].responseStart;
    assert FlagsOfExchanges(es[..i + 1]) == FlagsOfExchanges(es[..i]) + ExchangeFlags(es[i]);
    forall k | 0 <= k < es[i].responseEnd - start
      ensures start + k < |sent| && SentFlags(es, |sent|)[start + k] == ExchangeFlags(es[i])[k]
    {
    }
  }

  lemma FlagsAt(e: Exchange)
    requires e.responseStart + e.interim <= e.responseEnd
    ensures |ExchangeFlags(e)| == e.responseEnd - e.responseStart
    ensures forall k | 0 <= k < e.interim :: ExchangeFlags(e)[k] == 0
    ensures forall k | e.interim <= k < |ExchangeFlags(e)| ::
              ExchangeFlags(e)[k] == if e.selection.plan.mode == Ndjson then FLAG_STREAMING else 0
  {
  }
}
