/** Small connections under a valid configuration, for the cases in which the
    code surprises (internal/engine/connection.go). */
module Samples {
  import opened Wrappers
  import opened Bytes
  import opened Ids
  import opened Format
  import opened Drafts
  import opened Headers
  import opened Rendering
  import opened Routes
  import opened ConnectionIO
  import opened Parsing
  import opened Lives
  import opened Exchanges

  /** A request of one byte, without a body. */
  function PlainInfo(): RequestInfo {
    RequestInfo(Text("GET"), [47], 1, 1, NoExpectation, 0, false, false)
  }

  /** A request of one byte that wants the interim line. */
  function WaitingInfo(): RequestInfo {
    RequestInfo(Text("GET"), [47], 1, 1, Continue, 1, true, false)
  }

  function SampleHead(bytes: Bytes): HeadVerdict {
    if bytes == [1] || bytes == [3, 1] then Accepted(PlainInfo())
    else if bytes == [2] then Accepted(WaitingInfo())
    else NeedMore
  }

  /** The bytes 1, or 3 and 1, are a plain request, the byte 2 is one that
      wants the interim line; anything else asks for more. A read error is
      lost behind fronts of one length. */
  function SampleGrammar(lost: nat): Grammar {
    Grammar(SampleHead, bytes => |bytes| == lost,
            (info: RequestInfo, bytes: Bytes) => if info.mayHaveBody then BodyMore(0) else BodyDone(0, 0),
            (info, bytes) => None)
  }

  function NoText(status: nat): Bytes {
    []
  }

  function Tagged(bytes: Bytes): Bytes {
    [0] + bytes
  }

  /** Header limit 16, and as much room for responses and in all as is asked for. */
  function SampleConfig(responses: nat, bytes: nat, lost: nat): Config {
    Config(Limits(bytes, 16, 16, 4, responses, 16, 1, 1), SmallService(), false, SampleGrammar(lost), NoText, Tagged)
  }

  lemma SampleConfigIsValid(responses: nat, bytes: nat, lost: nat)
    requires responses >= 2 && bytes >= 1
    ensures ValidConfig(SampleConfig(responses, bytes, lost))
  {
    SmallServiceIsValid(responses);
  }

  /** The answer of the service's only route. */
  function SamplePlan(): Plan {
    Plan(200, map[], Ndjson, 0, [], [Chunk(0, [97]), Chunk(0, []), Chunk(0, [98])], false)
  }

  function SampleSelection(): Selection {
    Selection(Some(0), RouteDefault, None, SamplePlan())
  }

  lemma NothingMerged()
    ensures MergedFrom(map[], map[], map[])
  {
  }

  lemma SampleIsPromised()
    ensures Promised(SmallService(), [], RequestOf(PlainInfo()), false, SampleSelection())
  {
    hide MergedFrom;
    NothingMerged();
    var rs := SmallService().routes[0].responses;
    assert rs[..0] == [];
    assert Numbers(rs) == [];
    assert rs[0].isDefault && ResponsePlan(SamplePlan(), map[], rs[0], false);
  }


  /** What the answer looks like, in full. */
  ghost function SampleResponse(): Bytes {
    Rendered(Context(1, 1, Text("GET"), NoText), SamplePlan())
  }

  /** What had been asked when it was answered. */
  const ANSWERED: seq<Sighting> := AT_ANSWER + [No(StreamOver), No(Cancelled)]

  lemma AnsweredIsQuiet()
    ensures AllQuiet(ANSWERED) && EndsWith(ANSWERED, [No(StreamOver), No(Cancelled)]) && Looks(ANSWERED) >= 1
  {
    hide Looks;
    assert [] + ANSWERED == ANSWERED && LOOKS <= ANSWERED;
    LookedAgain([], ANSWERED);
  }

  /** The first exchange, with so many bytes of its answer sent. */
  ghost function SampleExchange(size: nat): Exchange
    requires size <= |SampleResponse()|
  {
    Exchange(PlainInfo(), 0, 1, 1, 0, size, Tagged(SampleResponse()[..size]), size == |SampleResponse()|, 0, SampleSelection())
  }

  lemma SampleIsTaken(responses: nat, bytes: nat, lost: nat, incoming: Bytes)
    requires incoming != [] && incoming[0] == 1
    ensures RequestTaken(SampleConfig(responses, bytes, lost), incoming, 0, 1, 1, PlainInfo())
    ensures !OpensTunnel(PlainInfo(), SampleSelection())
  {
    assert incoming[0..1] == [1] && incoming[1..1] == [];
    GetIsNotConnect();
  }

  /** What was sent is the beginning of the answer. */
  lemma SampleIsSent(responses: nat, bytes: nat, lost: nat, size: nat)
    requires size <= |SampleResponse()| && size <= responses
    ensures Sends(SampleConfig(responses, bytes, lost), SampleResponse()[..size], SampleExchange(size))
  {
    hide Rendered;
    var sent := SampleResponse()[..size];
    assert sent[0..size] == sent && INTERIM[..0] == [] && [] + sent == sent;
  }

  /** It is a right exchange of every such connection whose peer begins with the byte 1. */
  lemma SampleIsChained(responses: nat, bytes: nat, lost: nat, incoming: Bytes, size: nat)
    requires size <= |SampleResponse()| && size <= responses && incoming != [] && incoming[0] == 1
    ensures Chained(SampleConfig(responses, bytes, lost), incoming, SampleResponse()[..size], [SampleExchange(size)])
  {
    hide SampleConfig, SampleResponse, Answers, Sends;
    SampleAnswers(responses, bytes, lost, incoming, size);
    SampleIsSent(responses, bytes, lost, size);
    OneExchange(SampleConfig(responses, bytes, lost), incoming, SampleResponse()[..size], SampleExchange(size));
  }

  lemma SampleAnswers(responses: nat, bytes: nat, lost: nat, incoming: Bytes, size: nat)
    requires size <= |SampleResponse()| && incoming != [] && incoming[0] == 1
    ensures Answers(SampleConfig(responses, bytes, lost), incoming, [], SampleExchange(size))
    ensures SampleConfig(responses, bytes, lost).limits.requests > 1
  {
    hide SampleResponse, RequestTaken, OpensTunnel, Promised;
    SampleIsTaken(responses, bytes, lost, incoming);
    SampleIsPromised();
  }

  lemma OneExchange(cfg: Config, incoming: Bytes, sent: Bytes, e: Exchange)
    requires Answers(cfg, incoming, [], e) && Sends(cfg, sent, e) && e.requestStart == 0 == e.responseStart
    requires !e.selection.plan.close && !e.info.close && cfg.limits.requests > 1
    ensures Chained(cfg, incoming, sent, [e])
  {
    hide Answers, Sends;
    assert [e][..0] == [] && History([]) == [];
  }
}
