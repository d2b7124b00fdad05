/** What a response plan looks like on the wire, the predictor of its size, and
    the decoder a client applies to it (internal/response/response.go;
    sections 6.2 and 7.1 of RFC 9112). */
module Rendering {
  import opened Wrappers
  import opened Bytes
  import opened Ids
  import opened Sorting
  import opened Headers

  datatype Mode = Unset | Immediate | Ndjson | Unknown

  datatype Chunk = Chunk(delay: int, body: Bytes)

  datatype Plan = Plan(status: nat, headers: HeaderMap, mode: Mode, delay: int, body: Bytes, chunks: seq<Chunk>, close: bool)

  datatype RenderError = UnsupportedProtocol | UnsupportedMode

  /** What the request contributes: protocol version and method, and the
      library's status texts. */
  datatype Context = Context(major: nat, minor: nat, verb: Bytes, statusText: nat -> Bytes)

  const CRLF: Bytes := [13, 10]
  const LAST_CHUNK: Bytes := [48, 13, 10, 13, 10]

  function Decimal(n: nat): (d: Bytes)
    ensures d != []
  {
    if n < 10 then [48 + n] else Decimal(n / 10) + [48 + n % 10]
  }

  function Hex(n: nat): (d: Bytes)
    ensures d != []
  {
    if n < 16 then [HexDigit(n)] else Hex(n / 16) + [HexDigit(n % 16)]
  }

  function StatusLine(c: Context, status: nat): Bytes {
    var known := c.statusText(status);
    Text("HTTP/") + Decimal(c.major) + Text(".") + Decimal(c.minor) + Text(" ") + Decimal(status) + Text(" ")
    + (if known == [] then Text("Status") else known) + CRLF
  }

  predicate IsHttp11(c: Context) { c.major == 1 && c.minor == 1 }

  predicate IsHttp10(c: Context) { c.major == 1 && c.minor == 0 }

  function TotalBody(chunks: seq<Chunk>): nat {
    if chunks == [] then 0 else TotalBody(chunks[..|chunks| - 1]) + |chunks[|chunks| - 1].body|
  }

  /** Why a plan cannot be rendered at all. */
  function Fault(c: Context, plan: Plan): Option<RenderError> {
    match plan.mode
    case Unknown => Some(UnsupportedMode)
    case Ndjson => if IsHttp11(c) || IsHttp10(c) then None else Some(UnsupportedProtocol)
    case _ => None
  }

  // ---------- header block ----------

  /** No two of the plan's header names have the same canonical form. */
  ghost predicate CanonicalNamesDiffer(headers: HeaderMap) {
    forall a, b | a in headers && b in headers && Canonical(a) == Canonical(b) :: a == b
  }

  ghost function ValueOf(headers: HeaderMap, c: Bytes): Bytes
    requires c in Names(headers.Keys)
  {
    var k :| k in headers && Canonical(k) == c;
    headers[k]
  }

  ghost function CanonicalHeaders(headers: HeaderMap): HeaderMap {
    map c | c in Names(headers.Keys) :: ValueOf(headers, c)
  }

  ghost function FramedHeaders(c: Context, plan: Plan): HeaderMap {
    var base := CanonicalHeaders(plan.headers);
    var framed := match plan.mode
      case Ndjson => if IsHttp11(c) then base[TRANSFER_ENCODING := Text("chunked")]
                     else base[CONTENT_LENGTH := Decimal(TotalBody(plan.chunks))]
      case _ => base[CONTENT_LENGTH := Decimal(|plan.body|)];
    if plan.close then framed[CONNECTION := Text("close")]
    else if IsHttp10(c) then framed[CONNECTION := Text("keep-alive")]
    else framed
  }

  function HeaderLine(name: Bytes, value: Bytes): Bytes {
    name + [58, 32] + value + CRLF
  }

  function LinesOf(keys: seq<Bytes>, headers: HeaderMap): (lines: seq<Bytes>)
    requires forall k | k in keys :: k in headers
    ensures |lines| == |keys|
  {
    seq(|keys|, i requires 0 <= i < |keys| => HeaderLine(keys[i], headers[keys[i]]))
  }

  ghost function HeaderLines(c: Context, plan: Plan): seq<Bytes> {
    var headers := FramedHeaders(c, plan);
    LinesOf(SortedKeys(headers.Keys), headers)
  }

  lemma AddHeader(headers: HeaderMap, done: set<Bytes>, built: HeaderMap, key: Bytes)
    requires CanonicalNamesDiffer(headers) && done <= headers.Keys && key in headers
    requires built.Keys == Names(done) && forall k | k in done :: Canonical(k) in built && built[Canonical(k)] == headers[k]
    ensures var next := built[Canonical(key) := headers[key]];
            && next.Keys == Names(done + {key})
            && forall k | k in done + {key} :: Canonical(k) in next && next[Canonical(k)] == headers[k]
  {
    hide Canonical, Names;
    NamesGrow(done, key);
  }

  lemma AllHeaders(headers: HeaderMap, built: HeaderMap)
    requires CanonicalNamesDiffer(headers)
    requires built.Keys == Names(headers.Keys)
    requires forall k | k in headers :: Canonical(k) in built && built[Canonical(k)] == headers[k]
    ensures built == CanonicalHeaders(headers)
  {
    hide Canonical;
  }

  /** The header lines in sorted order, whatever order the plan's map is
      visited in. Only when two names collide in canonical form does the order
      decide which value is printed. */
  method ResponseHeaders(c: Context, plan: Plan) returns (r: Result<seq<Bytes>, RenderError>)
    ensures r.Err? <==> Fault(c, plan).Some?
    ensures r.Err? ==> Fault(c, plan) == Some(r.error)
    ensures CanonicalNamesDiffer(plan.headers) && r.Ok? ==> r.value == HeaderLines(c, plan)
  {
    hide Canonical, Names, CanonicalHeaders, SortedKeys, CanonicalNamesDiffer, Decimal;
    ghost var differ := CanonicalNamesDiffer(plan.headers);
    var headers: HeaderMap := map[];
    var todo := plan.headers.Keys;
    ghost var done: set<Bytes> := {};
    NoNames();
    while todo != {}
      invariant todo <= plan.headers.Keys && done == plan.headers.Keys - todo
      invariant differ ==>
                  headers.Keys == Names(done) && forall k | k in done :: Canonical(k) in headers && headers[Canonical(k)] == plan.headers[k]
      decreases todo
    {
      var key :| key in todo;
      if differ {
        AddHeader(plan.headers, done, headers, key);
      }
      headers := headers[Canonical(key) := plan.headers[key]];
      done := done + {key};
      todo := todo - {key};
    }
    assert done == plan.headers.Keys;
    if differ {
      AllHeaders(plan.headers, headers);
    }
    match plan.mode {
      case Unset => headers := headers[CONTENT_LENGTH := Decimal(|plan.body|)];
      case Immediate => headers := headers[CONTENT_LENGTH := Decimal(|plan.body|)];
      case Ndjson =>
        if IsHttp11(c) {
          headers := headers[TRANSFER_ENCODING := Text("chunked")];
        } else if IsHttp10(c) {
          var total := 0;
          var i := 0;
          while i < |plan.chunks|
            invariant i <= |plan.chunks| && total == TotalBody(plan.chunks[..i])
          {
            assert plan.chunks[..i + 1][..i] == plan.chunks[..i];
            total := total + |plan.chunks[i].body|;
            i := i + 1;
          }
          assert plan.chunks[..i] == plan.chunks;
          headers := headers[CONTENT_LENGTH := Decimal(total)];
        } else {
          return Err(UnsupportedProtocol);
        }
      case Unknown => return Err(UnsupportedMode);
    }
    if plan.close {
      headers := headers[CONNECTION := Text("close")];
    } else if IsHttp10(c) {
      headers := headers[CONNECTION := Text("keep-alive")];
    }
    var keys := SortedNames(headers);
    r := Ok(LinesOf(keys, headers));
  }

  lemma NoNames()
    ensures Names({}) == {}
  {
  }

  // ---------- the whole rendering ----------

  predicate BodyOmitted(c: Context, plan: Plan) {
    EqualFold(c.verb, Text("HEAD")) || plan.status == 204 || plan.status == 304
  }

  function ChunkBytes(chunk: Chunk): Bytes {
    Hex(|chunk.body|) + CRLF + chunk.body + CRLF
  }

  function ChunkedBody(chunks: seq<Chunk>): Bytes {
    if chunks == [] then LAST_CHUNK else ChunkBytes(chunks[0]) + ChunkedBody(chunks[1..])
  }

  function PlainBody(chunks: seq<Chunk>): Bytes {
    if chunks == [] then [] else chunks[0].body + PlainBody(chunks[1..])
  }

  function BodyBytes(c: Context, plan: Plan): Bytes {
    if BodyOmitted(c, plan) then []
    else if plan.mode != Ndjson then plan.body
    else if IsHttp11(c) then ChunkedBody(plan.chunks)
    else PlainBody(plan.chunks)
  }

  /** The response with these header lines. */
  function WireForm(c: Context, plan: Plan, lines: seq<Bytes>): Bytes {
    StatusLine(c, plan.status) + Flatten(lines) + CRLF + BodyBytes(c, plan)
  }

  ghost function Rendered(c: Context, plan: Plan): Bytes {
    WireForm(c, plan, HeaderLines(c, plan))
  }

  // ---------- the size predictor ----------

  lemma {:induction false} TotalIsPlainLength(chunks: seq<Chunk>)
    ensures TotalBody(chunks) == |PlainBody(chunks)|
  {
    if chunks != [] {
      var front, last := chunks[..|chunks| - 1], chunks[|chunks| - 1];
      TotalIsPlainLength(front);
      PlainBodyAppend(front, [last]);
      assert chunks == front + [last];
      assert PlainBody([last]) == last.body;
    }
  }

  lemma {:induction false} PlainBodyAppend(a: seq<Chunk>, b: seq<Chunk>)
    ensures PlainBody(a + b) == PlainBody(a) + PlainBody(b)
  {
    if a == [] {
      assert a + b == b;
    } else {
      PlainBodyAppend(a[1..], b);
      assert (a + b)[1..] == a[1..] + b;
      Assoc(a[0].body, PlainBody(a[1..]), PlainBody(b));
    }
  }

  /** The predictor fails exactly when there is nothing to render, and
      otherwise gives the length of the rendering. */
  method IntendedWireSize(c: Context, plan: Plan) returns (r: Result<nat, RenderError>)
    ensures r.Err? <==> Fault(c, plan).Some?
    ensures r.Err? ==> Fault(c, plan) == Some(r.error)
    ensures CanonicalNamesDiffer(plan.headers) && r.Ok? ==> r.value == |Rendered(c, plan)|
  {
    hide CanonicalNamesDiffer, HeaderLines, StatusLine;
    var lines: seq<Bytes>;
    var headers := ResponseHeaders(c, plan);
    match headers {
      case Err(e) => return Err(e);
      case Ok(ls) => lines := ls;
    }
    var total := |StatusLine(c, plan.status)| + 2;
    var i := 0;
    assert lines[..0] == [];
    while i < |lines|
      invariant i <= |lines|
      invariant total == |StatusLine(c, plan.status)| + 2 + |Flatten(lines[..i])|
    {
      assert lines[..i + 1] == lines[..i] + [lines[i]];
      FlattenSnoc(lines[..i], lines[i]);
      total := total + |lines[i]|;
      i := i + 1;
    }
    assert lines[..i] == lines;
    if BodyOmitted(c, plan) {
      return Ok(total);
    }
    if plan.mode == Unset || plan.mode == Immediate {
      return Ok(total + |plan.body|);
    }
    var before := total;
    i := 0;
    if IsHttp10(c) {
      while i < |plan.chunks|
        invariant i <= |plan.chunks|
        invariant total == before + |PlainBody(plan.chunks)| - |PlainBody(plan.chunks[i..])|
      {
        total := total + |plan.chunks[i].body|;
        i := i + 1;
      }
      return Ok(total);
    }
    while i < |plan.chunks|
      invariant i <= |plan.chunks|
      invariant total == before + |ChunkedBody(plan.chunks)| - |ChunkedBody(plan.chunks[i..])|
    {
      total := total + |Hex(|plan.chunks[i].body|)| + 2 + |plan.chunks[i].body| + 2;
      i := i + 1;
    }
    return Ok(total + 5);
  }

  // ---------- decoding ----------

  datatype Size = Size(value: nat, digits: nat)

  /** The run of hexadecimal digits at the front. */
  function LeadingHex(s: Bytes, value: nat, digits: nat): (r: Size)
    ensures digits <= r.digits <= digits + |s|
  {
    if s == [] then Size(value, digits)
    else
      match HexValue(s[0])
      case Some(v) => LeadingHex(s[1..], 16 * value + v, digits + 1)
      case None => Size(value, digits)
  }

  datatype Decoded = Decoded(body: Bytes, rest: Bytes)

  /** The chunked decoder of section 7.1 of RFC 9112, without chunk extensions and trailer fields. */
  function DecodeChunked(s: Bytes): Option<Decoded>
    decreases |s|
  {
    var size := LeadingHex(s, 0, 0);
    var k := size.digits;
    if k == 0 || |s| < k + 2 || s[k..k + 2] != CRLF then None
    else if size.value == 0 then
      if |s| >= k + 4 && s[k + 2..k + 4] == CRLF then Some(Decoded([], s[k + 4..])) else None
    else if |s| < k + 2 + size.value + 2 || s[k + 2 + size.value..k + 4 + size.value] != CRLF then None
    else
      match DecodeChunked(s[k + 4 + size.value..])
      case None => None
      case Some(d) => Some(Decoded(s[k + 2..k + 2 + size.value] + d.body, d.rest))
  }

  lemma {:induction false} LeadingHexOfHex(n: nat, t: Bytes, digits: nat)
    ensures LeadingHex(Hex(n) + t, 0, digits) == LeadingHex(t, n, digits + |Hex(n)|)
  {
    if n < 16 {
      assert (Hex(n) + t)[1..] == t;
    } else {
      var d := HexDigit(n % 16);
      LeadingHexOfHex(n / 16, [d] + t, digits);
      assert Hex(n) + t == Hex(n / 16) + ([d] + t);
      assert ([d] + t)[1..] == t;
    }
  }

  lemma SizeLine(n: nat, after: Bytes)
    ensures LeadingHex(Hex(n) + (CRLF + after), 0, 0) == Size(n, |Hex(n)|)
  {
    hide Hex;
    LeadingHexOfHex(n, CRLF + after, 0);
    assert (CRLF + after)[0] == 13;
  }

  /** One non-empty chunk in front of anything. */
  lemma DecodeOneChunk(chunk: Chunk, after: Bytes)
    requires chunk.body != []
    ensures DecodeChunked(ChunkBytes(chunk) + after) ==
            match DecodeChunked(after)
            case None => None
            case Some(d) => Some(Decoded(chunk.body + d.body, d.rest))
  {
    hide Hex, LeadingHex;
    var n := |chunk.body|;
    var k := |Hex(n)|;
    var s := ChunkBytes(chunk) + after;
    assert s == Hex(n) + (CRLF + (chunk.body + CRLF + after));
    SizeLine(n, chunk.body + CRLF + after);
    assert s[k..k + 2] == CRLF;
    assert s[k + 2..k + 2 + n] == chunk.body;
    assert s[k + 2 + n..k + 4 + n] == CRLF;
    assert s[k + 4 + n..] == after;
  }

  /** An empty chunk looks like the last chunk: decoding stops there. */
  lemma DecodeEmptyChunk(after: Bytes)
    ensures DecodeChunked(LAST_CHUNK + after) == Some(Decoded([], after))
  {
    var s := LAST_CHUNK + after;
    assert s == Hex(0) + (CRLF + (CRLF + after));
    SizeLine(0, CRLF + after);
    assert s[1..3] == CRLF && s[3..5] == CRLF && s[5..] == after;
  }

  predicate AllNonEmpty(chunks: seq<Chunk>) {
    chunks == [] || (chunks[0].body != [] && AllNonEmpty(chunks[1..]))
  }

  /** Decoding a printed chunked body always succeeds; it consumes every byte
      exactly when no chunk is empty, and then yields the chunk bodies. */
  lemma {:induction false} ChunkedRoundTrip(chunks: seq<Chunk>)
    ensures DecodeChunked(ChunkedBody(chunks)).Some?
    ensures DecodeChunked(ChunkedBody(chunks)).value.rest == [] <==> AllNonEmpty(chunks)
    ensures AllNonEmpty(chunks) ==> DecodeChunked(ChunkedBody(chunks)) == Some(Decoded(PlainBody(chunks), []))
  {
    hide DecodeChunked, Hex;
    if chunks == [] {
      DecodeEmptyChunk([]);
      assert LAST_CHUNK + [] == LAST_CHUNK;
    } else if chunks[0].body == [] {
      EmptyChunkBytes(chunks[0]);
      DecodeEmptyChunk(ChunkedBody(chunks[1..]));
      ChunkedBodyIsNotEmpty(chunks[1..]);
    } else {
      ChunkedRoundTrip(chunks[1..]);
      DecodeOneChunk(chunks[0], ChunkedBody(chunks[1..]));
    }
  }

  lemma EmptyChunkBytes(chunk: Chunk)
    requires chunk.body == []
    ensures ChunkBytes(chunk) == LAST_CHUNK
  {
    assert Hex(0) == [48];
  }

  lemma ChunkedBodyIsNotEmpty(chunks: seq<Chunk>)
    ensures ChunkedBody(chunks) != []
  {
    if chunks != [] {
      assert ChunkBytes(chunks[0]) != [];
    }
  }

  /** A printed chunked body that a client misreads: one chunk "a", one empty, one "b". */
  lemma EmptyChunkTruncates()
    ensures var chunks := [Chunk(0, [97]), Chunk(0, []), Chunk(0, [98])];
            && DecodeChunked(ChunkedBody(chunks)).Some?
            && DecodeChunked(ChunkedBody(chunks)).value.body == [97]
            && PlainBody(chunks) == [97, 98]
  {
    hide DecodeChunked, Hex;
    var chunks := [Chunk(0, [97]), Chunk(0, []), Chunk(0, [98])];
    assert chunks[1..] == [Chunk(0, []), Chunk(0, [98])] && chunks[1..][1..] == [Chunk(0, [98])];
    DecodeOneChunk(chunks[0], ChunkedBody(chunks[1..]));
    EmptyChunkBytes(chunks[1]);
    DecodeEmptyChunk(ChunkedBody(chunks[1..][1..]));
    assert chunks[0].body + [] == [97];
    assert PlainBody([Chunk(0, [98])]) == [98] + PlainBody([]);
  }

  // ---------- framing ----------

  lemma FramingNames()
    ensures CONTENT_LENGTH != TRANSFER_ENCODING && CONNECTION != CONTENT_LENGTH && CONNECTION != TRANSFER_ENCODING
    ensures Prohibited(CONTENT_LENGTH) && Prohibited(TRANSFER_ENCODING) && Prohibited(CONNECTION)
  {
    hide Text, ToLower;
    assert |CONTENT_LENGTH| == 14 && |TRANSFER_ENCODING| == 17 && |CONNECTION| == 10;
    ContentLengthLowers();
    TransferEncodingLowers();
    ConnectionLowers();
  }

  lemma ContentLengthLowers()
    ensures ToLower(Text("Content-Length")) == Text("content-length")
  {
    LowerText("Content-Length", "content-length");
  }

  lemma TransferEncodingLowers()
    ensures ToLower(Text("Transfer-Encoding")) == Text("transfer-encoding")
  {
    LowerText("Transfer-Encoding", "transfer-encoding");
  }

  lemma ConnectionLowers()
    ensures ToLower(Text("Connection")) == Text("connection")
  {
    LowerText("Connection", "connection");
  }

  lemma {:induction false} LowerText(s: string, lower: string)
    requires |s| == |lower| && forall i | 0 <= i < |s| :: LowerByte(Text(s)[i]) == Text(lower)[i]
    ensures ToLower(Text(s)) == Text(lower)
  {
    if s != "" {
      assert Text(s)[1..] == Text(s[1..]) && Text(lower)[1..] == Text(lower[1..]);
      forall i | 0 <= i < |s| - 1
        ensures LowerByte(Text(s[1..])[i]) == Text(lower[1..])[i]
      {
        assert Text(s[1..])[i] == Text(s)[i + 1] && Text(lower[1..])[i] == Text(lower)[i + 1];
      }
      LowerText(s[1..], lower[1..]);
      assert Text(lower) == [Text(lower)[0]] + Text(lower)[1..];
    }
  }

  function ParseDecimal(s: Bytes, value: nat): Option<nat> {
    if s == [] then Some(value)
    else if 48 <= s[0] <= 57 then ParseDecimal(s[1..], 10 * value + (s[0] - 48))
    else None
  }

  lemma {:induction false} ParseDecimalPrefix(n: nat, t: Bytes)
    ensures ParseDecimal(Decimal(n) + t, 0) == ParseDecimal(t, n)
  {
    if n < 10 {
      assert (Decimal(n) + t)[1..] == t;
    } else {
      var d: byte := 48 + n % 10;
      ParseDecimalPrefix(n / 10, [d] + t);
      assert Decimal(n) + t == Decimal(n / 10) + ([d] + t);
      assert ([d] + t)[1..] == t;
    }
  }

  lemma DecimalParses(n: nat)
    ensures ParseDecimal(Decimal(n), 0) == Some(n)
  {
    ParseDecimalPrefix(n, []);
    assert Decimal(n) + [] == Decimal(n);
  }

  /** When a body is announced by length, the announced length is the number of body bytes. */
  lemma ContentLengthIsBodyLength(c: Context, plan: Plan)
    requires Fault(c, plan).None? && !BodyOmitted(c, plan) && !(plan.mode == Ndjson && IsHttp11(c))
    ensures CONTENT_LENGTH in FramedHeaders(c, plan)
    ensures ParseDecimal(FramedHeaders(c, plan)[CONTENT_LENGTH], 0) == Some(|BodyBytes(c, plan)|)
  {
    hide Text, Decimal, ParseDecimal, CanonicalHeaders, BodyOmitted, Prohibited, PlainBody, TotalBody;
    FramingNames();
    DecimalParses(if plan.mode == Ndjson then TotalBody(plan.chunks) else |plan.body|);
    TotalIsPlainLength(plan.chunks);
  }

  /** The fields of a plan whose headers come from merging validated headers:
      exactly one of Content-Length and Transfer-Encoding, Connection with the
      value that the close and the version ask for, and every configured header. */
  lemma FramedFields(c: Context, plan: Plan)
    requires Fault(c, plan).None?
    requires SafeHeaders(plan.headers)
    ensures var framed := FramedHeaders(c, plan);
            && (CONTENT_LENGTH in framed <==> TRANSFER_ENCODING !in framed)
            && (TRANSFER_ENCODING in framed <==> plan.mode == Ndjson && IsHttp11(c))
            && (CONNECTION in framed <==> plan.close || IsHttp10(c))
            && (CONNECTION in framed ==> framed[CONNECTION] == if plan.close then Text("close") else Text("keep-alive"))
            && (TRANSFER_ENCODING in framed ==> framed[TRANSFER_ENCODING] == Text("chunked"))
            && (forall k | k in framed :: k in plan.headers || k in [CONTENT_LENGTH, TRANSFER_ENCODING, CONNECTION])
            && (forall k | k in plan.headers :: k in framed && framed[k] == plan.headers[k])
  {
    hide Prohibited, Canonical, IsToken, ValueAllowed;
    FramingNames();
    var base := CanonicalHeaders(plan.headers);
    forall k
      ensures k in base <==> k in plan.headers
      ensures k in base ==> base[k] == plan.headers[k]
    {
    }
  }
}
