/** What a client reads from the printed header block: a decoder for field
    lines (sections 2.2, 5 and 6.2 of RFC 9112) against the printer
    (internal/response/response.go). */
module HeaderBlock {
  import opened Wrappers
  import opened Bytes
  import opened Sorting
  import opened Headers
  import opened Rendering
  import opened Routes

  const LF: byte := 10
  const CR: byte := 13
  const COLON: byte := 58
  const SPACE: byte := 32
  const DOT: byte := 46

  datatype Field = Field(name: Bytes, value: Bytes)

  datatype Block = Block(fields: seq<Field>, rest: Bytes)

  // ---------- the decoder ----------

  /** The first place of a byte. */
  function FirstOf(s: Bytes, c: byte): (r: Option<nat>)
    ensures r.Some? ==> r.value < |s| && s[r.value] == c
  {
    if s == [] then None
    else if s[0] == c then Some(0)
    else match FirstOf(s[1..], c) case None => None case Some(k) => Some(k + 1)
  }

  function WithoutCR(line: Bytes): Bytes {
    if line != [] && line[|line| - 1] == CR then line[..|line| - 1] else line
  }

  function TrimLeft(s: Bytes): Bytes {
    if s != [] && s[0] in [32, 9] then TrimLeft(s[1..]) else s
  }

  function TrimRight(s: Bytes): Bytes {
    if s != [] && s[|s| - 1] in [32, 9] then TrimRight(s[..|s| - 1]) else s
  }

  function Trim(s: Bytes): Bytes {
    TrimRight(TrimLeft(s))
  }

  /** One field line: a token, a colon, and a value with optional white space around it. */
  function DecodeField(line: Bytes): Option<Field> {
    match FirstOf(line, COLON)
    case None => None
    case Some(k) => if IsToken(line[..k]) then Some(Field(line[..k], Trim(line[k + 1..]))) else None
  }

  /** Field lines up to the empty one. A line ends at any line feed, as a
      lenient client reads it, with or without a carriage return before it. */
  function DecodeFields(s: Bytes): Option<Block>
    decreases |s|
  {
    match FirstOf(s, LF)
    case None => None
    case Some(k) =>
      var line := WithoutCR(s[..k]);
      if line == [] then Some(Block([], s[k + 1..]))
      else
        match (DecodeField(line), DecodeFields(s[k + 1..]))
        case (Some(f), Some(b)) => Some(Block([f] + b.fields, b.rest))
        case _ => None
  }

  /** A status line: the version, the code and the reason phrase. */
  datatype Status = Status(major: nat, minor: nat, code: nat, phrase: Bytes)

  datatype Number = Number(value: nat, rest: Bytes)

  /** The decimal digits at the front. */
  function LeadingDecimal(s: Bytes, value: nat): Number {
    if s != [] && 48 <= s[0] <= 57 then LeadingDecimal(s[1..], 10 * value + (s[0] - 48)) else Number(value, s)
  }

  /** What follows a prefix. */
  function Behind(s: Bytes, prefix: Bytes): Option<Bytes> {
    if prefix <= s then Some(s[|prefix|..]) else None
  }

  /** A number that ends at a delimiter. */
  function NumberBefore(s: Bytes, delimiter: byte): Option<Number> {
    var n := LeadingDecimal(s, 0);
    if n.rest != s && n.rest != [] && n.rest[0] == delimiter then Some(Number(n.value, n.rest[1..])) else None
  }

  function DecodeStatus(line: Bytes): Option<Status> {
    match Behind(line, Text("HTTP/"))
    case None => None
    case Some(version) =>
      match NumberBefore(version, DOT)
      case None => None
      case Some(major) =>
        match NumberBefore(major.rest, SPACE)
        case None => None
        case Some(minor) =>
          match NumberBefore(minor.rest, SPACE)
          case None => None
          case Some(code) => Some(Status(major.value, minor.value, code.value, code.rest))
  }

  /** The value of the first field with a name, ignoring case. */
  function ValueNamed(fields: seq<Field>, name: Bytes): Option<Bytes> {
    if fields == [] then None
    else if EqualFold(fields[0].name, name) then Some(fields[0].value)
    else ValueNamed(fields[1..], name)
  }

  /** Where the body ends (section 6.3 of RFC 9112): some responses have none,
      a chunked one ends itself, and else its length was announced; without
      any of these it ends with the connection. */
  function DecodeBody(verb: Bytes, code: nat, fields: seq<Field>, s: Bytes): Option<Decoded> {
    if EqualFold(verb, Text("HEAD")) || code / 100 == 1 || code == 204 || code == 304 then Some(Decoded([], s))
    else if ValueNamed(fields, TRANSFER_ENCODING) == Some(Text("chunked")) then DecodeChunked(s)
    else
      match ValueNamed(fields, CONTENT_LENGTH)
      case None => Some(Decoded(s, []))
      case Some(value) =>
        match ParseDecimal(value, 0)
        case None => None
        case Some(n) => if n <= |s| then Some(Decoded(s[..n], s[n..])) else None
  }

  /** A response as a client reads it, and what is left behind it. */
  datatype Message = Message(status: Status, fields: seq<Field>, body: Bytes, rest: Bytes)

  function DecodeResponse(verb: Bytes, s: Bytes): Option<Message> {
    match FirstOf(s, LF)
    case None => None
    case Some(k) =>
      match (DecodeStatus(WithoutCR(s[..k])), DecodeFields(s[k + 1..]))
      case (Some(status), Some(block)) =>
        (match DecodeBody(verb, status.code, block.fields, block.rest)
         case None => None
         case Some(d) => Some(Message(status, block.fields, d.body, d.rest)))
      case _ => None
  }

  /** How many fields bear a name, ignoring case. */
  function Named(fields: seq<Field>, name: Bytes): nat {
    if fields == [] then 0 else (if EqualFold(fields[0].name, name) then 1 else 0) + Named(fields[1..], name)
  }

  // ---------- the printed lines decode ----------

  lemma {:induction false} FirstOfAppend(a: Bytes, c: byte, b: Bytes)
    requires c !in a
    ensures FirstOf(a + [c] + b, c) == Some(|a|)
  {
    var s := a + [c] + b;
    if a != [] {
      assert s[1..] == a[1..] + [c] + b;
      FirstOfAppend(a[1..], c, b);
    }
  }

  lemma {:induction false} TokenBytes(s: Bytes)
    ensures AllTokenBytes(s) <==> forall c | c in s :: TokenByte(c)
  {
    if s != [] {
      TokenBytes(s[1..]);
      assert s == [s[0]] + s[1..];
    }
  }

  lemma TokenHasNoDelimiters(name: Bytes)
    requires IsToken(name)
    ensures LF !in name && CR !in name && COLON !in name && name != []
  {
    TokenBytes(name);
  }

  lemma OneField(name: Bytes, value: Bytes)
    requires IsToken(name)
    ensures DecodeField(name + [COLON, 32] + value) == Some(Field(name, Trim(value)))
  {
    var line := name + [COLON, 32] + value;
    TokenHasNoDelimiters(name);
    assert line == name + [COLON] + ([32] + value);
    FirstOfAppend(name, COLON, [32] + value);
    assert line[..|name|] == name && line[|name| + 1..] == [32] + value;
    assert ([32] + value)[1..] == value;
  }

  predicate NoLineEnd(value: Bytes) {
    CR !in value && LF !in value
  }

  lemma OneLine(name: Bytes, value: Bytes, after: Bytes)
    requires IsToken(name) && NoLineEnd(value)
    ensures DecodeFields(HeaderLine(name, value) + after) ==
            match DecodeFields(after)
            case None => None
            case Some(b) => Some(Block([Field(name, Trim(value))] + b.fields, b.rest))
  {
    hide Trim, IsToken, DecodeField;
    TokenHasNoDelimiters(name);
    OneField(name, value);
    var line := name + [COLON, 32] + value;
    var s := HeaderLine(name, value) + after;
    assert s == line + [CR] + [LF] + after;
    FirstOfAppend(line + [CR], LF, after);
    var k := |line| + 1;
    assert s[..k] == line + [CR] && s[k + 1..] == after;
    assert WithoutCR(s[..k]) == line;
  }

  function FieldsFor(keys: seq<Bytes>, headers: HeaderMap): (fields: seq<Field>)
    requires forall k | k in keys :: k in headers
    ensures |fields| == |keys|
  {
    seq(|keys|, i requires 0 <= i < |keys| => Field(keys[i], Trim(headers[keys[i]])))
  }

  lemma NoLines(after: Bytes)
    ensures DecodeFields(CRLF + after) == Some(Block([], after))
  {
    var s := CRLF + after;
    assert s == [CR] + [LF] + after;
    FirstOfAppend([CR], LF, after);
    assert s[..1] == [CR] && s[2..] == after;
  }

  lemma {:induction false} LinesDecode(keys: seq<Bytes>, headers: HeaderMap, after: Bytes)
    requires forall k | k in keys :: k in headers && IsToken(k) && NoLineEnd(headers[k])
    ensures DecodeFields(Flatten(LinesOf(keys, headers)) + CRLF + after) == Some(Block(FieldsFor(keys, headers), after))
  {
    hide DecodeFields, HeaderLine, Trim, IsToken, NoLineEnd;
    if keys == [] {
      NoLines(after);
      assert [] + CRLF + after == CRLF + after;
    } else {
      var first := HeaderLine(keys[0], headers[keys[0]]);
      assert LinesOf(keys, headers)[1..] == LinesOf(keys[1..], headers);
      LinesDecode(keys[1..], headers, after);
      OneLine(keys[0], headers[keys[0]], Flatten(LinesOf(keys[1..], headers)) + CRLF + after);
      assert Flatten(LinesOf(keys, headers)) + CRLF + after
          == first + (Flatten(LinesOf(keys[1..], headers)) + CRLF + after);
      assert FieldsFor(keys, headers) == [Field(keys[0], Trim(headers[keys[0]]))] + FieldsFor(keys[1..], headers);
    }
  }

  // ---------- the framed headers are safe to print ----------

  lemma {:induction false} DecimalIsSafe(n: nat)
    ensures CR !in Decimal(n) && LF !in Decimal(n)
  {
    if n >= 10 {
      DecimalIsSafe(n / 10);
    }
  }

  predicate NameByte(c: byte) {
    65 <= c <= 90 || 97 <= c <= 122 || c == 45
  }

  lemma NameBytesAreTokenBytes()
    ensures forall c | NameByte(c) :: TokenByte(c)
  {
  }

  lemma TextIsToken(s: string)
    requires s != "" && forall i | 0 <= i < |s| :: NameByte(Text(s)[i])
    ensures IsToken(Text(s))
  {
    hide TokenByte;
    NameBytesAreTokenBytes();
    TokenBytes(Text(s));
  }

  lemma ContentLengthIsToken()
    ensures IsToken(CONTENT_LENGTH)
  {
    TextIsToken("Content-Length");
  }

  lemma TransferEncodingIsToken()
    ensures IsToken(TRANSFER_ENCODING)
  {
    TextIsToken("Transfer-Encoding");
  }

  lemma ConnectionIsToken()
    ensures IsToken(CONNECTION)
  {
    TextIsToken("Connection");
  }

  ghost predicate Printable(headers: HeaderMap) {
    forall k | k in headers :: IsToken(k) && NoLineEnd(headers[k])
  }

  lemma FramedIsPrintable(c: Context, plan: Plan)
    requires Fault(c, plan).None? && SafeHeaders(plan.headers)
    ensures Printable(FramedHeaders(c, plan))
  {
    hide IsToken, Prohibited, Canonical, FramedHeaders, Fault, ValueAllowed;
    FramedFields(c, plan);
    ContentLengthIsToken();
    TransferEncodingIsToken();
    ConnectionIsToken();
    FramingValuesArePrintable(c, plan);
    forall k | k in plan.headers
      ensures NoLineEnd(plan.headers[k])
    {
      AllowedHasNoLineEnd(plan.headers[k]);
    }
  }

  lemma AllowedHasNoLineEnd(value: Bytes)
    requires ValueAllowed(value)
    ensures NoLineEnd(value)
  {
  }

  lemma FramingValuesArePrintable(c: Context, plan: Plan)
    ensures forall k | k in [CONTENT_LENGTH, TRANSFER_ENCODING, CONNECTION] && k in FramedHeaders(c, plan)
                       && k !in CanonicalHeaders(plan.headers) ::
              NoLineEnd(FramedHeaders(c, plan)[k])
  {
    hide Decimal, TotalBody, CanonicalHeaders;
    DecimalIsSafe(TotalBody(plan.chunks));
    DecimalIsSafe(|plan.body|);
    assert NoLineEnd(Text("chunked")) && NoLineEnd(Text("close")) && NoLineEnd(Text("keep-alive"));
  }

  // ---------- exactly one framing field in the printed bytes ----------

  lemma {:induction false} NamedByKey(keys: seq<Bytes>, headers: HeaderMap, name: Bytes)
    requires forall k | k in keys :: k in headers && (EqualFold(k, name) <==> k == name)
    requires Distinct(keys)
    ensures Named(FieldsFor(keys, headers), name) == if name in keys then 1 else 0
  {
    hide EqualFold, Trim;
    if keys != [] {
      NamedByKey(keys[1..], headers, name);
      assert FieldsFor(keys, headers)[1..] == FieldsFor(keys[1..], headers);
      assert keys == [keys[0]] + keys[1..];
    }
  }

  lemma {:induction false} ValueByKey(keys: seq<Bytes>, headers: HeaderMap, name: Bytes)
    requires forall k | k in keys :: k in headers && (EqualFold(k, name) <==> k == name)
    ensures ValueNamed(FieldsFor(keys, headers), name) == if name in keys then Some(Trim(headers[name])) else None
  {
    hide EqualFold, Trim;
    if keys != [] {
      ValueByKey(keys[1..], headers, name);
      assert FieldsFor(keys, headers)[1..] == FieldsFor(keys[1..], headers);
      assert keys == [keys[0]] + keys[1..];
    }
  }

  /** The framing names are told apart from every other printed name, whatever the case. */
  lemma FramingNamesStandAlone(c: Context, plan: Plan, k: Bytes)
    requires Fault(c, plan).None? && SafeHeaders(plan.headers) && k in FramedHeaders(c, plan)
    ensures EqualFold(k, CONTENT_LENGTH) <==> k == CONTENT_LENGTH
    ensures EqualFold(k, TRANSFER_ENCODING) <==> k == TRANSFER_ENCODING
    ensures EqualFold(k, CONNECTION) <==> k == CONNECTION
  {
    hide Text, Canonical, IsToken, ValueAllowed, FramedHeaders, EqualFold, Prohibited, Fault;
    FramedFields(c, plan);
    FramingNames();
    FramingNamesDiffer();
    FoldingKeepsProhibition(k, CONTENT_LENGTH);
    FoldingKeepsProhibition(k, TRANSFER_ENCODING);
    FoldingKeepsProhibition(k, CONNECTION);
  }

  lemma FramingNamesDiffer()
    ensures !EqualFold(CONNECTION, CONTENT_LENGTH) && !EqualFold(CONNECTION, TRANSFER_ENCODING)
    ensures !EqualFold(CONTENT_LENGTH, TRANSFER_ENCODING) && !EqualFold(TRANSFER_ENCODING, CONTENT_LENGTH)
    ensures EqualFold(CONTENT_LENGTH, CONTENT_LENGTH) && EqualFold(TRANSFER_ENCODING, TRANSFER_ENCODING)
    ensures EqualFold(CONNECTION, CONNECTION) && !EqualFold(CONTENT_LENGTH, CONNECTION) && !EqualFold(TRANSFER_ENCODING, CONNECTION)
  {
    hide Text;
    assert |ToLower(CONTENT_LENGTH)| == 14 && |ToLower(TRANSFER_ENCODING)| == 17 && |ToLower(CONNECTION)| == 10;
  }

  lemma FoldingKeepsProhibition(k: Bytes, name: Bytes)
    ensures EqualFold(k, name) && Prohibited(name) ==> Prohibited(k)
  {
    hide Text;
  }

  /** Reading the printed header block back gives exactly the framed fields,
      in sorted order and with nothing added, and the body behind it; exactly
      one of them is a Content-Length or a Transfer-Encoding. */
  lemma PrintedHeadersDecode(c: Context, plan: Plan, after: Bytes)
    requires Fault(c, plan).None? && SafeHeaders(plan.headers)
    ensures var framed := FramedHeaders(c, plan);
            var fields := FieldsFor(SortedKeys(framed.Keys), framed);
            && DecodeFields(Flatten(HeaderLines(c, plan)) + CRLF + after) == Some(Block(fields, after))
            && Named(fields, CONTENT_LENGTH) + Named(fields, TRANSFER_ENCODING) == 1
            && (Named(fields, TRANSFER_ENCODING) == 1 <==> plan.mode == Ndjson && IsHttp11(c))
  {
    hide IsToken, Prohibited, Canonical, FramedHeaders, DecodeFields, Named, FieldsFor, Fault, SafeHeaders, EqualFold;
    var framed := FramedHeaders(c, plan);
    var keys := SortedKeys(framed.Keys);
    FramedIsPrintable(c, plan);
    FramedFields(c, plan);
    LinesDecode(keys, framed, after);
    AscendingIsDistinct(keys);
    forall k | k in keys
      ensures EqualFold(k, CONTENT_LENGTH) <==> k == CONTENT_LENGTH
      ensures EqualFold(k, TRANSFER_ENCODING) <==> k == TRANSFER_ENCODING
    {
      FramingNamesStandAlone(c, plan, k);
    }
    NamedByKey(keys, framed, CONTENT_LENGTH);
    NamedByKey(keys, framed, TRANSFER_ENCODING);
  }

  // ---------- the status line ----------

  /** The library's status text has no line feed. */
  predicate PlainStatusText(c: Context, status: nat) {
    LF !in c.statusText(status)
  }

  lemma {:induction false} DecimalLeads(n: nat, t: Bytes)
    ensures LeadingDecimal(Decimal(n) + t, 0) == LeadingDecimal(t, n)
  {
    if n < 10 {
      assert (Decimal(n) + t)[1..] == t;
    } else {
      var d: byte := 48 + n % 10;
      DecimalLeads(n / 10, [d] + t);
      assert Decimal(n) + t == Decimal(n / 10) + ([d] + t);
      assert ([d] + t)[1..] == t;
    }
  }

  lemma NumberReads(n: nat, delimiter: byte, t: Bytes)
    requires delimiter in [SPACE, DOT]
    ensures NumberBefore(Decimal(n) + [delimiter] + t, delimiter) == Some(Number(n, t))
  {
    hide Decimal;
    var s := Decimal(n) + [delimiter] + t;
    assert s == Decimal(n) + ([delimiter] + t);
    DecimalLeads(n, [delimiter] + t);
    assert ([delimiter] + t)[1..] == t;
    assert |[delimiter] + t| < |s|;
  }

  /** The words of a status line. */
  function PhraseOf(c: Context, status: nat): Bytes {
    if c.statusText(status) == [] then Text("Status") else c.statusText(status)
  }

  /** The printed status line tells the version, the code and the phrase. */
  lemma StatusLineDecodes(c: Context, status: nat)
    ensures |StatusLine(c, status)| >= 2
    ensures DecodeStatus(WithoutCR(StatusLine(c, status)[..|StatusLine(c, status)| - 1]))
            == Some(Status(c.major, c.minor, status, PhraseOf(c, status)))
  {
    hide Decimal, NumberBefore, PhraseOf;
    var line := StatusLine(c, status);
    var code := Decimal(status) + [SPACE] + PhraseOf(c, status);
    var minor := Decimal(c.minor) + [SPACE] + code;
    var major := Decimal(c.major) + [DOT] + minor;
    StatusLineParts(c, status, major, minor, code);
    assert line[..|line| - 1] == Text("HTTP/") + major + [CR];
    assert WithoutCR(line[..|line| - 1]) == Text("HTTP/") + major;
    assert Behind(Text("HTTP/") + major, Text("HTTP/")) == Some(major);
    NumberReads(c.major, DOT, minor);
    NumberReads(c.minor, SPACE, code);
    NumberReads(status, SPACE, PhraseOf(c, status));
  }

  lemma StatusLineParts(c: Context, status: nat, major: Bytes, minor: Bytes, code: Bytes)
    requires code == Decimal(status) + [SPACE] + PhraseOf(c, status)
    requires minor == Decimal(c.minor) + [SPACE] + code && major == Decimal(c.major) + [DOT] + minor
    ensures StatusLine(c, status) == Text("HTTP/") + major + [CR] + [LF]
  {
    hide Decimal;
    assert Text(".") == [DOT] && Text(" ") == [SPACE] && CRLF == [CR] + [LF];
  }

  lemma StatusLineEnds(c: Context, status: nat, after: Bytes)
    requires PlainStatusText(c, status)
    ensures FirstOf(StatusLine(c, status) + after, LF) == Some(|StatusLine(c, status)| - 1)
  {
    hide Decimal;
    var line := StatusLine(c, status);
    DecimalIsSafe(c.major);
    DecimalIsSafe(c.minor);
    DecimalIsSafe(status);
    var front := line[..|line| - 1];
    assert line == front + [LF];
    assert LF !in Text("HTTP/") && LF !in Text(".") && LF !in Text(" ") && LF !in Text("Status");
    assert LF !in front;
    FirstOfAppend(front, LF, after);
  }

  // ---------- the whole response ----------

  lemma TrimKeeps(s: Bytes)
    requires s != [] && s[0] !in [32, 9] && s[|s| - 1] !in [32, 9]
    ensures Trim(s) == s
  {
  }

  lemma {:induction false} DecimalIsDigits(n: nat)
    ensures forall i | 0 <= i < |Decimal(n)| :: 48 <= Decimal(n)[i] <= 57
  {
    if n >= 10 {
      DecimalIsDigits(n / 10);
    }
  }

  lemma FramingValuesTrim(c: Context, plan: Plan)
    requires Fault(c, plan).None? && SafeHeaders(plan.headers)
    ensures var framed := FramedHeaders(c, plan);
            && (CONTENT_LENGTH in framed ==> Trim(framed[CONTENT_LENGTH]) == framed[CONTENT_LENGTH])
            && Trim(Text("chunked")) == Text("chunked") && Trim(Text("close")) == Text("close")
            && Trim(Text("keep-alive")) == Text("keep-alive")
  {
    hide Trim, Decimal, TotalBody, CanonicalHeaders, IsToken, Canonical, ValueAllowed, Prohibited;
    DecimalIsDigits(TotalBody(plan.chunks));
    DecimalIsDigits(|plan.body|);
    TrimKeeps(Decimal(TotalBody(plan.chunks)));
    TrimKeeps(Decimal(|plan.body|));
    TrimKeeps(Text("chunked"));
    TrimKeeps(Text("close"));
    TrimKeeps(Text("keep-alive"));
    FramingNames();
    FramedFields(c, plan);
  }

  /** The values a client finds under the three names that the printer sets. */
  lemma FramingFieldsDecode(c: Context, plan: Plan)
    requires Fault(c, plan).None? && SafeHeaders(plan.headers)
    ensures var framed := FramedHeaders(c, plan);
            var fields := FieldsFor(SortedKeys(framed.Keys), framed);
            && ValueNamed(fields, CONNECTION) == (if plan.close then Some(Text("close"))
                                                  else if IsHttp10(c) then Some(Text("keep-alive")) else None)
            && ValueNamed(fields, TRANSFER_ENCODING) == (if plan.mode == Ndjson && IsHttp11(c) then Some(Text("chunked")) else None)
            && ValueNamed(fields, CONTENT_LENGTH) == (if CONTENT_LENGTH in framed then Some(framed[CONTENT_LENGTH]) else None)
  {
    hide Text, Trim, FramedHeaders, FieldsFor, Fault, SafeHeaders, EqualFold, ValueNamed, IsToken, Prohibited;
    hide Canonical;
    var framed := FramedHeaders(c, plan);
    var keys := SortedKeys(framed.Keys);
    FramedFields(c, plan);
    FramingValuesTrim(c, plan);
    forall k | k in keys
      ensures EqualFold(k, CONTENT_LENGTH) <==> k == CONTENT_LENGTH
      ensures EqualFold(k, TRANSFER_ENCODING) <==> k == TRANSFER_ENCODING
      ensures EqualFold(k, CONNECTION) <==> k == CONNECTION
    {
      FramingNamesStandAlone(c, plan, k);
    }
    ValueByKey(keys, framed, CONNECTION);
    ValueByKey(keys, framed, TRANSFER_ENCODING);
    ValueByKey(keys, framed, CONTENT_LENGTH);
  }

  /** What a client should get out of a plan's body. */
  function ContentOf(plan: Plan): Bytes {
    if plan.mode == Ndjson then PlainBody(plan.chunks) else plan.body
  }

  /** The body is read to its last byte, unless it is chunked and a chunk is empty. */
  lemma BodyDecodes(c: Context, plan: Plan)
    requires Fault(c, plan).None? && SafeHeaders(plan.headers) && 200 <= plan.status
    ensures var framed := FramedHeaders(c, plan);
            var d := DecodeBody(c.verb, plan.status, FieldsFor(SortedKeys(framed.Keys), framed), BodyBytes(c, plan));
            && d.Some?
            && (EqualFold(c.verb, Text("HEAD")) || plan.status in [204, 304] ==> d.value == Decoded([], []))
            && (!EqualFold(c.verb, Text("HEAD")) && plan.status !in [204, 304] ==>
                  && (d.value.rest == [] <==> plan.mode == Ndjson && IsHttp11(c) ==> AllNonEmpty(plan.chunks))
                  && (d.value.rest == [] ==> d.value.body == ContentOf(plan)))
  {
    hide Text, FramedHeaders, FieldsFor, EqualFold, ValueNamed, SafeHeaders, ParseDecimal, ChunkedBody, PlainBody;
    hide DecodeChunked;
    FramingFieldsDecode(c, plan);
    ChunkedRoundTrip(plan.chunks);
    FramedFields(c, plan);
    var body := BodyBytes(c, plan);
    assert body[..|body|] == body && body[|body|..] == [];
    if !BodyOmitted(c, plan) && !(plan.mode == Ndjson && IsHttp11(c)) {
      ContentLengthIsBodyLength(c, plan);
    }
  }

  /** Every response a validated service chooses, as a client reads it from its
      bytes: the version, the code and the phrase; the framed fields with
      exactly one framing field, and the Connection value the close asks for;
      then the whole content and nothing more, or none where there is none to
      be had, unless a chunk is empty. */
  lemma ResponsesDecode(s: Service, limit: int, history: seq<Request>, r: Request, close: bool, sel: Selection, c: Context)
    requires ValidService(s, limit) && Promised(s, history, r, close, sel) && (IsHttp10(c) || IsHttp11(c))
    requires PlainStatusText(c, sel.plan.status)
    ensures DecodeResponse(c.verb, Rendered(c, sel.plan)).Some?
    ensures var plan := sel.plan;
            var m := DecodeResponse(c.verb, Rendered(c, plan)).value;
            var framed := FramedHeaders(c, plan);
            && m.status == Status(c.major, c.minor, plan.status, PhraseOf(c, plan.status))
            && m.fields == FieldsFor(SortedKeys(framed.Keys), framed)
            && Named(m.fields, CONTENT_LENGTH) + Named(m.fields, TRANSFER_ENCODING) == 1
            && ValueNamed(m.fields, CONNECTION) == (if plan.close then Some(Text("close"))
                                                    else if IsHttp10(c) then Some(Text("keep-alive")) else None)
            && (EqualFold(c.verb, Text("HEAD")) || plan.status in [204, 304] ==> m.body == [] && m.rest == [])
            && (!EqualFold(c.verb, Text("HEAD")) && plan.status !in [204, 304] ==>
                  && (m.rest == [] <==> plan.mode == Ndjson && IsHttp11(c) ==> AllNonEmpty(plan.chunks))
                  && (m.rest == [] ==> m.body == ContentOf(plan)))
  {
    hide ValidService, Promised, Fault, FramedHeaders, DecodeFields, FirstOf, Named, FieldsFor, SafeHeaders;
    hide HeaderLines, StatusLine, BodyBytes, DecodeBody, DecodeStatus, EqualFold, ValueNamed, Text, WithoutCR, PhraseOf;
    hide AllNonEmpty;
    var plan := sel.plan;
    ChosenPlansRender(s, limit, history, r, close, sel, c);
    var block := Flatten(HeaderLines(c, plan)) + CRLF + BodyBytes(c, plan);
    var line := StatusLine(c, plan.status);
    assert Rendered(c, plan) == line + block;
    StatusLineEnds(c, plan.status, block);
    StatusLineDecodes(c, plan.status);
    assert (line + block)[|line|..] == block && (line + block)[..|line| - 1] == line[..|line| - 1];
    PrintedHeadersDecode(c, plan, BodyBytes(c, plan));
    FramingFieldsDecode(c, plan);
    BodyDecodes(c, plan);
  }

  /** The bytes configured for the chunks of a response, one after the other. */
  function ConfiguredChunks(chunks: seq<ChunkConfig>): Bytes {
    if chunks == [] then [] else BodyOf(chunks[0].body) + ConfiguredChunks(chunks[1..])
  }

  /** The content configured for a response. */
  function ConfiguredContent(r: ResponseConfig): Bytes {
    if r.mode == Ndjson then ConfiguredChunks(r.chunks) else BodyOf(r.body)
  }

  lemma {:induction false} ChunksAsConfigured(chunks: seq<Chunk>, configured: seq<ChunkConfig>)
    requires |chunks| == |configured|
    requires forall i | 0 <= i < |chunks| :: chunks[i].body == BodyOf(configured[i].body)
    ensures PlainBody(chunks) == ConfiguredChunks(configured)
  {
    if chunks != [] {
      ChunksAsConfigured(chunks[1..], configured[1..]);
    }
  }

  lemma PlanAsConfigured(plan: Plan, defaults: HeaderMap, r: ResponseConfig, close: bool)
    requires ResponsePlan(plan, defaults, r, close)
    ensures plan.status == r.status && plan.delay == r.delay && ContentOf(plan) == ConfiguredContent(r)
    ensures forall i | 0 <= i < |plan.chunks| :: i < |r.chunks| && plan.chunks[i].delay == r.chunks[i].delay
  {
    hide MergedFrom;
    ChunksAsConfigured(plan.chunks, r.chunks);
  }

  /** The configured answer to a request: the code and content of the response
      that its route has for this occurrence, or else of the fallback. */
  ghost predicate ConfiguredAnswer(s: Service, history: seq<Request>, r: Request, code: nat, content: Bytes) {
    if exists i :: 0 <= i < |s.routes| && s.routes[i].verb == r.verb && s.routes[i].path == r.path then
      exists i, j ::
        && 0 <= i < |s.routes| && s.routes[i].verb == r.verb && s.routes[i].path == r.path
        && 0 <= j < |s.routes[i].responses|
        && var response := s.routes[i].responses[j];
           && (response.isDefault || response.number == Count(history, r) + 1)
           && code == response.status && content == ConfiguredContent(response)
    else code == s.fallback.status && content == BodyOf(s.fallback.body)
  }

  lemma ChosenIsConfigured(s: Service, history: seq<Request>, r: Request, close: bool, sel: Selection)
    requires Promised(s, history, r, close, sel)
    ensures ConfiguredAnswer(s, history, r, sel.plan.status, ContentOf(sel.plan))
  {
    hide ResponsePlan, MergedFrom, ConfiguredContent, Numbers, ContentOf;
    match sel.route {
      case Some(i) =>
        var route := s.routes[i];
        var j :| 0 <= j < |route.responses| && ResponsePlan(sel.plan, s.defaultHeaders, route.responses[j], close)
                 && (route.responses[j].isDefault || route.responses[j].number == Count(history, r) + 1);
        PlanAsConfigured(sel.plan, s.defaultHeaders, route.responses[j], close);
        assert s.routes[i].verb == r.verb && s.routes[i].path == r.path;
      case None =>
        FallbackContent(sel.plan, s.defaultHeaders, s.fallback, close);
        assert forall i | 0 <= i < |s.routes| :: !Matches(s.routes[i], r);
    }
  }

  lemma FallbackContent(plan: Plan, defaults: HeaderMap, f: Fallback, close: bool)
    requires FallbackPlan(plan, defaults, f, close)
    ensures ContentOf(plan) == BodyOf(f.body)
  {
    hide MergedFrom;
  }

  /** From the configuration to the client: a response that is read to its end
      has the configured code and, where there is content at all, the configured content. */
  lemma ClientsReadWhatIsConfigured(s: Service, limit: int, history: seq<Request>, r: Request, close: bool, sel: Selection,
                                    c: Context)
    requires ValidService(s, limit) && Promised(s, history, r, close, sel) && (IsHttp10(c) || IsHttp11(c))
    requires PlainStatusText(c, sel.plan.status)
    ensures DecodeResponse(c.verb, Rendered(c, sel.plan)).Some?
    ensures var m := DecodeResponse(c.verb, Rendered(c, sel.plan)).value;
            && (m.rest == [] && !EqualFold(c.verb, Text("HEAD")) && m.status.code !in [204, 304] ==>
                  ConfiguredAnswer(s, history, r, m.status.code, m.body))
            && exists content :: ConfiguredAnswer(s, history, r, m.status.code, content)
  {
    hide ValidService, Promised, Fault, FramedHeaders, FieldsFor, DecodeResponse, EqualFold, ValueNamed, Text, Named;
    hide ConfiguredAnswer, PhraseOf, Rendered, AllNonEmpty, ContentOf, PlainStatusText;
    ResponsesDecode(s, limit, history, r, close, sel, c);
    ChosenIsConfigured(s, history, r, close, sel);
  }

  lemma SingleLetterIsToken()
    ensures IsToken([88])
  {
    TokenBytes([88]);
  }

  /** What the validator's ban on line ends in values is for: the value
      "a CR LF Content-Length: 0" prints as two fields. */
  lemma LineEndInAValueAddsAField()
    ensures var value := [97, 13, 10] + CONTENT_LENGTH + [58, 32, 48];
            && !ValueAllowed(value)
            && DecodeFields(HeaderLine([88], value) + CRLF) == Some(Block([Field([88], Trim([97])), Field(CONTENT_LENGTH, Trim([48]))], []))
  {
    hide IsToken, Text, Trim, DecodeFields;
    var value := [97, 13, 10] + CONTENT_LENGTH + [58, 32, 48];
    assert value[1] == 13;
    ContentLengthIsToken();
    SingleLetterIsToken();
    var second := HeaderLine(CONTENT_LENGTH, [48]);
    assert HeaderLine([88], value) + CRLF == HeaderLine([88], [97]) + (second + CRLF);
    OneLine([88], [97], second + CRLF);
    OneLine(CONTENT_LENGTH, [48], CRLF);
    NoLines([]);
    assert CRLF + [] == CRLF;
    assert [Field([88], Trim([97]))] + ([Field(CONTENT_LENGTH, Trim([48]))] + [])
        == [Field([88], Trim([97])), Field(CONTENT_LENGTH, Trim([48]))];
  }
}
