/** The streaming response printer (Write, internal/response/response.go). */
module Printer {
  import opened Wrappers
  import opened Bytes
  import opened Format
  import opened Headers
  import opened Rendering
  import opened Traces
  import opened ConnectionIO

  /** A deadline or cancellation that, once it has struck, stays. */
  class StreamContext {
    const env: Surroundings
    var fault: Option<Failure>

    constructor (env: Surroundings)
      ensures this.env == env && fault.None? && Valid()
    {
      this.env := env;
      fault := None;
    }

    /** Once it has struck, nothing more is asked. */
    ghost predicate Valid()
      reads this, env
    {
      fault.Some? ==>
        || (fault.value == StreamDeadline && EndsWith(env.answers, [Yes(StreamOver)]))
        || (fault.value == Canceled && EndsWith(env.answers, [No(StreamOver), Yes(Cancelled)]))
    }

    method Err() returns (e: Option<Failure>)
      requires Valid()
      modifies this, env
      ensures Valid() && e == fault && (old(fault).Some? ==> fault == old(fault)) && old(env.answers) <= env.answers
      ensures e.None? ==> env.answers == old(env.answers) + [No(StreamOver), No(Cancelled)]
      ensures e.None? ==> EndsWith(env.answers, [No(StreamOver), No(Cancelled)])
    {
      if fault.None? {
        var over := env.Happens(StreamOver);
        if over {
          fault := Some(StreamDeadline);
          return fault;
        }
        var cancelled := env.Happens(Cancelled);
        if cancelled {
          fault := Some(Canceled);
        }
      }
      e := fault;
    }
  }

  /** So many waits that nothing cut short. */
  function Waited(n: nat): (answers: seq<Sighting>)
    ensures |answers| == 2 * n
  {
    if n == 0 then [] else Waited(n - 1) + [No(StreamOver), No(Cancelled)]
  }

  lemma {:induction false} WaitedMore(m: nat, n: nat)
    ensures Waited(m) + Waited(n) == Waited(m + n)
  {
    if n == 0 {
      assert Waited(m) + [] == Waited(m);
    } else {
      WaitedMore(m, n - 1);
      Assoc(Waited(m), Waited(n - 1), [No(StreamOver), No(Cancelled)]);
    }
  }

  function WaitsFor(delay: int): nat {
    if delay > 0 then 1 else 0
  }

  function WaitsIn(chunks: seq<Chunk>): nat {
    if chunks == [] then 0 else WaitsIn(chunks[..|chunks| - 1]) + WaitsFor(chunks[|chunks| - 1].delay)
  }

  /** How often a response is waited for: before it, and before each of its
      chunks, where a delay is configured. */
  function WaitsOf(c: Context, plan: Plan): nat {
    WaitsFor(plan.delay) + if plan.mode == Ndjson && !BodyOmitted(c, plan) then WaitsIn(plan.chunks) else 0
  }

  /** Sleeps, unless the context strikes first. */
  method Wait(ctx: StreamContext, delay: int) returns (err: Option<Failure>)
    requires ctx.Valid()
    modifies ctx, ctx.env
    ensures ctx.Valid() && old(ctx.env.answers) <= ctx.env.answers
    ensures err.Some? ==> err == ctx.fault && (err.value == StreamDeadline || err.value == Canceled)
    ensures delay <= 0 ==> err.None?
    ensures err.None? ==> ctx.env.answers == old(ctx.env.answers) + Waited(WaitsFor(delay))
  {
    assert Waited(1) == Waited(0) + [No(StreamOver), No(Cancelled)] == [No(StreamOver), No(Cancelled)];
    if delay <= 0 {
      return None;
    }
    err := ctx.Err();
  }

  /** The state of the connection when printing starts. */
  datatype Start = Start(sent: Bytes, hashed: Bytes, flags: Bytes, out: Bytes, notes: seq<Draft>, faults: set<Failure>, healthy: bool)

  ghost function StartOf(w: ExchangeWriter): Start
    reads w, w.reader, w.reader.conn, w.reader.bwj
  {
    Start(w.reader.conn.sent, w.hashed, w.reader.outFlags, w.reader.Out(), w.reader.Notes(), w.reader.conn.faults, w.reader.bwj.healthy)
  }

  /** Counts and hashes what passes through. */
  class HashWriter {
    const w: ExchangeWriter
    var hashed: Bytes
    var n: nat

    constructor (w: ExchangeWriter)
      ensures this.w == w && hashed == [] && n == 0
    {
      this.w := w;
      hashed, n := [], 0;
    }

    /** Exactly a front part of `whole` has gone out since the start, and no note was made. */
    ghost predicate SentOf(whole: Bytes, from: Start)
      reads this, w, w.reader, w.reader.conn, w.reader.bwj, w.reader.counters
    {
      && w.reader.Valid()
      && n <= |whole|
      && hashed == whole[..n]
      && w.reader.conn.sent == from.sent + whole[..n]
      && w.hashed == from.hashed + whole[..n]
      && w.reader.outFlags == from.flags + Repeat(w.Flags(), n)
      && from.faults <= w.reader.conn.faults
      && |from.out| <= |w.reader.Out()|
      && (w.reader.bwj.healthy ==> from.healthy && w.reader.Notes() == from.notes)
    }

    /** Everything sent was journalled, if it was at the start. */
    ghost predicate InStep(from: Start)
      reads w, w.reader, w.reader.conn, w.reader.bwj
    {
      from.out == from.sent ==> w.reader.Out() == w.reader.conn.sent
    }

    lemma StillInBounds(whole: Bytes, from: Start)
      requires SentOf(whole, from)
      ensures n <= |whole|
    {
    }

    /** `piece` is what comes next in the whole, with `after` behind it. */
    ghost predicate AboutTo(whole: Bytes, from: Start, piece: Bytes, after: Bytes)
      reads this, w, w.reader, w.reader.conn, w.reader.bwj, w.reader.counters
    {
      SentOf(whole, from) && InStep(from) && NextIs(whole, n, piece, after)
    }

    /** The piece went out and `after` comes next, or the error says why not;
        an error after the very last byte comes from the write that took it. */
    ghost predicate Wrote(whole: Bytes, from: Start, after: Bytes, err: Option<Failure>)
      reads this, w, w.reader, w.reader.conn, w.reader.bwj, w.reader.counters
    {
      && SentOf(whole, from) && w.reader.Explains(err)
      && (err.None? ==> InStep(from) && whole[n..] == after)
      && (err.Some? ==> WriteFailure(err.value) && (n == |whole| ==> LateFailure(err.value)))
    }

    method Write(data: Bytes) returns (k: nat, err: Option<Failure>)
      requires w.reader.Valid()
      modifies this, w`hashed, w.reader.conn`sent, w.reader.conn`faults, w.reader.conn`recent, w.reader.conn`armed
      modifies w.reader.bwj, w.reader.counters`bytesOut, w.reader`outFlags
      ensures w.reader.Valid() && w.reader.Explains(err) && old(w.reader.conn.faults) <= w.reader.conn.faults
      ensures k <= |data| && n == old(n) + k && hashed == old(hashed) + data[..k]
      ensures w.reader.conn.sent == old(w.reader.conn.sent) + data[..k] && w.hashed == old(w.hashed) + data[..k]
      ensures w.reader.outFlags == old(w.reader.outFlags) + Repeat(w.Flags(), k)
      ensures data != [] && k == 0 ==> err.Some?
      ensures err.Some? ==> WriteFailure(err.value)
      ensures err == Some(ConnectionLimit) && data != [] ==> k < |data|
      ensures err == Some(ShortWrite) && data != [] ==> k < |data|
      ensures |old(w.reader.Out())| <= |w.reader.Out()|
      ensures err.None? && old(w.reader.Out()) == old(w.reader.conn.sent) ==> w.reader.Out() == w.reader.conn.sent
      ensures w.reader.bwj.healthy ==> old(w.reader.bwj.healthy) && w.reader.Notes() == old(w.reader.Notes())
    {
      hide RecordingReader.Valid, RecordingReader.Out, RecordingReader.Notes;
      k, err := w.Write(data);
      hashed := hashed + data[..k];
      n := n + k;
    }
  }

  /** What a write can fail with. */
  predicate WriteFailure(f: Failure) {
    f in [Timeout, Broken, ConnectionLimit, JournalFailed, ShortWrite]
  }

  /** What a write that took its last byte can still fail with. */
  predicate LateFailure(f: Failure) {
    f in [Timeout, Broken, JournalFailed]
  }

  /** What printing can fail with. */
  predicate PrintFailure(f: Failure) {
    WriteFailure(f) || f == StreamDeadline || f == Canceled
  }

  lemma SentMore(whole: Bytes, before: Bytes, n: nat, part: Bytes)
    requires n + |part| <= |whole| && whole[n..n + |part|] == part
    ensures before + whole[..n] + part == before + whole[..n + |part|]
    ensures whole[..n] + part == whole[..n + |part|]
  {
    assert whole[..n + |part|] == whole[..n] + part;
  }

  /** A piece stands next in the whole, with `after` behind it. */
  ghost predicate NextIs(whole: Bytes, n: nat, piece: Bytes, after: Bytes) {
    n <= |whole| && whole[n..] == piece + after
  }

  lemma NextPiece(whole: Bytes, n: nat, piece: Bytes, after: Bytes)
    requires NextIs(whole, n, piece, after)
    ensures n + |piece| <= |whole| && whole[n..n + |piece|] == piece && whole[n + |piece|..] == after
  {
    assert whole[n..n + |piece|] == whole[n..][..|piece|];
    assert whole[n + |piece|..] == whole[n..][|piece|..];
  }

  /** writeAll: repeats short writes; what went out stays a front part of the whole. */
  method WriteAll(hw: HashWriter, data: Bytes, ghost after: Bytes, ghost whole: Bytes, ghost from: Start)
    returns (err: Option<Failure>)
    requires hw.AboutTo(whole, from, data, after)
    modifies hw, hw.w`hashed, hw.w.reader.conn`sent, hw.w.reader.conn`faults, hw.w.reader.conn`recent, hw.w.reader.conn`armed
    modifies hw.w.reader.bwj, hw.w.reader.counters`bytesOut, hw.w.reader`outFlags
    ensures hw.Wrote(whole, from, after, err)
  {
    hide RecordingReader.Valid, RecordingReader.Out, RecordingReader.Notes, RecordingReader.Explains;
    var rest := data;
    while |rest| > 0
      invariant hw.AboutTo(whole, from, rest, after)
      decreases |rest|
    {
      ghost var at := hw.n;
      NextPiece(whole, at, rest, after);
      var k, failure := hw.Write(rest);
      assert whole[at..at + k] == rest[..k];
      SentMore(whole, from.sent, at, rest[..k]);
      SentMore(whole, from.hashed, at, rest[..k]);
      RepeatMore(hw.w.Flags(), at, k);
      assert rest + after == rest[..k] + (rest[k..] + after);
      NextPiece(whole, at, rest[..k], rest[k..] + after);
      rest := rest[k..];
      if failure.Some? {
        return failure;
      }
    }
    assert [] + after == after;
    err := None;
    NothingExplained(hw);
  }

  lemma NothingExplained(hw: HashWriter)
    ensures hw.w.reader.Explains(None)
  {
  }

  /** Header lines, one after the other. */
  method WriteLines(hw: HashWriter, lines: seq<Bytes>, ghost after: Bytes, ghost whole: Bytes, ghost from: Start)
    returns (err: Option<Failure>)
    requires hw.AboutTo(whole, from, Flatten(lines), after)
    modifies hw, hw.w`hashed, hw.w.reader.conn`sent, hw.w.reader.conn`faults, hw.w.reader.conn`recent, hw.w.reader.conn`armed
    modifies hw.w.reader.bwj, hw.w.reader.counters`bytesOut, hw.w.reader`outFlags
    ensures hw.Wrote(whole, from, after, err)
  {
    hide HashWriter.SentOf, HashWriter.InStep, RecordingReader.Explains, WriteFailure, LateFailure;
    var i := 0;
    assert lines[0..] == lines;
    while i < |lines|
      invariant i <= |lines|
      invariant hw.AboutTo(whole, from, Flatten(lines[i..]), after)
    {
      assert lines[i..][1..] == lines[i + 1..];
      Assoc(lines[i], Flatten(lines[i + 1..]), after);
      err := WriteAll(hw, lines[i], Flatten(lines[i + 1..]) + after, whole, from);
      if err.Some? {
        return;
      }
      hw.StillInBounds(whole, from);
      i := i + 1;
    }
    assert [] + after == after;
    NothingExplained(hw);
    return None;
  }

  /** One chunk: its size line, its bytes, its line end. */
  method WriteChunk(hw: HashWriter, body: Bytes, ghost after: Bytes, ghost whole: Bytes, ghost from: Start)
    returns (err: Option<Failure>)
    requires hw.AboutTo(whole, from, Hex(|body|) + CRLF + body + CRLF, after)
    modifies hw, hw.w`hashed, hw.w.reader.conn`sent, hw.w.reader.conn`faults, hw.w.reader.conn`recent, hw.w.reader.conn`armed
    modifies hw.w.reader.bwj, hw.w.reader.counters`bytesOut, hw.w.reader`outFlags
    ensures hw.Wrote(whole, from, after, err)
  {
    hide HashWriter.SentOf, HashWriter.InStep, RecordingReader.Explains, WriteFailure, LateFailure, Hex;
    var prefix := Hex(|body|) + CRLF;
    assert prefix + body + CRLF + after == prefix + (body + (CRLF + after));
    err := WriteAll(hw, prefix, body + (CRLF + after), whole, from);
    if err.Some? {
      return;
    }
    hw.StillInBounds(whole, from);
    err := WriteAll(hw, body, CRLF + after, whole, from);
    if err.Some? {
      return;
    }
    hw.StillInBounds(whole, from);
    err := WriteAll(hw, CRLF, after, whole, from);
  }

  /** The streamed body in the framing of the version. */
  ghost function StreamedBody(chunked: bool, chunks: seq<Chunk>): Bytes {
    if chunked then ChunkedBody(chunks) else PlainBody(chunks)
  }

  /** A wait that fails when nothing is left to send: only empty chunks without framing remain. */
  ghost predicate OnlyEmptyLeft(chunked: bool, chunks: seq<Chunk>) {
    !chunked && chunks != [] && chunks[|chunks| - 1].body == []
  }

  lemma {:induction false} NothingLeft(chunked: bool, chunks: seq<Chunk>)
    requires chunks != [] && StreamedBody(chunked, chunks) == []
    ensures OnlyEmptyLeft(chunked, chunks)
  {
    if !chunked {
      PlainBodyAppend(chunks[..|chunks| - 1], [chunks[|chunks| - 1]]);
      assert chunks == chunks[..|chunks| - 1] + [chunks[|chunks| - 1]];
      assert PlainBody([chunks[|chunks| - 1]]) == chunks[|chunks| - 1].body + PlainBody([]);
    }
  }

  /** What printing a stream leaves: all of it, or an error; an error after the
      very last byte comes from the write that took it, or from waiting for an
      empty chunk. */
  ghost predicate Streamed(hw: HashWriter, ctx: StreamContext, whole: Bytes, from: Start, err: Option<Failure>, quiet: bool)
    reads ctx, ctx.env, hw, hw.w, hw.w.reader, hw.w.reader.conn, hw.w.reader.bwj, hw.w.reader.counters
  {
    && ctx.Valid() && hw.SentOf(whole, from) && hw.w.reader.Explains(err)
    && (err.None? ==> hw.InStep(from) && hw.n == |whole|)
    && (err.Some? ==>
          if WriteFailure(err.value) then hw.n == |whole| ==> LateFailure(err.value)
          else ctx.fault == err && err.value in [StreamDeadline, Canceled] && (hw.n == |whole| ==> quiet))
  }

  /** One chunk in the framing of the version. */
  method WriteNext(ctx: StreamContext, hw: HashWriter, chunked: bool, chunks: seq<Chunk>, i: nat, ghost whole: Bytes, ghost from: Start)
    returns (err: Option<Failure>)
    requires ctx.Valid() && i < |chunks| && hw.AboutTo(whole, from, StreamedBody(chunked, chunks[i..]), [])
    modifies hw, hw.w`hashed, hw.w.reader.conn`sent, hw.w.reader.conn`faults, hw.w.reader.conn`recent, hw.w.reader.conn`armed
    modifies hw.w.reader.bwj, hw.w.reader.counters`bytesOut, hw.w.reader`outFlags
    ensures err.None? ==> hw.AboutTo(whole, from, StreamedBody(chunked, chunks[i + 1..]), [])
    ensures err.Some? ==> Streamed(hw, ctx, whole, from, err, OnlyEmptyLeft(chunked, chunks))
  {
    hide HashWriter.SentOf, HashWriter.InStep, RecordingReader.Explains, LateFailure, Hex;
    hide StreamContext.Valid, OnlyEmptyLeft;
    assert chunks[i..][1..] == chunks[i + 1..];
    ghost var after := StreamedBody(chunked, chunks[i + 1..]);
    assert StreamedBody(chunked, chunks[i..]) + [] == StreamedBody(chunked, chunks[i..]) && after + [] == after;
    if chunked {
      err := WriteChunk(hw, chunks[i].body, after, whole, from);
    } else {
      err := WriteAll(hw, chunks[i].body, after, whole, from);
    }
    hw.StillInBounds(whole, from);
  }

  lemma WaitFailed(ctx: StreamContext, hw: HashWriter, chunked: bool, chunks: seq<Chunk>, i: nat, whole: Bytes, from: Start)
    requires ctx.Valid() && i < |chunks| && hw.AboutTo(whole, from, StreamedBody(chunked, chunks[i..]), [])
    requires ctx.fault.Some?
    ensures Streamed(hw, ctx, whole, from, ctx.fault, OnlyEmptyLeft(chunked, chunks))
  {
    hide HashWriter.SentOf, HashWriter.InStep, ChunkedBody, PlainBody;
    hw.StillInBounds(whole, from);
    hw.w.reader.ExplainsOther();
    assert StreamedBody(chunked, chunks[i..]) + [] == StreamedBody(chunked, chunks[i..]);
    if hw.n == |whole| {
      NothingLeft(chunked, chunks[i..]);
    }
  }

  /** The body of a streamed response, chunked over HTTP/1.1 and plain over HTTP/1.0. */
  method WriteStream(ctx: StreamContext, hw: HashWriter, chunked: bool, chunks: seq<Chunk>, ghost whole: Bytes, ghost from: Start)
    returns (err: Option<Failure>)
    requires ctx.Valid() && hw.AboutTo(whole, from, StreamedBody(chunked, chunks), [])
    modifies ctx, ctx.env, hw, hw.w`hashed, hw.w.reader.conn`sent, hw.w.reader.conn`faults, hw.w.reader.conn`recent, hw.w.reader.conn`armed
    modifies hw.w.reader.bwj, hw.w.reader.counters`bytesOut, hw.w.reader`outFlags
    ensures Streamed(hw, ctx, whole, from, err, OnlyEmptyLeft(chunked, chunks)) && old(ctx.env.answers) <= ctx.env.answers
    ensures err.None? ==> ctx.env.answers == old(ctx.env.answers) + Waited(WaitsIn(chunks))
  {
    hide HashWriter.AboutTo, Streamed, StreamedBody, StreamContext.Valid, OnlyEmptyLeft, Waited;
    var i := 0;
    assert chunks[0..] == chunks && chunks[..0] == [];
    ghost var before := ctx.env.answers;
    NoWait(before);
    while i < |chunks|
      invariant i <= |chunks| && ctx.Valid() && old(ctx.env.answers) <= ctx.env.answers
      invariant hw.AboutTo(whole, from, StreamedBody(chunked, chunks[i..]), [])
      invariant ctx.env.answers == before + Waited(WaitsIn(chunks[..i]))
    {
      OneMoreWait(before, chunks, i);
      err := Wait(ctx, chunks[i].delay);
      if err.Some? {
        WaitFailed(ctx, hw, chunked, chunks, i, whole, from);
        return;
      }
      err := WriteNext(ctx, hw, chunked, chunks, i, whole, from);
      if err.Some? {
        return;
      }
      i := i + 1;
    }
    assert chunks[..i] == chunks;
    err := WriteLast(ctx, hw, chunked, chunks, whole, from);
  }

  lemma NoWait(before: seq<Sighting>)
    ensures before + Waited(0) == before
  {
  }

  lemma OneMoreWait(before: seq<Sighting>, chunks: seq<Chunk>, i: nat)
    requires i < |chunks|
    ensures before + Waited(WaitsIn(chunks[..i])) + Waited(WaitsFor(chunks[i].delay)) == before + Waited(WaitsIn(chunks[..i + 1]))
  {
    assert chunks[..i + 1][..i] == chunks[..i];
    WaitedMore(WaitsIn(chunks[..i]), WaitsFor(chunks[i].delay));
    Assoc(before, Waited(WaitsIn(chunks[..i])), Waited(WaitsFor(chunks[i].delay)));
  }

  /** The last chunk, where there is one. */
  method WriteLast(ctx: StreamContext, hw: HashWriter, chunked: bool, chunks: seq<Chunk>, ghost whole: Bytes, ghost from: Start)
    returns (err: Option<Failure>)
    requires ctx.Valid() && hw.AboutTo(whole, from, StreamedBody(chunked, chunks[|chunks|..]), [])
    modifies hw, hw.w`hashed, hw.w.reader.conn`sent, hw.w.reader.conn`faults, hw.w.reader.conn`recent, hw.w.reader.conn`armed
    modifies hw.w.reader.bwj, hw.w.reader.counters`bytesOut, hw.w.reader`outFlags
    ensures Streamed(hw, ctx, whole, from, err, OnlyEmptyLeft(chunked, chunks))
  {
    hide HashWriter.SentOf, HashWriter.InStep, RecordingReader.Explains, LateFailure, StreamContext.Valid;
    hide OnlyEmptyLeft;
    err := None;
    assert LAST_CHUNK + [] == LAST_CHUNK;
    if chunked {
      err := WriteAll(hw, LAST_CHUNK, [], whole, from);
    } else {
      NothingExplained(hw);
    }
    hw.StillInBounds(whole, from);
  }

  /** Status line and header block. */
  method WriteHead(hw: HashWriter, c: Context, plan: Plan, lines: seq<Bytes>, ghost from: Start)
    returns (err: Option<Failure>)
    requires hw.n == 0 && hw.SentOf(WireForm(c, plan, lines), from) && hw.InStep(from)
    modifies hw, hw.w`hashed, hw.w.reader.conn`sent, hw.w.reader.conn`faults, hw.w.reader.conn`recent, hw.w.reader.conn`armed
    modifies hw.w.reader.bwj, hw.w.reader.counters`bytesOut, hw.w.reader`outFlags
    ensures hw.Wrote(WireForm(c, plan, lines), from, BodyBytes(c, plan), err)
  {
    hide HashWriter.SentOf, HashWriter.InStep, RecordingReader.Explains, WriteFailure, LateFailure;
    hide StatusLine, BodyBytes, Flatten;
    ghost var whole := WireForm(c, plan, lines);
    var status := StatusLine(c, plan.status);
    ghost var body := BodyBytes(c, plan);
    assert whole[0..] == whole == status + (Flatten(lines) + (CRLF + body));
    err := WriteAll(hw, status, Flatten(lines) + (CRLF + body), whole, from);
    if err.Some? {
      return;
    }
    hw.StillInBounds(whole, from);
    err := WriteLines(hw, lines, CRLF + body, whole, from);
    if err.Some? {
      return;
    }
    hw.StillInBounds(whole, from);
    err := WriteAll(hw, CRLF, body, whole, from);
  }

  lemma WroteIt(ctx: StreamContext, hw: HashWriter, whole: Bytes, from: Start, after: Bytes, err: Option<Failure>, quiet: bool)
    requires ctx.Valid() && hw.Wrote(whole, from, after, err)
    ensures err.Some? || after == [] ==> Streamed(hw, ctx, whole, from, err, quiet)
    ensures err.None? ==> hw.AboutTo(whole, from, after, [])
  {
    hide HashWriter.SentOf, HashWriter.InStep, RecordingReader.Explains, LateFailure, StreamContext.Valid;
    hw.StillInBounds(whole, from);
    assert after + [] == after;
  }

  /** The body in the mode of the plan. */
  method PrintBody(ctx: StreamContext, hw: HashWriter, c: Context, plan: Plan, ghost whole: Bytes, ghost from: Start)
    returns (err: Option<Failure>)
    requires ctx.Valid() && Fault(c, plan).None? && !BodyOmitted(c, plan) && hw.AboutTo(whole, from, BodyBytes(c, plan), [])
    modifies ctx, ctx.env, hw, hw.w`hashed, hw.w.reader.conn`sent, hw.w.reader.conn`faults, hw.w.reader.conn`recent, hw.w.reader.conn`armed
    modifies hw.w.reader.bwj, hw.w.reader.counters`bytesOut, hw.w.reader`outFlags
    ensures Streamed(hw, ctx, whole, from, err, WaitsInVain(c, plan)) && old(ctx.env.answers) <= ctx.env.answers
    ensures err.None? ==> ctx.env.answers == old(ctx.env.answers) + Waited(if plan.mode == Ndjson then WaitsIn(plan.chunks) else 0)
  {
    hide HashWriter.AboutTo, HashWriter.Wrote, Streamed, ChunkedBody, PlainBody, StreamContext.Valid;
    hide OnlyEmptyLeft, BodyOmitted, Waited;
    NoWait(ctx.env.answers);
    if plan.mode == Ndjson {
      err := WriteStream(ctx, hw, IsHttp11(c), plan.chunks, whole, from);
    } else {
      err := WriteAll(hw, plan.body, [], whole, from);
      WroteIt(ctx, hw, whole, from, [], err, WaitsInVain(c, plan));
    }
  }

  /** The whole rendering, piece by piece. */
  method PrintPieces(ctx: StreamContext, hw: HashWriter, c: Context, plan: Plan, lines: seq<Bytes>, ghost from: Start)
    returns (err: Option<Failure>)
    requires ctx.Valid() && hw.n == 0 && hw.SentOf(WireForm(c, plan, lines), from) && hw.InStep(from)
    requires Fault(c, plan).None?
    modifies ctx, ctx.env, hw, hw.w`hashed, hw.w.reader.conn`sent, hw.w.reader.conn`faults, hw.w.reader.conn`recent, hw.w.reader.conn`armed
    modifies hw.w.reader.bwj, hw.w.reader.counters`bytesOut, hw.w.reader`outFlags
    ensures Streamed(hw, ctx, WireForm(c, plan, lines), from, err, WaitsInVain(c, plan)) && old(ctx.env.answers) <= ctx.env.answers
    ensures err.None? ==>
              ctx.env.answers == old(ctx.env.answers)
                                 + Waited(if plan.mode == Ndjson && !BodyOmitted(c, plan) then WaitsIn(plan.chunks) else 0)
  {
    hide HashWriter.SentOf, HashWriter.InStep, HashWriter.AboutTo, HashWriter.Wrote, Streamed, WireForm, Waited;
    NoWait(ctx.env.answers);
    hide StreamContext.Valid, WaitsInVain, Fault;
    hide ChunkedBody, PlainBody, BodyOmitted;
    ghost var whole := WireForm(c, plan, lines);
    err := WriteHead(hw, c, plan, lines, from);
    WroteIt(ctx, hw, whole, from, BodyBytes(c, plan), err, WaitsInVain(c, plan));
    if err.Some? || BodyOmitted(c, plan) {
      return;
    }
    err := PrintBody(ctx, hw, c, plan, whole, from);
  }

  /** A stream over HTTP/1.0 whose last chunk is empty, so that a wait can outlast the last byte. */
  ghost predicate WaitsInVain(c: Context, plan: Plan) {
    plan.mode == Ndjson && OnlyEmptyLeft(IsHttp11(c), plan.chunks)
  }

  /** `bytes` and `hashed` describe what was sent. */
  datatype WriteResult = WriteResult(bytes: nat, hashed: Bytes, complete: bool, error: Option<Failure>)

  /** Sends a front part of the response and reports exactly what was sent;
      complete exactly when there was no error, and then all of it went out.
      All of it can be out without being complete only if the write that took
      the last byte still reported an error, or a wait for an empty chunk
      failed. Nothing at all goes out when there is no rendering or it exceeds
      the budget. The response is the rendering unless header names collide. */
  method Write(ctx: StreamContext, w: ExchangeWriter, c: Context, plan: Plan, maxBytes: int)
    returns (r: WriteResult, ghost whole: Bytes)
    requires ctx.Valid() && w.reader.Valid()
    modifies ctx, ctx.env, w`hashed, w.reader.conn`sent, w.reader.conn`faults, w.reader.conn`recent, w.reader.conn`armed
    modifies w.reader.bwj, w.reader.counters`bytesOut, w.reader`outFlags
    ensures ctx.Valid() && w.reader.Valid() && w.reader.Explains(r.error)
    ensures old(ctx.env.answers) <= ctx.env.answers && old(w.reader.conn.faults) <= w.reader.conn.faults
    ensures CanonicalNamesDiffer(plan.headers) && Fault(c, plan).None? ==> whole == Rendered(c, plan)
    ensures r.bytes <= |whole| && r.hashed == whole[..r.bytes]
    ensures w.reader.conn.sent == old(w.reader.conn.sent) + r.hashed && w.hashed == old(w.hashed) + r.hashed
    ensures w.reader.outFlags == old(w.reader.outFlags) + Repeat(w.Flags(), r.bytes)
    ensures r.complete <==> r.error.None?
    ensures r.complete ==> ctx.env.answers == old(ctx.env.answers) + Waited(WaitsOf(c, plan))
    ensures r.complete ==> r.bytes == |whole| && Fault(c, plan).None?
    ensures r.bytes == |whole| && Fault(c, plan).None? && !r.complete ==>
              LateFailure(r.error.value) || (r.error == ctx.fault && WaitsInVain(c, plan))
    ensures r.error == Some(ConnectionLimit) ==> r.bytes < |whole|
    ensures r.error == Some(Unsupported) <==> Fault(c, plan).Some?
    ensures r.error.Some? && r.error.value in [Unsupported, ResponseLimit] ==> r.bytes == 0
    ensures CanonicalNamesDiffer(plan.headers) && Fault(c, plan).None? ==> (r.error == Some(ResponseLimit) <==> |whole| > maxBytes)
    ensures CanonicalNamesDiffer(plan.headers) && r.bytes > 0 ==> r.bytes <= maxBytes
    ensures r.error.Some? ==> PrintFailure(r.error.value) || r.error.value in [Unsupported, ResponseLimit]
    ensures r.error.Some? && r.error.value in [StreamDeadline, Canceled] ==> ctx.fault == r.error
    ensures w.reader.bwj.healthy ==> old(w.reader.bwj.healthy) && w.reader.Notes() == old(w.reader.Notes())
    ensures |old(w.reader.Out())| <= |w.reader.Out()|
    ensures r.error.None? && old(w.reader.Out()) == old(w.reader.conn.sent) ==> w.reader.Out() == w.reader.conn.sent
  {
    hide RecordingReader.Valid, RecordingReader.Out, RecordingReader.Notes, HeaderLines, CanonicalNamesDiffer;
    hide Fault, WireForm;
    hide WaitsInVain, StreamContext.Valid, RecordingReader.Explains, Waited, BodyOmitted;
    ghost var before := ctx.env.answers;
    WaitsAddUp(before, c, plan);
    var fits, lines := PlanToPrint(c, plan, maxBytes);
    whole := if lines.Some? then WireForm(c, plan, lines.value) else [];
    NothingSent(whole, w.reader.conn.sent, w.hashed, w.reader.outFlags, w.Flags());
    w.reader.ExplainsOther();
    if lines.Some? {
      WireFormIsNotEmpty(c, plan, lines.value);
    }
    if fits.Some? {
      return WriteResult(0, [], false, fits), whole;
    }
    var err := Wait(ctx, plan.delay);
    if err.Some? {
      return WriteResult(0, [], false, err), whole;
    }
    ghost var from := StartOf(w);
    var hw := new HashWriter(w);
    err := PrintPieces(ctx, hw, c, plan, lines.value, from);
    r := WriteResult(hw.n, hw.hashed, err.None?, err);
  }

  /** The size check and the header lines, which the source computes after it. */
  method PlanToPrint(c: Context, plan: Plan, maxBytes: int) returns (refused: Option<Failure>, lines: Option<seq<Bytes>>)
    ensures refused.Some? ==> refused.value in [Unsupported, ResponseLimit]
    ensures refused == Some(Unsupported) <==> Fault(c, plan).Some?
    ensures lines.Some? <==> Fault(c, plan).None?
    ensures CanonicalNamesDiffer(plan.headers) && lines.Some? ==> WireForm(c, plan, lines.value) == Rendered(c, plan)
    ensures CanonicalNamesDiffer(plan.headers) && lines.Some? ==> (refused.Some? <==> |Rendered(c, plan)| > maxBytes)
  {
    hide HeaderLines, CanonicalNamesDiffer, Fault, StatusLine, BodyBytes;
    var wireSize := IntendedWireSize(c, plan);
    var headers := ResponseHeaders(c, plan);
    if wireSize.Err? {
      return Some(Unsupported), None;
    }
    lines := Some(headers.value);
    refused := if wireSize.value > maxBytes then Some(ResponseLimit) else None;
  }

  lemma WaitsAddUp(before: seq<Sighting>, c: Context, plan: Plan)
    ensures var inside := if plan.mode == Ndjson && !BodyOmitted(c, plan) then WaitsIn(plan.chunks) else 0;
            before + Waited(WaitsFor(plan.delay)) + Waited(inside) == before + Waited(WaitsOf(c, plan))
  {
    var inside := if plan.mode == Ndjson && !BodyOmitted(c, plan) then WaitsIn(plan.chunks) else 0;
    WaitedMore(WaitsFor(plan.delay), inside);
    Assoc(before, Waited(WaitsFor(plan.delay)), Waited(inside));
  }

  lemma WireFormIsNotEmpty(c: Context, plan: Plan, lines: seq<Bytes>)
    ensures WireForm(c, plan, lines) != []
  {
  }

  lemma NothingSent(whole: Bytes, sent: Bytes, hashed: Bytes, flags: Bytes, flag: byte)
    ensures whole[..0] == [] && sent + [] == sent && hashed + [] == hashed && flags + Repeat(flag, 0) == flags
  {
  }
}
