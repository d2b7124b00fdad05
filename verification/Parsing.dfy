/** Requests on a byte stream: where each one ends, and the loops that find
    those ends through the buffered reader. The request grammar is a parameter:
    any decision that depends only on the bytes consumed so far
    (readRequest and consumeBody, internal/engine). */
module Parsing {
  import opened Wrappers
  import opened Bytes
  import opened Format
  import opened Rebuild
  import opened Traces
  import opened ConnectionIO

  datatype Expectation = NoExpectation | Continue | UnsupportedExpectation

  /** What the handler looks at in a parsed request. */
  datatype RequestInfo = RequestInfo(verb: Bytes, path: Bytes, major: nat, minor: nat, expectation: Expectation,
                                     declared: int, mayHaveBody: bool, close: bool)

  datatype HeadVerdict = NeedMore | Malformed | Accepted(info: RequestInfo)

  /** `decoded` counts the body bytes delivered so far, `peeked` the last bytes
      that were looked at without being consumed. */
  datatype BodyVerdict = BodyMore(decoded: nat) | BodyBad(peeked: nat) | BodyDone(decoded: nat, trailerBytes: nat)

  /** What the library decides. A read error behind some bytes of a header
      block cuts a line short: `cut` says whether the library takes that line
      for a whole one and refuses it, so that the error itself is lost. A read
      error inside a trailer is lost in the same way: `cutBody` says where, and
      how many bytes had only been looked at. */
  datatype Grammar = Grammar(head: Bytes -> HeadVerdict, cut: Bytes -> bool, body: (RequestInfo, Bytes) -> BodyVerdict,
                             cutBody: (RequestInfo, Bytes) -> Option<nat>)

  /** The header block that starts at `start` ends at `end`: the first place where it is accepted. */
  ghost predicate HeadAt(g: Grammar, stream: Bytes, start: nat, end: nat, info: RequestInfo) {
    && start < end <= |stream|
    && g.head(stream[start..end]) == Accepted(info)
    && forall k | start < k < end :: g.head(stream[start..k]) == NeedMore
  }

  ghost predicate HeadEndsAt(g: Grammar, stream: Bytes, start: nat, end: nat) {
    exists info :: HeadAt(g, stream, start, end, info)
  }

  /** The body that starts at `start` is first complete at `end`. */
  ghost predicate BodyAt(g: Grammar, info: RequestInfo, stream: Bytes, start: nat, end: nat) {
    && start <= end <= |stream|
    && g.body(info, stream[start..end]).BodyDone?
    && forall k | start <= k < end :: g.body(info, stream[start..k]).BodyMore?
  }

  ghost predicate RequestAt(g: Grammar, stream: Bytes, start: nat, headEnd: nat, end: nat, info: RequestInfo) {
    HeadAt(g, stream, start, headEnd, info) && BodyAt(g, info, stream, headEnd, end)
  }

  /** The stream and the starting point determine the request: its bytes and its meaning. */
  lemma RequestIsDetermined(g: Grammar, stream: Bytes, start: nat, h1: nat, e1: nat, i1: RequestInfo,
                            h2: nat, e2: nat, i2: RequestInfo)
    requires RequestAt(g, stream, start, h1, e1, i1) && RequestAt(g, stream, start, h2, e2, i2)
    ensures h1 == h2 && e1 == e2 && i1 == i2
  {
    assert h1 == h2;
    assert e1 == e2;
  }

  datatype HeadOutcome = Got(info: RequestInfo) | Refused | CutLine(failure: Failure) | Interrupted(failure: Failure)

  /** Every shorter front of the consumed bytes asked for more. */
  ghost predicate Undecided(g: Grammar, stream: Bytes, start: nat, end: nat) {
    start <= end <= |stream| && forall k | start < k <= end :: g.head(stream[start..k]) == NeedMore
  }

  /** The first front that is decided on is refused. */
  ghost predicate HeadRefusedAt(g: Grammar, stream: Bytes, start: nat, end: nat) {
    && start < end <= |stream| && g.head(stream[start..end]) == Malformed
    && forall k | start < k < end :: g.head(stream[start..k]) == NeedMore
  }

  /** A read error behind these bytes is lost, because it cuts a line that the library refuses. */
  ghost predicate CutAt(g: Grammar, stream: Bytes, start: nat, end: nat) {
    start < end <= |stream| && g.cut(stream[start..end])
  }

  /** What one attempt to read a header block found, having consumed up to
      `end`; it consumes at most `limit` bytes, and exactly so many when it
      runs into the read cap. */
  ghost predicate HeadFound(g: Grammar, stream: Bytes, start: nat, end: nat, limit: int, r: HeadOutcome) {
    && end - start <= limit
    && match r
       case Got(info) => HeadAt(g, stream, start, end, info)
       case Refused => HeadRefusedAt(g, stream, start, end)
       case CutLine(failure) =>
         Undecided(g, stream, start, end) && CutAt(g, stream, start, end) && (failure == HeaderLimit ==> end - start == limit)
       case Interrupted(failure) =>
         Undecided(g, stream, start, end) && !CutAt(g, stream, start, end) && (failure == HeaderLimit ==> end - start == limit)
  }

  /** No header block of at most `size` bytes starts here. */
  ghost predicate NoHeadWithin(g: Grammar, stream: Bytes, start: nat, size: int) {
    forall end: nat, info | HeadAt(g, stream, start, end, info) :: end - start > size
  }

  /** No header block starts here at all. */
  ghost predicate NoHead(g: Grammar, stream: Bytes, start: nat) {
    forall end: nat, info :: !HeadAt(g, stream, start, end, info)
  }

  /** A failed attempt shows that no header block ends within what was
      consumed; a malformed one that none starts there, and so does one that
      consumed the whole stream. */
  lemma FailureExcludesHeads(g: Grammar, stream: Bytes, start: nat, end: nat, limit: int, r: HeadOutcome)
    requires HeadFound(g, stream, start, end, limit, r) && !r.Got?
    ensures NoHeadWithin(g, stream, start, end - start)
    ensures r.Refused? || end == |stream| ==> NoHead(g, stream, start)
  {
    forall headEnd: nat, info | HeadAt(g, stream, start, headEnd, info)
      ensures headEnd > end && !r.Refused? && end < |stream|
    {
    }
  }

  /** The read cap refuses no header block within it: when it interrupts the
      parser, wherever the reads split, any block that starts there is longer. */
  lemma HeaderCapIsExact(g: Grammar, stream: Bytes, start: nat, end: nat, limit: int, r: HeadOutcome, size: int)
    requires HeadFound(g, stream, start, end, limit, r) && r in [Interrupted(HeaderLimit), CutLine(HeaderLimit)] && size <= limit
    ensures NoHeadWithin(g, stream, start, size)
  {
    FailureExcludesHeads(g, stream, start, end, limit, r);
  }

  /** There is only one header block at a place. */
  lemma HeadIsDetermined(g: Grammar, stream: Bytes, start: nat, h1: nat, i1: RequestInfo, h2: nat, i2: RequestInfo)
    requires HeadAt(g, stream, start, h1, i1) && HeadAt(g, stream, start, h2, i2)
    ensures h1 == h2 && i1 == i2
  {
  }

  lemma LongHeadIsTheOnlyOne(g: Grammar, stream: Bytes, start: nat, end: nat, info: RequestInfo, size: int)
    requires HeadAt(g, stream, start, end, info) && end - start > size
    ensures NoHeadWithin(g, stream, start, size)
  {
    forall other: nat, found | HeadAt(g, stream, start, other, found)
      ensures other == end
    {
      HeadIsDetermined(g, stream, start, end, info, other, found);
    }
  }

  lemma StillUndecided(g: Grammar, stream: Bytes, start: nat, end: nat)
    requires Undecided(g, stream, start, end) && end < |stream| && g.head(stream[start..end + 1]) == NeedMore
    ensures Undecided(g, stream, start, end + 1)
  {
  }

  /** Parses one header block, refilling only when it needs a byte. */
  method ReadRequest(br: BufReader, g: Grammar) returns (r: HeadOutcome)
    requires br.Valid() && br.rd.headerPhase && br.rd.headerBytesRead == 0 <= br.rd.headerReadCap
    modifies br, br.rd.conn`taken, br.rd.conn`lastRead, br.rd.conn`faults, br.rd.conn`recent, br.rd.bwj, br.rd.counters`bytesIn
    modifies br.rd`headerStarted, br.rd`headerBytesRead, br.rd`plainEnd
    ensures br.Valid() && old(br.Consumed()) <= br.Consumed()
    ensures br.rd.Out() == old(br.rd.Out()) && old(br.rd.conn.faults) <= br.rd.conn.faults
    ensures HeadFound(g, br.rd.conn.incoming, old(br.Consumed()), br.Consumed(), |old(br.buf)| + br.rd.headerReadCap, r)
    ensures |old(br.buf)| < BUFFER_SIZE ==> |br.buf| < BUFFER_SIZE
    ensures br.rd.headerStarted || br.rd.counters.bytesIn == old(br.rd.counters.bytesIn)
    ensures (r.Interrupted? || r.CutLine?) && r.failure != JournalFailed ==>
              (br.rd.headerStarted <==> old(br.rd.headerStarted) || br.rd.counters.bytesIn != old(br.rd.counters.bytesIn))
    ensures old(br.rd.counters.bytesIn) <= br.rd.counters.bytesIn
    ensures r.Interrupted? || r.CutLine? ==>
              && br.buf == [] && br.rd.Explains(Some(r.failure))
              && r.failure in [EOF, UnexpectedEOF, Timeout, Broken, HeaderLimit, ConnectionLimit, JournalFailed]
    ensures r == Interrupted(EOF) ==>
              && br.Consumed() == old(br.Consumed()) && old(br.buf) == [] && br.rd.headerStarted == old(br.rd.headerStarted)
    ensures r == Interrupted(UnexpectedEOF) ==> old(br.Consumed()) < br.Consumed()
    ensures (r.Interrupted? || r.CutLine?) && r.failure in [EOF, UnexpectedEOF] && br.rd.bwj.healthy ==>
              br.Consumed() == |br.rd.conn.incoming|
    ensures br.rd.bwj.healthy ==> old(br.rd.bwj.healthy) && br.rd.Notes() == old(br.rd.Notes())
  {
    hide BufReader.Valid, RecordingReader.Valid, RecordingReader.Out, RecordingReader.Notes;
    br.InBounds();
    ghost var stream := br.rd.conn.incoming;
    ghost var start := br.Consumed();
    ghost var inBefore := br.rd.counters.bytesIn;
    var read: Bytes := [];
    while true
      invariant br.Valid() && br.rd.headerPhase
      invariant br.rd.Out() == old(br.rd.Out()) && old(br.rd.conn.faults) <= br.rd.conn.faults
      invariant start <= br.Consumed() <= |stream| && read == stream[start..br.Consumed()]
      invariant Undecided(g, stream, start, br.Consumed())
      invariant br.rd.counters.bytesIn == inBefore + br.rd.headerBytesRead && br.rd.headerBytesRead <= br.rd.headerReadCap
      invariant br.rd.headerStarted <==> old(br.rd.headerStarted) || br.rd.counters.bytesIn != inBefore
      invariant read == [] && br.buf == [] ==> old(br.buf) == [] && br.rd.headerStarted == old(br.rd.headerStarted)
      invariant br.rd.bwj.healthy ==> old(br.rd.bwj.healthy) && br.rd.Notes() == old(br.rd.Notes())
      decreases |stream| - br.Consumed(), if br.buf == [] then 1 else 0
    {
      if br.buf == [] {
        var err := br.Fill();
        if err.Some? {
          if read != [] && g.cut(read) {
            return CutLine(err.value);
          }
          return Interrupted(if err.value == EOF && read != [] then UnexpectedEOF else err.value);
        }
      } else {
        ghost var at := br.Consumed();
        var b := br.Take();
        br.InBounds();
        read := read + [b];
        assert stream[start..at + 1] == stream[start..at] + [stream[at]];
        assert read == stream[start..br.Consumed()];
        match g.head(read) {
          case NeedMore =>
            StillUndecided(g, stream, start, br.Consumed() - 1);
          case Malformed =>
            return Refused;
          case Accepted(info) =>
            return Got(info);
        }
      }
    }
  }

  function DecodedSize(v: BodyVerdict): nat {
    if v.BodyBad? then 0 else v.decoded
  }

  /** No front before `end` decodes to more than `max` bytes. */
  ghost predicate FrontsWithin(g: Grammar, info: RequestInfo, stream: Bytes, start: nat, end: nat, max: int) {
    start <= end <= |stream| && forall k | start <= k < end :: DecodedSize(g.body(info, stream[start..k])) <= max
  }

  /** Every front of the consumed body bytes asked for more. */
  ghost predicate BodyUnfinished(g: Grammar, info: RequestInfo, stream: Bytes, start: nat, end: nat) {
    start <= end <= |stream| && forall k | start <= k < end :: g.body(info, stream[start..k]).BodyMore?
  }

  /** No front of the body decodes to more than `max` bytes. */
  ghost predicate BodyWithin(g: Grammar, info: RequestInfo, stream: Bytes, start: nat, end: nat, max: int) {
    start <= end <= |stream| && forall k | start <= k <= end :: DecodedSize(g.body(info, stream[start..k])) <= max
  }

  /** No body that starts here is ever complete. */
  ghost predicate NoBody(g: Grammar, info: RequestInfo, stream: Bytes, start: nat) {
    forall end: nat :: !BodyAt(g, info, stream, start, end)
  }

  predicate Unfinished(v: BodyVerdict, max: int) {
    v.BodyMore? && v.decoded <= max
  }

  /** What one attempt to read a body found, having consumed up to `end`: it
      stops at the first front that is complete, bad or too large. `peeked`
      bytes of what it took were only looked at. */
  ghost predicate BodyFound(g: Grammar, info: RequestInfo, stream: Bytes, start: nat, end: nat, max: int,
                            read: nat, err: Option<Failure>, trailer: nat, peeked: nat) {
    && BodyUnfinished(g, info, stream, start, end) && FrontsWithin(g, info, stream, start, end, max)
    && var verdict := g.body(info, stream[start..end]);
       match err
       case None => verdict == BodyDone(read, trailer) && BodyWithin(g, info, stream, start, end, max)
       case Some(failure) =>
         if failure == BodyLimit then read == DecodedSize(verdict) > max && !verdict.BodyBad?
         else if failure == BadSyntax then verdict == BodyBad(peeked)
         else if failure == BadTrailer then
           verdict.BodyMore? && verdict.decoded <= max && g.cutBody(info, stream[start..end]) == Some(peeked)
         else verdict == BodyMore(read) && read <= max && g.cutBody(info, stream[start..end]).None?
  }

  /** A body that is bad, or unfinished at the end of the stream, is never complete. */
  lemma FailureExcludesBodies(g: Grammar, info: RequestInfo, stream: Bytes, start: nat, end: nat, max: int,
                              read: nat, failure: Failure, trailer: nat, peeked: nat)
    requires BodyFound(g, info, stream, start, end, max, read, Some(failure), trailer, peeked)
    requires failure == BadSyntax || (failure != BodyLimit && end == |stream|)
    ensures NoBody(g, info, stream, start)
  {
    forall other: nat
      ensures !BodyAt(g, info, stream, start, other)
    {
    }
  }

  /** A body that was refused for its size is too large wherever it ends. */
  lemma LongBodyStaysLong(g: Grammar, info: RequestInfo, stream: Bytes, start: nat, end: nat, max: int, read: nat, trailer: nat,
                         peeked: nat, other: nat)
    requires BodyFound(g, info, stream, start, end, max, read, Some(BodyLimit), trailer, peeked)
    requires BodyAt(g, info, stream, start, other)
    ensures !BodyWithin(g, info, stream, start, other, max)
  {
    assert DecodedSize(g.body(info, stream[start..end])) > max;
  }

  lemma NothingComes(br: BufReader, failure: Failure)
    requires br.rd.Explains(Some(failure)) && failure in [EOF, Timeout, Broken, ConnectionLimit, JournalFailed]
    requires failure == EOF && br.rd.bwj.healthy ==> br.Consumed() == |br.rd.conn.incoming|
    ensures br.rd.RunsDry(br.Consumed())
  {
  }

  /** Refills the buffer behind an unfinished body, or says how the body ends without being complete. */
  method RefillBody(br: BufReader, g: Grammar, info: RequestInfo, bytes: Bytes, read: nat, ghost start: nat, ghost max: int)
    returns (err: Option<Failure>, peeked: nat)
    requires br.Valid() && !br.rd.headerPhase && br.buf == [] && start <= br.Consumed() <= |br.rd.conn.incoming|
    requires bytes == br.rd.conn.incoming[start..br.Consumed()] && g.body(info, bytes) == BodyMore(read) && read <= max
    requires BodyUnfinished(g, info, br.rd.conn.incoming, start, br.Consumed())
    requires FrontsWithin(g, info, br.rd.conn.incoming, start, br.Consumed(), max)
    modifies br, br.rd.conn`taken, br.rd.conn`lastRead, br.rd.conn`faults, br.rd.conn`recent, br.rd.bwj, br.rd.counters`bytesIn
    modifies br.rd`headerStarted, br.rd`headerBytesRead, br.rd`plainEnd
    ensures br.Valid() && old(br.Consumed()) == br.Consumed()
    ensures br.rd.Out() == old(br.rd.Out()) && old(br.rd.conn.faults) <= br.rd.conn.faults
    ensures br.rd.bwj.healthy ==> old(br.rd.bwj.healthy) && br.rd.Notes() == old(br.rd.Notes())
    ensures br.rd.Explains(err)
    ensures err.Some? ==> err.value in [UnexpectedEOF, Timeout, Broken, ConnectionLimit, JournalFailed, BadTrailer]
    ensures err.Some? ==> br.buf == [] && br.rd.RunsDry(br.Consumed())
    ensures err.None? ==> br.buf != []
    ensures err == Some(UnexpectedEOF) && br.rd.bwj.healthy ==> br.Consumed() == |br.rd.conn.incoming|
    ensures err.Some? ==> BodyFound(g, info, br.rd.conn.incoming, start, br.Consumed(), max, read, err, 0, peeked)
    ensures err != Some(BadTrailer) ==> peeked == 0
  {
    hide BufReader.Valid, RecordingReader.Valid, RecordingReader.Out, RecordingReader.Notes, BodyUnfinished;
    hide FrontsWithin;
    err := br.Fill();
    peeked := 0;
    if err.Some? {
      NothingComes(br, err.value);
      var lost := g.cutBody(info, bytes);
      if lost.Some? {
        return Some(BadTrailer), lost.value;
      }
      if err.value == EOF {
        err := Some(UnexpectedEOF);
      }
    }
  }

  /** Reads the body to its end, or until it exceeds `maxBytes` decoded bytes. */
  method ConsumeBody(br: BufReader, g: Grammar, info: RequestInfo, maxBytes: int)
    returns (read: nat, err: Option<Failure>, trailer: nat, peeked: nat)
    requires br.Valid() && !br.rd.headerPhase
    modifies br, br.rd.conn`taken, br.rd.conn`lastRead, br.rd.conn`faults, br.rd.conn`recent, br.rd.bwj, br.rd.counters`bytesIn
    modifies br.rd`headerStarted, br.rd`headerBytesRead, br.rd`plainEnd
    ensures br.Valid() && old(br.Consumed()) <= br.Consumed()
    ensures br.rd.Out() == old(br.rd.Out()) && old(br.rd.conn.faults) <= br.rd.conn.faults
    ensures BodyFound(g, info, br.rd.conn.incoming, old(br.Consumed()), br.Consumed(), maxBytes, read, err, trailer, peeked)
    ensures |old(br.buf)| < BUFFER_SIZE ==> |br.buf| < BUFFER_SIZE
    ensures err !in [Some(BadSyntax), Some(BadTrailer)] ==> peeked == 0
    ensures br.rd.Explains(err)
    ensures err.Some? ==> err.value in [UnexpectedEOF, Timeout, Broken, ConnectionLimit, JournalFailed, BadSyntax, BadTrailer, BodyLimit]
    ensures err.Some? && err.value !in [BadSyntax, BodyLimit] ==> br.buf == [] && br.rd.RunsDry(br.Consumed())
    ensures err == Some(UnexpectedEOF) && br.rd.bwj.healthy ==> br.Consumed() == |br.rd.conn.incoming|
    ensures br.rd.bwj.healthy ==> old(br.rd.bwj.healthy) && br.rd.Notes() == old(br.rd.Notes())
  {
    hide BufReader.Valid, RecordingReader.Valid, RecordingReader.Out, RecordingReader.Notes;
    br.InBounds();
    ghost var stream := br.rd.conn.incoming;
    ghost var start := br.Consumed();
    var bytes: Bytes := [];
    while true
      invariant br.Valid() && !br.rd.headerPhase
      invariant br.rd.Out() == old(br.rd.Out()) && old(br.rd.conn.faults) <= br.rd.conn.faults
      invariant start <= br.Consumed() <= |stream| && bytes == stream[start..br.Consumed()]
      invariant BodyUnfinished(g, info, stream, start, br.Consumed())
      invariant FrontsWithin(g, info, stream, start, br.Consumed(), maxBytes)
      invariant |old(br.buf)| < BUFFER_SIZE ==> |br.buf| < BUFFER_SIZE || Unfinished(g.body(info, bytes), maxBytes)
      invariant br.rd.bwj.healthy ==> old(br.rd.bwj.healthy) && br.rd.Notes() == old(br.rd.Notes())
      decreases |stream| - br.Consumed(), if br.buf == [] then 1 else 0
    {
      match g.body(info, bytes) {
        case BodyDone(decoded, trailerBytes) =>
          return decoded, if decoded > maxBytes then Some(BodyLimit) else None, trailerBytes, 0;
        case BodyBad(unread) =>
          return 0, Some(BadSyntax), 0, unread;
        case BodyMore(decoded) =>
          read := decoded;
      }
      if read > maxBytes {
        return read, Some(BodyLimit), 0, 0;
      }
      if br.buf == [] {
        err, peeked := RefillBody(br, g, info, bytes, read, start, maxBytes);
        if err.Some? {
          return read, err, 0, peeked;
        }
      } else {
        var b := br.Take();
        br.InBounds();
        bytes := bytes + [b];
        assert bytes == stream[start..br.Consumed()];
      }
    }
  }
}
