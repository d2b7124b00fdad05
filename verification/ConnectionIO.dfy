/** A connection's bytes: the socket, the journal as one connection sees it,
    the counters, the recording reader, its buffer, and the exchange writer
    (internal/engine/connection.go). */
module ConnectionIO {
  import opened Wrappers
  import opened Bytes
  import opened Ids
  import opened Format
  import opened Drafts
  import opened Rebuild
  import opened Traces

  datatype Failure =
    | EOF
    | UnexpectedEOF
    | Timeout
    | Broken
    | HeaderLimit
    | ConnectionLimit
    | JournalFailed
    | BadSyntax
    | BadTrailer
    | BodyLimit
    | ShortWrite
    | ResponseLimit
    | Unsupported
    | StreamDeadline
    | Canceled

  /** What the operating system reports. */
  predicate FromSocket(f: Failure) {
    f == EOF || f == Timeout || f == Broken
  }

  /** What the surroundings of a connection may do to it. */
  datatype Event = Cancelled | LifetimeOver | StreamOver | SetupFailed | HandshakeFailed

  /** A question to the surroundings and their answer. */
  datatype Sighting = Sighting(event: Event, yes: bool)

  function Yes(event: Event): Sighting {
    Sighting(event, true)
  }

  function No(event: Event): Sighting {
    Sighting(event, false)
  }

  /** The last answers, in order. */
  ghost predicate EndsWith(answers: seq<Sighting>, tail: seq<Sighting>) {
    |tail| <= |answers| && forall i | 0 <= i < |tail| :: answers[|answers| - |tail| + i] == tail[i]
  }

  /** Answers in two parts end with the second. */
  lemma EndsWithLatest(before: seq<Sighting>, tail: seq<Sighting>, a: Sighting)
    ensures before + tail + [a] == before + (tail + [a])
    ensures EndsWith(before + (tail + [a]), tail + [a])
  {
  }

  lemma OneMoreAnswer(answers: seq<Sighting>, tail: seq<Sighting>, a: Sighting)
    requires EndsWith(answers, tail)
    ensures EndsWith(answers + [a], tail + [a])
  {
  }

  lemma LastOfTwo(answers: seq<Sighting>, a: Sighting, b: Sighting)
    requires EndsWith(answers, [a, b])
    ensures EndsWith(answers, [b])
  {
    assert [a, b][1] == b;
  }

  /** A look at the shutdown, and at the lifetime if that was not seen. */
  ghost predicate Looked(before: seq<Sighting>, after: seq<Sighting>, cancelled: bool, over: bool) {
    after == before + if cancelled then [Yes(Cancelled)] else [No(Cancelled), Sighting(LifetimeOver, over)]
  }

  /** What has happened once and stays so. */
  predicate Lasting(event: Event) {
    event == Cancelled || event == LifetimeOver
  }

  /** Clocks, cancellation and system services: free choices, asked for and remembered in order. */
  class Surroundings {
    var answers: seq<Sighting>

    constructor ()
      ensures answers == []
    {
      answers := [];
    }

    method Happens(event: Event) returns (yes: bool)
      modifies this
      ensures answers == old(answers) + [Sighting(event, yes)]
      ensures EndsWith(answers, [Sighting(event, yes)])
      ensures Lasting(event) && Yes(event) in old(answers) ==> yes
    {
      yes := *;
      if Lasting(event) && Yes(event) in answers {
        yes := true;
      }
      answers := answers + [Sighting(event, yes)];
    }

    /** The first thing in every turn. */
    method Look() returns (cancelled: bool, over: bool)
      modifies this
      ensures Looked(old(answers), answers, cancelled, over)
      ensures cancelled ==> EndsWith(answers, [Yes(Cancelled)]) && !over
      ensures over ==> EndsWith(answers, [Yes(LifetimeOver)]) && !EndsWith(answers, [No(SetupFailed), Yes(LifetimeOver)])
      ensures !cancelled && !over ==> answers == old(answers) + [No(Cancelled), No(LifetimeOver)]
      ensures Yes(Cancelled) in old(answers) ==> cancelled
      ensures Yes(LifetimeOver) in old(answers) ==> cancelled || over
    {
      ghost var before := answers;
      over := false;
      cancelled := Happens(Cancelled);
      if !cancelled {
        over := Happens(LifetimeOver);
        assert answers == before + [No(Cancelled), Sighting(LifetimeOver, over)];
        assert answers[|answers| - 2] == No(Cancelled) && [No(SetupFailed), Yes(LifetimeOver)][0] == No(SetupFailed);
      }
    }
  }

  /** How much a read asked for, and what it reported besides the bytes. */
  datatype ReadReport = ReadReport(limit: int, err: Option<Failure>)

  /** The peer's fixed byte stream, delivered in arbitrary pieces, and the
      bytes the peer was sent. `faults` remembers every error the operating
      system reported, and a write that fell short without one; `recent` those
      since some moment; `armed`, that a write deadline has been set; `lastRead`
      what became of the last read. */
  class Socket {
    const incoming: Bytes
    var taken: nat
    var sent: Bytes
    ghost var faults: set<Failure>
    ghost var recent: set<Failure>
    ghost var armed: bool
    ghost var lastRead: ReadReport

    constructor (incoming: Bytes)
      ensures this.incoming == incoming && taken == 0 && sent == [] && faults == {} == recent && !armed
    {
      this.incoming := incoming;
      taken, sent, faults, recent, armed, lastRead := 0, [], {}, {}, false, ReadReport(0, None);
    }

    /** Some piece of what is left, possibly together with an error; never nothing without one. */
    method Read(limit: nat) returns (data: Bytes, err: Option<Failure>)
      requires taken <= |incoming| && limit > 0
      modifies this`taken, this`faults, this`recent, this`lastRead
      ensures lastRead == ReadReport(limit, err)
      ensures old(taken) <= taken <= |incoming| && data == incoming[old(taken)..taken] && |data| <= limit
      ensures err.Some? ==> FromSocket(err.value)
      ensures err == Some(EOF) ==> taken == |incoming|
      ensures data == [] ==> err.Some?
      ensures faults == old(faults) + if err.Some? && err != Some(EOF) then {err.value} else {}
      ensures recent == old(recent) + if err.Some? && err != Some(EOF) then {err.value} else {}
    {
      var n: nat :| n <= limit && taken + n <= |incoming|;
      data := incoming[taken..taken + n];
      taken := taken + n;
      err := None;
      if * {
        err := Some(Timeout);
      } else if taken == |incoming| {
        err := Some(EOF);
      } else if * {
        err := Some(Broken);
      }
      if n == 0 && err.None? {
        err := Some(Broken);
      }
      lastRead := ReadReport(limit, err);
      faults := faults + if err.Some? && err != Some(EOF) then {err.value} else {};
      recent := recent + if err.Some? && err != Some(EOF) then {err.value} else {};
    }

    /** Setting a deadline can fail. */
    method SetReadDeadline() returns (ok: bool)
      modifies this`faults, this`recent
      ensures faults == old(faults) + if ok then {} else {Broken}
      ensures recent == old(recent) + if ok then {} else {Broken}
    {
      ok := *;
      faults := faults + if ok then {} else {Broken};
      recent := recent + if ok then {} else {Broken};
    }

    method SetWriteDeadline() returns (ok: bool)
      modifies this`faults, this`recent, this`armed
      ensures faults == old(faults) + if ok then {} else {Broken}
      ensures recent == old(recent) + if ok then {} else {Broken}
      ensures armed == ok
    {
      ok := *;
      faults := faults + if ok then {} else {Broken};
      recent := recent + if ok then {} else {Broken};
      armed := ok;
    }

    /** Every write has a deadline of its own. */
    method Write(data: Bytes) returns (n: nat, err: Option<Failure>)
      requires armed
      modifies this`sent, this`faults, this`recent, this`armed
      ensures n <= |data| && sent == old(sent) + data[..n]
      ensures err.Some? ==> err.value == Timeout || err.value == Broken
      ensures faults == old(faults) + if err.Some? then {err.value} else if n < |data| then {ShortWrite} else {}
      ensures recent == old(recent) + if err.Some? then {err.value} else if n < |data| then {ShortWrite} else {}
    {
      n :| 0 <= n <= |data|;
      armed := false;
      sent := sent + data[..n];
      err := None;
      if * {
        err := Some(Timeout);
      } else if * {
        err := Some(Broken);
      }
      faults := faults + if err.Some? then {err.value} else if n < |data| then {ShortWrite} else {};
      recent := recent + if err.Some? then {err.value} else if n < |data| then {ShortWrite} else {};
    }
  }

  // ---------- the journal, as one connection sees it ----------

  lemma NextPiece(pieces: seq<Draft>, kept: nat, d: Draft, more: seq<Draft>)
    requires kept <= |pieces| && pieces[kept..] == [d] + more
    ensures kept < |pieces| && pieces[kept] == d && pieces[kept + 1..] == more && pieces[..kept + 1] == pieces[..kept] + [d]
  {
    assert pieces[kept..][1..] == pieces[kept + 1..];
    assert pieces[kept..][0] == pieces[kept];
  }

  /** The shared writer as one connection uses it. Calls of other connections
      happen between its calls, and any call may find that the journal has
      failed; after that every call fails. `trace` is what was acknowledged to
      this connection, `refused` the first of its calls that was not, and
      `outRefused` whether any refused call was to carry outbound data. */
  class JournalHandle {
    const connection: ID
    var trace: seq<Draft>
    var healthy: bool
    ghost var refused: Option<Draft>
    ghost var outRefused: bool

    constructor (connection: ID)
      ensures this.connection == connection && trace == [] && healthy && refused.None? && !outRefused
    {
      this.connection := connection;
      trace, healthy, refused, outRefused := [], true, None, false;
    }

    ghost predicate Valid()
      reads this
    {
      (healthy <==> refused.None?) && (outRefused ==> !healthy)
    }

    ghost function Seen(): View
      reads this
    {
      View(trace, refused, outRefused)
    }

    method WriteRecord(d: Draft) returns (ok: bool)
      requires Valid() && WellFormed(d)
      modifies this
      ensures Valid() && (ok <==> healthy) && (ok ==> old(healthy))
      ensures trace == old(trace) + if ok then [d] else []
      ensures refused == if ok then None else if old(healthy) then Some(d) else old(refused)
      ensures outRefused == (old(outRefused) || (!ok && CarriesOut(d)))
      ensures Seen() == AfterCall(old(Seen()), d, ok)
    {
      var accepted: bool := *;
      if healthy && accepted {
        trace := trace + [d];
        return true;
      }
      if healthy {
        refused := Some(d);
      }
      healthy := false;
      outRefused := outRefused || CarriesOut(d);
      assert trace + [] == trace;
      return false;
    }

    /** The first `kept` pieces are acknowledged; all of them, or the next one is refused. */
    method WriteData(request: ID, direction: byte, flags: byte, data: Bytes) returns (ok: bool, ghost kept: nat)
      requires Valid() && data != [] && (direction == INBOUND || direction == OUTBOUND) && FlagsAllowed(flags)
      modifies this
      ensures Valid() && (ok <==> healthy) && (ok ==> old(healthy))
      ensures var pieces := Pieces(Draft(DATA, direction, flags, connection, request, []), data);
              && kept <= |pieces| && trace == old(trace) + pieces[..kept]
              && (ok ==> kept == |pieces| && trace == old(trace) + pieces)
              && (!ok && old(healthy) ==> kept < |pieces| && refused == Some(pieces[kept]))
              && (!old(healthy) ==> kept == 0 && trace == old(trace) && refused == old(refused))
      ensures outRefused == (old(outRefused) || (!ok && direction == OUTBOUND))
    {
      var template := Draft(DATA, direction, flags, connection, request, []);
      ghost var pieces := Pieces(template, data);
      var rest := data;
      kept := 0;
      while |rest| > 0
        invariant Valid() && kept <= |pieces| && pieces[kept..] == Pieces(template, rest)
        invariant trace == old(trace) + pieces[..kept] && outRefused == old(outRefused)
        invariant if rest == data then kept == 0 && healthy == old(healthy) && refused == old(refused) else healthy && old(healthy)
        decreases |rest|
      {
        var n := Min(|rest|, MAX_DATA_PAYLOAD);
        var d := Draft(DATA, direction, flags, connection, request, rest[..n]);
        assert pieces[kept..] == [d] + Pieces(template, rest[n..]);
        NextPiece(pieces, kept, d, Pieces(template, rest[n..]));
        ok := WriteRecord(d);
        if !ok {
          return;
        }
        kept := kept + 1;
        rest := rest[n..];
      }
      assert pieces[..kept] == pieces;
      return true, kept;
    }
  }

  // ---------- counters ----------

  class ConnectionCounters {
    var bytesIn: nat
    var bytesOut: nat
    var requests: nat

    constructor ()
      ensures bytesIn == 0 && bytesOut == 0 && requests == 0
    {
      bytesIn, bytesOut, requests := 0, 0, 0;
    }

    function Remaining(max: int): int
      reads this
    {
      max - bytesIn - bytesOut
    }

    method AddIn(n: nat)
      modifies this`bytesIn
      ensures bytesIn == old(bytesIn) + n
    {
      bytesIn := bytesIn + n;
    }

    method AddOut(n: nat)
      modifies this`bytesOut
      ensures bytesOut == old(bytesOut) + n
    {
      bytesOut := bytesOut + n;
    }

    method AddRequest() returns (n: nat)
      modifies this`requests
      ensures n == requests == old(requests) + 1
    {
      requests := requests + 1;
      n := requests;
    }
  }

  // ---------- reading ----------

  class RecordingReader {
    const conn: Socket
    const bwj: JournalHandle
    const counters: ConnectionCounters
    const maxConnBytes: int
    const headerReadCap: int
    var parserFailed: bool
    var headerPhase: bool
    var headerStarted: bool
    var headerBytesRead: nat
    ghost var plainEnd: nat
    ghost var before: set<Failure>
    ghost var outFlags: Bytes

    constructor (conn: Socket, bwj: JournalHandle, counters: ConnectionCounters, maxConnBytes: int, headerReadCap: int)
      requires conn.taken == 0 && conn.sent == [] && counters.bytesIn == 0 && counters.bytesOut == 0
      requires bwj.healthy && bwj.Valid() && Journalled(bwj.trace, bwj.connection, conn.incoming, 0, 0, [])
      requires maxConnBytes >= 0
      ensures this.conn == conn && this.bwj == bwj && this.counters == counters
      ensures this.maxConnBytes == maxConnBytes && this.headerReadCap == headerReadCap
      ensures Valid() && !parserFailed && plainEnd == 0 && outFlags == []
    {
      hide Journalled, FlagsOut;
      this.conn, this.bwj, this.counters := conn, bwj, counters;
      this.maxConnBytes, this.headerReadCap := maxConnBytes, headerReadCap;
      parserFailed, headerPhase, headerStarted, headerBytesRead := false, false, false, 0;
      plainEnd, before, outFlags := 0, {}, [];
      JournalledIsFront(bwj.trace, bwj.connection, conn.incoming, 0, 0, []);
      JournalledOut(bwj.trace, bwj.connection, conn.incoming, 0, 0, []);
      FlagsOutSize(bwj.trace, bwj.connection);
    }

    ghost predicate Valid()
      reads this, conn, bwj, counters
    {
      && counters.bytesIn <= conn.taken <= |conn.incoming|
      && counters.bytesOut == |conn.sent|
      && counters.bytesIn + counters.bytesOut <= maxConnBytes
      && plainEnd <= counters.bytesIn
      && (!parserFailed ==> plainEnd == counters.bytesIn)
      && bwj.Valid()
      && Fronts(bwj.trace, bwj.refused, bwj.connection, conn.incoming[..conn.taken], counters.bytesIn, conn.sent)
      && OutAccounted() && OutFlagged()
      && (bwj.healthy ==>
            && counters.bytesIn == conn.taken
            && Journalled(bwj.trace, bwj.connection, conn.incoming, counters.bytesIn, plainEnd, conn.sent))
    }

    /** The journal has all that was sent, unless it refused a part of it; then it has less. */
    ghost predicate OutAccounted()
      reads conn`sent, bwj
    {
      if bwj.outRefused then |Out()| < |conn.sent| else Out() == conn.sent
    }

    /** `outFlags` has a flag byte for each byte sent, which the journal recorded it with while it is healthy. */
    ghost predicate OutFlagged()
      reads this`outFlags, conn`sent, bwj
    {
      |outFlags| == |conn.sent| && (bwj.healthy ==> FlagsOut(bwj.trace, bwj.connection) == outFlags)
    }

    /** What a failure says about the state. */
    ghost predicate Explains(err: Option<Failure>)
      reads bwj, counters, conn
    {
      && (err == Some(ConnectionLimit) ==> counters.bytesIn + counters.bytesOut == maxConnBytes)
      && (err == Some(JournalFailed) ==> !bwj.healthy)
      && (err.Some? && err.value in {Timeout, Broken, ShortWrite} ==> err.value in conn.faults)
    }

    lemma Numbers()
      requires Valid()
      ensures counters.bytesIn <= conn.taken <= |conn.incoming| && counters.bytesOut == |conn.sent|
      ensures counters.bytesIn + counters.bytesOut <= maxConnBytes
      ensures plainEnd <= counters.bytesIn && (!parserFailed ==> plainEnd == counters.bytesIn)
    {
      hide Fronts, Journalled;
    }

    /** Why no more bytes come. */
    ghost predicate RunsDry(consumed: int)
      reads bwj, counters, conn
    {
      || Timeout in conn.faults || Broken in conn.faults || !bwj.healthy
      || counters.bytesIn + counters.bytesOut == maxConnBytes || consumed == |conn.incoming|
    }

    lemma ExplainsOther()
      ensures forall err: Option<Failure> | err.Some? && err.value in {Unsupported, ResponseLimit, StreamDeadline, Canceled} ::
                Explains(err)
    {
    }

    ghost function Notes(): seq<Draft>
      reads bwj
    {
      NotesOf(bwj.trace)
    }

    /** The journalled part of what was sent. */
    ghost function Out(): Bytes
      reads bwj
    {
      DataOf(bwj.trace, bwj.connection, OUTBOUND)
    }

    /** A parser-error or limit record: it changes no stream. */
    method Note(d: Draft) returns (ok: bool)
      requires Valid() && WellFormed(d) && d.connection == bwj.connection && d.kind in [PARSER_ERROR, LIMIT_REACHED]
      modifies bwj
      ensures Valid() && Out() == old(Out())
      ensures ok <==> bwj.healthy
      ensures bwj.healthy ==> old(bwj.healthy) && bwj.trace == old(bwj.trace) + [d] && Notes() == old(Notes()) + [d]
    {
      hide Journalled, Fronts, DataOf, NotesOf, FlagsOut;
      ghost var before := bwj.trace;
      ghost var received := conn.incoming[..conn.taken];
      ok := bwj.WriteRecord(d);
      if ok {
        FlagsOutSnoc(before, d, bwj.connection);
        assert outFlags + [] == outFlags;
        NotesOfSnoc(before, d);
        NoteAddsNothing(before, d, bwj.connection, OUTBOUND);
        NoteJournalled(before, bwj.connection, conn.incoming, counters.bytesIn, plainEnd, conn.sent, d);
        JournalledIsFront(bwj.trace, bwj.connection, conn.incoming, counters.bytesIn, plainEnd, conn.sent);
      } else {
        assert before + [] == before;
        if old(bwj.healthy) {
          RefusedNote(before, bwj.connection, received, counters.bytesIn, conn.sent, d);
        }
      }
    }

    /** A limit record. */
    method WriteLimit(code: nat, observed: int) returns (ok: bool)
      requires Valid()
      modifies bwj
      ensures Valid() && Out() == old(Out())
      ensures ok <==> bwj.healthy
      ensures bwj.healthy ==>
                && old(bwj.healthy)
                && bwj.trace == old(bwj.trace) + [LimitDraft(bwj.connection, code, Max(observed, 0))]
                && Notes() == old(Notes()) + [LimitDraft(bwj.connection, code, Max(observed, 0))]
    {
      hide Valid, NotesOf, DataOf;
      ok := Note(LimitDraft(bwj.connection, code, Max(observed, 0)));
    }

    /** A parser-error record. */
    method WriteParserError(code: nat, position: nat) returns (ok: bool)
      requires Valid()
      modifies bwj
      ensures Valid() && Out() == old(Out())
      ensures ok <==> bwj.healthy
      ensures bwj.healthy ==>
                && old(bwj.healthy)
                && bwj.trace == old(bwj.trace) + [ParserErrorDraft(bwj.connection, code, position)]
                && Notes() == old(Notes()) + [ParserErrorDraft(bwj.connection, code, position)]
    {
      hide Valid, NotesOf, DataOf;
      ok := Note(ParserErrorDraft(bwj.connection, code, position));
    }

    method BeginHeaderPhase(alreadyBuffered: bool)
      modifies this`headerPhase, this`headerStarted, this`headerBytesRead
      ensures headerPhase && headerStarted == alreadyBuffered && headerBytesRead == 0
    {
      headerPhase, headerStarted, headerBytesRead := true, alreadyBuffered, 0;
    }

    method BeginBodyPhase()
      modifies this`headerPhase
      ensures !headerPhase
    {
      headerPhase := false;
    }

    /** What is read from here on is flagged. Setting the deadline can fail. */
    method BeginPostFailure() returns (ok: bool)
      modifies this`headerPhase, this`parserFailed, this`before, conn`faults, conn`recent
      ensures !headerPhase && parserFailed && before == old(conn.faults) <= conn.faults
      ensures conn.recent == if ok then {} else {Broken}
      ensures conn.faults == before + conn.recent
    {
      headerPhase, parserFailed := false, true;
      before := conn.faults;
      conn.recent := {};
      ok := conn.SetReadDeadline();
    }

    /** The header fields of what is read: flagged after a failure. */
    function InboundTemplate(): Draft
      reads this
    {
      Draft(DATA, INBOUND, if parserFailed then FLAG_PARSER_FAILED else 0, bwj.connection, NO_ID, [])
    }

    /** Reads at most `space` bytes, clamped by the budget and, in the header
        phase, by the header cap; what is returned was journalled and counted. */
    method Read(space: nat) returns (data: Bytes, err: Option<Failure>)
      requires Valid() && space > 0
      modifies conn`taken, conn`lastRead, conn`faults, conn`recent, bwj, counters`bytesIn
      modifies this`headerStarted, this`headerBytesRead, this`plainEnd
      ensures Valid() && Out() == old(Out()) && old(conn.faults) <= conn.faults
      ensures old(counters.bytesIn) + |data| == counters.bytesIn && |data| <= space
      ensures data == conn.incoming[old(counters.bytesIn)..counters.bytesIn]
      ensures headerPhase ==> headerBytesRead == old(headerBytesRead) + |data|
      ensures (headerPhase && data != []) || old(headerStarted) ==> headerStarted
      ensures headerPhase && err != Some(JournalFailed) ==> (headerStarted <==> old(headerStarted) || data != [])
      ensures old(conn.faults) == before + old(conn.recent) ==> conn.faults == before + conn.recent
      ensures err.Some? && FromSocket(err.value) && err != Some(EOF) ==> err.value in conn.recent
      ensures data == [] ==> err.Some?
      ensures data != [] || (err.Some? && FromSocket(err.value)) ==>
                conn.lastRead == ReadReport(Min(Min(space, old(counters.Remaining(maxConnBytes))),
                                                if headerPhase then headerReadCap - old(headerBytesRead) else space), err)
      ensures err.Some? ==> FromSocket(err.value) || err.value in [ConnectionLimit, HeaderLimit, JournalFailed]
      ensures err.Some? && !FromSocket(err.value) ==> data == []
      ensures err == Some(HeaderLimit) ==> headerPhase && headerBytesRead >= headerReadCap
      ensures Explains(err)
      ensures err == Some(EOF) && bwj.healthy ==> counters.bytesIn == |conn.incoming|
      ensures err.Some? && FromSocket(err.value) && data == [] ==> headerStarted == old(headerStarted)
      ensures parserFailed ==> plainEnd == old(plainEnd)
      ensures bwj.healthy ==> old(bwj.healthy) && bwj.trace == old(bwj.trace) + Pieces(InboundTemplate(), data) && Notes() == old(Notes())
      ensures old(counters.Remaining(maxConnBytes)) <= 0 ==> err == Some(ConnectionLimit)
      ensures old(counters.Remaining(maxConnBytes)) > 0 && headerPhase && old(headerBytesRead) >= headerReadCap ==> err == Some(HeaderLimit)
      ensures headerPhase && old(headerBytesRead) <= headerReadCap ==> headerBytesRead <= headerReadCap
      ensures bwj.outRefused == old(bwj.outRefused)
    {
      hide Journalled, Pieces, Fronts, NotesOf, DataOf, Out, Notes, JournalHandle.Valid, OutAccounted, OutFlagged;
      NoPieces(InboundTemplate(), bwj.trace);
      var remaining := counters.Remaining(maxConnBytes);
      if remaining <= 0 {
        return [], Some(ConnectionLimit);
      }
      var limit := Min(space, remaining);
      if headerPhase {
        var remainingHeader := headerReadCap - headerBytesRead;
        if remainingHeader <= 0 {
          return [], Some(HeaderLimit);
        }
        limit := Min(limit, remainingHeader);
      }
      data, err := ReadSome(limit);
    }

    /** Takes a piece from the socket, and journals and counts it; what the
        journal refuses is as if it had not come. */
    method ReadSome(limit: nat) returns (data: Bytes, err: Option<Failure>)
      requires Valid() && 0 < limit <= counters.Remaining(maxConnBytes)
      modifies conn`taken, conn`lastRead, conn`faults, conn`recent, bwj, counters`bytesIn
      modifies this`headerStarted, this`headerBytesRead, this`plainEnd
      ensures Valid() && Out() == old(Out()) && old(conn.faults) <= conn.faults
      ensures old(counters.bytesIn) + |data| == counters.bytesIn && |data| <= limit
      ensures data == conn.incoming[old(counters.bytesIn)..counters.bytesIn]
      ensures headerPhase ==> headerBytesRead == old(headerBytesRead) + |data|
      ensures old(headerStarted) ==> headerStarted
      ensures err != Some(JournalFailed) ==> (headerStarted <==> old(headerStarted) || (headerPhase && data != []))
      ensures old(conn.faults) == before + old(conn.recent) ==> conn.faults == before + conn.recent
      ensures err.Some? && FromSocket(err.value) && err != Some(EOF) ==> err.value in conn.recent
      ensures data == [] ==> err.Some?
      ensures err.Some? ==> FromSocket(err.value) || (err.value == JournalFailed && data == [])
      ensures err != Some(JournalFailed) ==> conn.lastRead == ReadReport(limit, err)
      ensures Explains(err)
      ensures err == Some(EOF) && bwj.healthy ==> counters.bytesIn == |conn.incoming|
      ensures parserFailed ==> plainEnd == old(plainEnd)
      ensures bwj.healthy ==> old(bwj.healthy) && bwj.trace == old(bwj.trace) + Pieces(InboundTemplate(), data) && Notes() == old(Notes())
      ensures bwj.outRefused == old(bwj.outRefused)
    {
      hide Journalled, Pieces, Fronts, NotesOf, DataOf, Out, Notes, JournalHandle.Valid, OutAccounted, OutFlagged;
      NoPieces(InboundTemplate(), bwj.trace);
      ghost var from := conn.taken;
      data, err := conn.Read(limit);
      MoreReceived(from, data);
      if |data| > 0 {
        if headerPhase && !headerStarted {
          headerStarted := true;
        }
        var ok := Record(data);
        if !ok {
          return [], Some(JournalFailed);
        }
      }
    }

    /** Receiving a piece disturbs no front. */
    lemma MoreReceived(before: nat, data: Bytes)
      requires before <= conn.taken <= |conn.incoming| && data == conn.incoming[before..conn.taken]
      ensures Fronts(bwj.trace, bwj.refused, bwj.connection, conn.incoming[..before], counters.bytesIn, conn.sent) ==>
                Fronts(bwj.trace, bwj.refused, bwj.connection, conn.incoming[..conn.taken], counters.bytesIn, conn.sent)
    {
      hide Fronts;
      if Fronts(bwj.trace, bwj.refused, bwj.connection, conn.incoming[..before], counters.bytesIn, conn.sent) {
        FrontsStay(bwj.trace, bwj.refused, bwj.connection, conn.incoming[..before], counters.bytesIn, conn.sent, data, []);
        assert conn.incoming[..before] + data == conn.incoming[..conn.taken] && conn.sent + [] == conn.sent;
      }
    }

    /** Journals and counts a piece just taken from the socket. */
    method Record(data: Bytes) returns (ok: bool)
      requires data != [] && counters.bytesIn + |data| <= conn.taken <= |conn.incoming|
      requires counters.bytesOut == |conn.sent| && counters.bytesIn + |data| + counters.bytesOut <= maxConnBytes
      requires plainEnd <= counters.bytesIn && (!parserFailed ==> plainEnd == counters.bytesIn)
      requires bwj.Valid() && OutAccounted() && OutFlagged()
      requires Fronts(bwj.trace, bwj.refused, bwj.connection, conn.incoming[..conn.taken], counters.bytesIn, conn.sent)
      requires bwj.healthy ==>
                 && counters.bytesIn + |data| == conn.taken
                 && data == conn.incoming[counters.bytesIn..conn.taken]
                 && Journalled(bwj.trace, bwj.connection, conn.incoming, counters.bytesIn, plainEnd, conn.sent)
      modifies bwj, counters`bytesIn, this`headerBytesRead, this`plainEnd
      ensures Valid() && Out() == old(Out())
      ensures ok <==> bwj.healthy
      ensures bwj.outRefused == old(bwj.outRefused)
      ensures counters.bytesIn == old(counters.bytesIn) + (if ok then |data| else 0)
      ensures ok ==> data == conn.incoming[old(counters.bytesIn)..counters.bytesIn]
      ensures headerBytesRead == old(headerBytesRead) + (if ok && headerPhase then |data| else 0)
      ensures parserFailed ==> plainEnd == old(plainEnd)
      ensures bwj.healthy ==> old(bwj.healthy) && bwj.trace == old(bwj.trace) + Pieces(InboundTemplate(), data) && Notes() == old(Notes())
    {
      hide Journalled, Pieces, Fronts, NotesOf, DataOf, FlagsOut;
      var flags: byte := if parserFailed then FLAG_PARSER_FAILED else 0;
      ghost var before := bwj.trace;
      ghost var kept: nat;
      ok, kept := bwj.WriteData(NO_ID, INBOUND, flags, data);
      if !ok {
        if old(bwj.healthy) {
          InboundRefused(before, data, kept);
        }
        return;
      }
      NotesOfPieces(before, InboundTemplate(), data);
      FlagsOutOfPieces(before, InboundTemplate(), data, bwj.connection);
      assert outFlags + [] == outFlags;
      DataOfPieces(before, InboundTemplate(), data, bwj.connection, OUTBOUND);
      assert DataOf(before, bwj.connection, OUTBOUND) + [] == DataOf(before, bwj.connection, OUTBOUND);
      InboundJournalled(before, bwj.connection, conn.incoming, counters.bytesIn, plainEnd, conn.sent, parserFailed, data);
      counters.AddIn(|data|);
      if !parserFailed {
        plainEnd := counters.bytesIn;
      }
      if headerPhase {
        headerBytesRead := headerBytesRead + |data|;
      }
      JournalledIsFront(bwj.trace, bwj.connection, conn.incoming, counters.bytesIn, plainEnd, conn.sent);
    }

    lemma InboundRefused(before: seq<Draft>, data: Bytes, kept: nat)
      requires Journalled(before, bwj.connection, conn.incoming, counters.bytesIn, plainEnd, conn.sent)
      requires counters.bytesIn + |data| == conn.taken <= |conn.incoming| && data == conn.incoming[counters.bytesIn..conn.taken]
      requires kept < |Pieces(InboundTemplate(), data)|
      ensures var pieces := Pieces(InboundTemplate(), data);
              && Fronts(before + pieces[..kept], Some(pieces[kept]), bwj.connection, conn.incoming[..conn.taken],
                        counters.bytesIn, conn.sent)
              && DataOf(before + pieces[..kept], bwj.connection, OUTBOUND) == DataOf(before, bwj.connection, OUTBOUND)
    {
      hide Pieces, InboundWith, Opened, Fronts, DataOf;
      JournalledIsFront(before, bwj.connection, conn.incoming, counters.bytesIn, plainEnd, conn.sent);
      FrontsStay(before, None, bwj.connection, conn.incoming[..counters.bytesIn], counters.bytesIn, conn.sent, data, []);
      assert conn.incoming[..counters.bytesIn] + data == conn.incoming[..conn.taken] && conn.sent + [] == conn.sent;
      RefusedPiece(before, bwj.connection, conn.incoming[..conn.taken], counters.bytesIn, conn.sent, InboundTemplate(), data, kept);
    }
  }

  lemma NoteAddsNothing(trace: seq<Draft>, d: Draft, connection: ID, direction: byte)
    requires d.kind != DATA
    ensures DataOf(trace + [d], connection, direction) == DataOf(trace, connection, direction)
  {
    assert (trace + [d])[..|trace + [d]| - 1] == trace;
  }

  const BUFFER_SIZE: nat := 4096

  /** The buffered reader: always a suffix of the bytes read so far, and at
      most one error held back until the buffer is drained. */
  class BufReader {
    const rd: RecordingReader
    var buf: Bytes
    var pending: Option<Failure>

    constructor (rd: RecordingReader)
      ensures this.rd == rd && buf == [] && pending.None?
    {
      this.rd := rd;
      buf, pending := [], None;
    }

    ghost predicate Valid()
      reads this, rd, rd.conn, rd.bwj, rd.counters
    {
      && rd.Valid()
      && |buf| <= rd.counters.bytesIn
      && |buf| <= BUFFER_SIZE
      && buf == rd.conn.incoming[rd.counters.bytesIn - |buf|..rd.counters.bytesIn]
      && (pending.Some? ==> FromSocket(pending.value) && rd.Explains(pending))
      && (pending == Some(EOF) && rd.bwj.healthy ==> rd.counters.bytesIn == |rd.conn.incoming|)
    }

    /** logicalConsumed: bytes read from the peer and no longer buffered. */
    function Consumed(): (n: int)
      reads this, rd.counters
    {
      rd.counters.bytesIn - |buf|
    }

    lemma InBounds()
      requires Valid()
      ensures 0 <= Consumed() <= |rd.conn.incoming|
    {
      hide Journalled, Fronts;
    }

    /** Whatever is sent or noted, the buffer stays what it is. */
    twostate lemma Stays()
      requires old(Valid()) && rd.Valid() && buf == old(buf) && pending == old(pending)
      requires rd.counters.bytesIn == old(rd.counters.bytesIn) && old(rd.conn.faults) <= rd.conn.faults
      requires rd.bwj.healthy ==> old(rd.bwj.healthy)
      ensures Valid() && Consumed() == old(Consumed())
    {
      hide RecordingReader.Valid;
    }

    /** Refills the empty buffer. */
    method Fill() returns (err: Option<Failure>)
      requires Valid() && buf == []
      modifies this, rd.conn`taken, rd.conn`lastRead, rd.conn`faults, rd.conn`recent, rd.bwj, rd.counters`bytesIn
      modifies rd`headerStarted, rd`headerBytesRead, rd`plainEnd
      ensures Valid() && Consumed() == old(Consumed()) && rd.Out() == old(rd.Out()) && old(rd.conn.faults) <= rd.conn.faults
      ensures err.None? ==> buf != [] && pending == rd.conn.lastRead.err
      ensures err.Some? ==> buf == []
      ensures old(pending).Some? ==> err == old(pending) && pending.None? && rd.conn.taken == old(rd.conn.taken)
      ensures err.None? || (old(pending).None? && FromSocket(err.value)) ==>
                rd.conn.lastRead.limit == Min(Min(BUFFER_SIZE, old(rd.counters.Remaining(rd.maxConnBytes))),
                                              if rd.headerPhase then rd.headerReadCap - old(rd.headerBytesRead) else BUFFER_SIZE)
      ensures rd.headerPhase ==> rd.headerBytesRead - old(rd.headerBytesRead) == rd.counters.bytesIn - old(rd.counters.bytesIn)
      ensures err.Some? ==> FromSocket(err.value) || err.value in [ConnectionLimit, HeaderLimit, JournalFailed]
      ensures err.Some? && FromSocket(err.value) ==> rd.headerStarted == old(rd.headerStarted)
      ensures (rd.headerPhase && rd.counters.bytesIn != old(rd.counters.bytesIn)) || old(rd.headerStarted) ==> rd.headerStarted
      ensures rd.headerPhase && err != Some(JournalFailed) ==>
                (rd.headerStarted <==> old(rd.headerStarted) || rd.counters.bytesIn != old(rd.counters.bytesIn))
      ensures err == Some(HeaderLimit) ==> rd.headerPhase && rd.headerBytesRead >= rd.headerReadCap
      ensures rd.Explains(err)
      ensures err == Some(EOF) && rd.bwj.healthy ==> Consumed() == |rd.conn.incoming|
      ensures rd.bwj.healthy ==> old(rd.bwj.healthy) && rd.Notes() == old(rd.Notes())
      ensures rd.headerPhase && old(rd.headerBytesRead) <= rd.headerReadCap ==> rd.headerBytesRead <= rd.headerReadCap
    {
      hide Journalled, Fronts, NotesOf, DataOf;
      if pending.Some? {
        err := pending;
        pending := None;
        return;
      }
      var data, readErr := rd.Read(BUFFER_SIZE);
      if data == [] {
        return readErr;
      }
      buf := data;
      pending := readErr;
      return None;
    }

    method Take() returns (b: byte)
      requires Valid() && buf != []
      modifies this`buf
      ensures Valid() && Consumed() == old(Consumed()) + 1 && |buf| == |old(buf)| - 1 < BUFFER_SIZE
      ensures old(Consumed()) < |rd.conn.incoming| && b == rd.conn.incoming[old(Consumed())]
    {
      hide Journalled, Fronts;
      b := buf[0];
      buf := buf[1..];
    }
  }

  // ---------- writing ----------

  class ExchangeWriter {
    const reader: RecordingReader
    const request: ID
    var streaming: bool
    var hashed: Bytes

    constructor (reader: RecordingReader, request: ID)
      ensures this.reader == reader && this.request == request && hashed == [] && !streaming
    {
      this.reader, this.request := reader, request;
      streaming, hashed := false, [];
    }

    function Flags(): byte
      reads this`streaming
    {
      if streaming then FLAG_STREAMING else 0
    }

    /** The header fields of what is sent. */
    function OutboundTemplate(): Draft
      reads this`streaming
    {
      Draft(DATA, OUTBOUND, Flags(), reader.bwj.connection, request, [])
    }

    /** Sends a front part of the data within the budget; what was sent is
        counted, hashed and, while the journal is healthy, journalled. */
    method Write(data: Bytes) returns (n: nat, err: Option<Failure>)
      requires reader.Valid()
      modifies reader.conn`sent, reader.conn`faults, reader.conn`recent, reader.conn`armed
      modifies reader.bwj, reader.counters`bytesOut, reader`outFlags, this`hashed
      ensures reader.Valid() && old(reader.conn.faults) <= reader.conn.faults
      ensures n <= |data| && reader.conn.sent == old(reader.conn.sent) + data[..n] && hashed == old(hashed) + data[..n]
      ensures reader.outFlags == old(reader.outFlags) + Repeat(Flags(), n)
      ensures err.None? ==> n == |data| || ShortWrite in reader.conn.faults
      ensures data != [] && n == 0 ==> err.Some?
      ensures old(reader.counters.Remaining(reader.maxConnBytes)) < |data| ==> err.Some? || ShortWrite in reader.conn.faults
      ensures err == Some(ConnectionLimit) ==>
                data == [] || Max(old(reader.counters.Remaining(reader.maxConnBytes)), 0) == n < |data|
      ensures err == Some(ShortWrite) ==> n == 0 && data != []
      ensures err.Some? ==> err.value in [Timeout, Broken, ConnectionLimit, JournalFailed, ShortWrite]
      ensures reader.Explains(err)
      ensures reader.bwj.healthy ==>
                && old(reader.bwj.healthy) && reader.Notes() == old(reader.Notes())
                && reader.bwj.trace == old(reader.bwj.trace) + Pieces(OutboundTemplate(), data[..n])
      ensures |old(reader.Out())| <= |reader.Out()|
      ensures err.None? && old(reader.Out()) == old(reader.conn.sent) ==> reader.Out() == reader.conn.sent
    {
      hide Journalled, Pieces, Fronts, NotesOf, DataOf, FlagsOut;
      NoPieces(OutboundTemplate(), reader.bwj.trace);
      assert reader.conn.sent + data[..0] == reader.conn.sent && hashed + data[..0] == hashed;
      assert reader.outFlags + Repeat(Flags(), 0) == reader.outFlags;
      var remaining := reader.counters.Remaining(reader.maxConnBytes);
      if remaining <= 0 {
        return 0, Some(ConnectionLimit);
      }
      var limited := false;
      var part := data;
      if |data| > remaining {
        part := data[..remaining];
        limited := true;
      }
      var ready := reader.conn.SetWriteDeadline();
      if !ready {
        return 0, Some(Broken);
      }
      var writeErr: Option<Failure>;
      ghost var sentBefore := reader.conn.sent;
      n, writeErr := reader.conn.Write(part);
      assert part[..n] == data[..n];
      if n > 0 {
        var ok := Journal(sentBefore, part[..n]);
        hashed := hashed + part[..n];
        if !ok {
          return n, Some(JournalFailed);
        }
      }
      if writeErr.Some? {
        return n, writeErr;
      }
      if limited && n == |part| {
        return n, Some(ConnectionLimit);
      }
      if n == 0 && |part| > 0 {
        return 0, Some(ShortWrite);
      }
      return n, None;
    }

    /** Journals and counts what was just sent; it is counted even if the journal refuses it. */
    method Journal(ghost sentBefore: Bytes, part: Bytes) returns (ok: bool)
      requires part != [] && reader.conn.sent == sentBefore + part
      requires reader.counters.bytesIn <= reader.conn.taken <= |reader.conn.incoming|
      requires reader.counters.bytesOut == |sentBefore|
      requires reader.counters.bytesIn + |reader.conn.sent| <= reader.maxConnBytes
      requires reader.plainEnd <= reader.counters.bytesIn && (!reader.parserFailed ==> reader.plainEnd == reader.counters.bytesIn)
      requires reader.bwj.Valid() && |reader.Out()| <= |sentBefore| == |reader.outFlags|
      requires reader.bwj.healthy ==> FlagsOut(reader.bwj.trace, reader.bwj.connection) == reader.outFlags
      requires !reader.bwj.outRefused ==> reader.Out() == sentBefore
      requires Fronts(reader.bwj.trace, reader.bwj.refused, reader.bwj.connection, reader.conn.incoming[..reader.conn.taken],
                      reader.counters.bytesIn, sentBefore)
      requires reader.bwj.healthy ==>
                 && reader.counters.bytesIn == reader.conn.taken
                 && Journalled(reader.bwj.trace, reader.bwj.connection, reader.conn.incoming, reader.counters.bytesIn,
                               reader.plainEnd, sentBefore)
      modifies reader.bwj, reader.counters`bytesOut, reader`outFlags
      ensures reader.Valid()
      ensures reader.outFlags == old(reader.outFlags) + Repeat(Flags(), |part|)
      ensures ok <==> reader.bwj.healthy
      ensures ok ==>
                && old(reader.bwj.healthy) && reader.Notes() == old(reader.Notes())
                && reader.bwj.trace == old(reader.bwj.trace) + Pieces(OutboundTemplate(), part)
                && reader.Out() == reader.conn.sent
      ensures |old(reader.Out())| <= |reader.Out()|
    {
      hide Journalled, Pieces, Fronts, NotesOf, DataOf, FlagsOut, Repeat;
      ghost var before := reader.bwj.trace;
      ghost var received := reader.conn.incoming[..reader.conn.taken];
      ghost var kept: nat;
      FrontsStay(before, reader.bwj.refused, reader.bwj.connection, received, reader.counters.bytesIn, sentBefore, [], part);
      assert received + [] == received;
      ok, kept := reader.bwj.WriteData(request, OUTBOUND, Flags(), part);
      reader.counters.AddOut(|part|);
      reader.outFlags := reader.outFlags + Repeat(Flags(), |part|);
      if ok {
        FlagsOutOfPieces(before, OutboundTemplate(), part, reader.bwj.connection);
        NotesOfPieces(before, OutboundTemplate(), part);
        OutboundJournalled(before, reader.bwj.connection, reader.conn.incoming, reader.counters.bytesIn, reader.plainEnd,
                           sentBefore, request, OutboundTemplate().flags, part);
        JournalledIsFront(reader.bwj.trace, reader.bwj.connection, reader.conn.incoming, reader.counters.bytesIn,
                          reader.plainEnd, reader.conn.sent);
        JournalledOut(before, reader.bwj.connection, reader.conn.incoming, reader.counters.bytesIn, reader.plainEnd, sentBefore);
        JournalledOut(reader.bwj.trace, reader.bwj.connection, reader.conn.incoming, reader.counters.bytesIn, reader.plainEnd,
                      reader.conn.sent);
      } else if old(reader.bwj.healthy) {
        JournalledOut(before, reader.bwj.connection, reader.conn.incoming, reader.counters.bytesIn, reader.plainEnd, sentBefore);
        OutboundRefused(before, received, sentBefore, part, kept);
      }
    }

    lemma OutboundRefused(before: seq<Draft>, received: Bytes, sentBefore: Bytes, part: Bytes, kept: nat)
      requires Fronts(before, None, reader.bwj.connection, received, reader.counters.bytesIn, sentBefore + part)
      requires DataOf(before, reader.bwj.connection, OUTBOUND) == sentBefore
      requires kept < |Pieces(OutboundTemplate(), part)|
      ensures var pieces := Pieces(OutboundTemplate(), part);
              && Fronts(before + pieces[..kept], Some(pieces[kept]), reader.bwj.connection, received, reader.counters.bytesIn,
                        sentBefore + part)
              && |DataOf(before, reader.bwj.connection, OUTBOUND)|
                 <= |DataOf(before + pieces[..kept], reader.bwj.connection, OUTBOUND)| < |sentBefore + part|
    {
      hide Pieces, DataOf;
      assert DataOf(before, reader.bwj.connection, INBOUND) + [] == DataOf(before, reader.bwj.connection, INBOUND);
      RefusedPiece(before, reader.bwj.connection, received, reader.counters.bytesIn, sentBefore + part, OutboundTemplate(), part, kept);
      RefusedPieceIsMissing(before, OutboundTemplate(), part, kept);
      DataOfFront(before + Pieces(OutboundTemplate(), part)[..kept], |before|, reader.bwj.connection, OUTBOUND);
      assert (before + Pieces(OutboundTemplate(), part)[..kept])[..|before|] == before;
    }
  }

  lemma JournalledOut(trace: seq<Draft>, connection: ID, incoming: Bytes, bytesIn: nat, plainEnd: nat, sent: Bytes)
    requires Journalled(trace, connection, incoming, bytesIn, plainEnd, sent)
    ensures DataOf(trace, connection, OUTBOUND) == sent
  {
    hide DataOf, InboundWith, Opened;
  }
}
