/** What one connection's records in the journal carry: its two streams, which
    inbound bytes are flagged, and the notes about limits and parser errors
    (the calls of internal/engine/connection.go on the journal). */
module Traces {
  import opened Wrappers
  import opened Bytes
  import opened Ids
  import opened Format
  import opened Drafts
  import opened Rebuild

  /** Inbound bytes journalled with exactly these flags. */
  function InboundWith(trace: seq<Draft>, connection: ID, flags: byte): Bytes {
    if trace == [] then []
    else
      InboundWith(trace[..|trace| - 1], connection, flags)
      + var d := trace[|trace| - 1];
        if d.kind == DATA && d.connection == connection && d.direction == INBOUND && d.flags == flags then d.payload else []
  }

  lemma {:induction false} DataOfPieces(trace: seq<Draft>, template: Draft, data: Bytes, connection: ID, direction: byte)
    requires template.kind == DATA
    ensures DataOf(trace + Pieces(template, data), connection, direction)
            == DataOf(trace, connection, direction)
               + if template.connection == connection && template.direction == direction then data else []
    decreases |data|
  {
    if data == [] {
      assert trace + [] == trace;
    } else {
      var n := Min(|data|, MAX_DATA_PAYLOAD);
      var d := Draft(template.kind, template.direction, template.flags, template.connection, template.request, data[..n]);
      assert (trace + [d])[..|trace|] == trace;
      DataOfPieces(trace + [d], template, data[n..], connection, direction);
      assert trace + Pieces(template, data) == trace + [d] + Pieces(template, data[n..]);
      assert data == data[..n] + data[n..];
      Assoc(DataOf(trace, connection, direction), data[..n], data[n..]);
    }
  }

  lemma {:induction false} InboundOfPieces(trace: seq<Draft>, template: Draft, data: Bytes, connection: ID, flags: byte)
    requires template.kind == DATA
    ensures InboundWith(trace + Pieces(template, data), connection, flags)
            == InboundWith(trace, connection, flags)
               + if template.connection == connection && template.direction == INBOUND && template.flags == flags then data else []
    decreases |data|
  {
    if data == [] {
      assert trace + [] == trace;
    } else {
      var n := Min(|data|, MAX_DATA_PAYLOAD);
      var d := Draft(template.kind, template.direction, template.flags, template.connection, template.request, data[..n]);
      assert (trace + [d])[..|trace|] == trace;
      InboundOfPieces(trace + [d], template, data[n..], connection, flags);
      assert trace + Pieces(template, data) == trace + [d] + Pieces(template, data[n..]);
      assert data == data[..n] + data[n..];
      Assoc(InboundWith(trace, connection, flags), data[..n], data[n..]);
    }
  }

  // ---------- the flags of what was sent ----------

  function Repeat(b: byte, n: nat): (s: Bytes)
    ensures |s| == n
  {
    seq(n, _ => b)
  }

  lemma RepeatMore(b: byte, m: nat, n: nat)
    ensures Repeat(b, m) + Repeat(b, n) == Repeat(b, m + n)
  {
  }

  /** The flags of the outbound records, byte by byte of what they carry. */
  function FlagsOut(trace: seq<Draft>, connection: ID): Bytes {
    if trace == [] then []
    else
      FlagsOut(trace[..|trace| - 1], connection)
      + var d := trace[|trace| - 1];
        if CarriesOut(d) && d.connection == connection then Repeat(d.flags, |d.payload|) else []
  }

  lemma FlagsOutSnoc(trace: seq<Draft>, d: Draft, connection: ID)
    ensures FlagsOut(trace + [d], connection)
            == FlagsOut(trace, connection)
               + if CarriesOut(d) && d.connection == connection then Repeat(d.flags, |d.payload|) else []
  {
    assert (trace + [d])[..|trace + [d]| - 1] == trace;
  }

  lemma {:induction false} FlagsOutOfPieces(trace: seq<Draft>, template: Draft, data: Bytes, connection: ID)
    requires template.kind == DATA
    ensures FlagsOut(trace + Pieces(template, data), connection)
            == FlagsOut(trace, connection)
               + if template.direction == OUTBOUND && template.connection == connection then Repeat(template.flags, |data|) else []
    decreases |data|
  {
    hide FlagsOut, Repeat;
    if data == [] {
      assert trace + [] == trace;
    } else {
      var n := Min(|data|, MAX_DATA_PAYLOAD);
      var d := Draft(template.kind, template.direction, template.flags, template.connection, template.request, data[..n]);
      FlagsOutSnoc(trace, d, connection);
      FlagsOutOfPieces(trace + [d], template, data[n..], connection);
      assert trace + Pieces(template, data) == trace + [d] + Pieces(template, data[n..]);
      RepeatMore(template.flags, n, |data| - n);
      Assoc(FlagsOut(trace, connection), Repeat(template.flags, n), Repeat(template.flags, |data| - n));
    }
  }

  /** There is one flag byte for every outbound byte. */
  lemma {:induction false} FlagsOutSize(trace: seq<Draft>, connection: ID)
    ensures |FlagsOut(trace, connection)| == |DataOf(trace, connection, OUTBOUND)|
  {
    if trace != [] {
      FlagsOutSize(trace[..|trace| - 1], connection);
    }
  }

  // ---------- the notes ----------

  /** The parser-error and limit records, in order. */
  function NotesOf(trace: seq<Draft>): seq<Draft> {
    if trace == [] then []
    else NotesOf(trace[..|trace| - 1])
         + if trace[|trace| - 1].kind in [PARSER_ERROR, LIMIT_REACHED] then [trace[|trace| - 1]] else []
  }

  lemma NotesOfSnoc(trace: seq<Draft>, d: Draft)
    ensures NotesOf(trace + [d]) == NotesOf(trace) + if d.kind in [PARSER_ERROR, LIMIT_REACHED] then [d] else []
  {
    assert (trace + [d])[..|trace + [d]| - 1] == trace;
  }

  lemma {:induction false} NotesOfPieces(trace: seq<Draft>, template: Draft, data: Bytes)
    requires template.kind == DATA
    ensures NotesOf(trace + Pieces(template, data)) == NotesOf(trace)
    decreases |data|
  {
    hide NotesOf;
    if data == [] {
      assert trace + [] == trace;
    } else {
      var n := Min(|data|, MAX_DATA_PAYLOAD);
      var d := Draft(template.kind, template.direction, template.flags, template.connection, template.request, data[..n]);
      NotesOfSnoc(trace, d);
      NotesOfPieces(trace + [d], template, data[n..]);
      assert trace + Pieces(template, data) == trace + [d] + Pieces(template, data[n..]);
    }
  }

  /** The notes are exactly the records of those two kinds. */
  lemma {:induction false} NotesAreTheRecords(trace: seq<Draft>, d: Draft)
    requires d.kind in [PARSER_ERROR, LIMIT_REACHED]
    ensures d in NotesOf(trace) <==> d in trace
  {
    if trace != [] {
      var front, last := trace[..|trace| - 1], trace[|trace| - 1];
      NotesAreTheRecords(front, d);
      assert trace == front + [last];
    }
  }

  // ---------- the streams ----------

  /** An OPEN record, then only data, parser errors and limits, all of this connection. */
  ghost predicate Opened(trace: seq<Draft>, connection: ID) {
    && trace != [] && trace[0] == OpenDraft(connection)
    && forall i | 0 < i < |trace| :: trace[i].connection == connection && trace[i].kind in [DATA, PARSER_ERROR, LIMIT_REACHED]
  }

  /** The trace carries exactly the first `bytesIn` bytes of the peer's stream,
      those from `plainEnd` on flagged as parser-failed, and the bytes sent. */
  ghost predicate Journalled(trace: seq<Draft>, connection: ID, incoming: Bytes, bytesIn: nat, plainEnd: nat, sent: Bytes) {
    && plainEnd <= bytesIn <= |incoming|
    && Opened(trace, connection)
    && DataOf(trace, connection, INBOUND) == incoming[..bytesIn]
    && DataOf(trace, connection, OUTBOUND) == sent
    && InboundWith(trace, connection, 0) == incoming[..plainEnd]
    && InboundWith(trace, connection, FLAG_PARSER_FAILED) == incoming[plainEnd..bytesIn]
  }

  predicate CarriesOut(d: Draft) {
    d.kind == DATA && d.direction == OUTBOUND
  }

  /** What a connection learns of its own calls on the journal: those that were
      acknowledged, the first that was not, and whether any refused one was to
      carry outbound data. */
  datatype View = View(trace: seq<Draft>, refused: Option<Draft>, outRefused: bool)

  const NOTHING_SEEN: View := View([], None, false)

  function AfterCall(v: View, d: Draft, ok: bool): View {
    if ok then v.(trace := v.trace + [d])
    else View(v.trace, if v.refused.None? then Some(d) else v.refused, v.outRefused || CarriesOut(d))
  }

  /** What was acknowledged, and the first call that was refused. */
  function Asked(trace: seq<Draft>, refused: Option<Draft>): seq<Draft> {
    match refused case None => trace case Some(d) => trace + [d]
  }

  /** In every state, also after a refusal: the records carry a front of what
      was received, at least what was counted, and a front of what was sent,
      even if the refused record is found among them. */
  ghost predicate Fronts(trace: seq<Draft>, refused: Option<Draft>, connection: ID, received: Bytes, bytesIn: nat, sent: Bytes) {
    && DataOf(Asked(trace, refused), connection, INBOUND) <= received
    && bytesIn <= |DataOf(trace, connection, INBOUND)|
    && DataOf(trace, connection, OUTBOUND) <= DataOf(Asked(trace, refused), connection, OUTBOUND) <= sent
  }

  lemma PiecesKeepShape(trace: seq<Draft>, connection: ID, template: Draft, data: Bytes)
    requires Opened(trace, connection) && template.kind == DATA && template.connection == connection
    ensures Opened(trace + Pieces(template, data), connection)
  {
    PiecesAreSized(template, data);
    var pieces := Pieces(template, data);
    assert forall i | 0 <= i < |pieces| :: (trace + pieces)[|trace| + i] == pieces[i];
  }

  lemma NoPieces(template: Draft, trace: seq<Draft>)
    ensures Pieces(template, []) == [] && trace + [] == trace
  {
  }

  lemma JoinSlices(stream: Bytes, from: nat, k: nat, data: Bytes)
    requires from <= k && k + |data| <= |stream| && data == stream[k..k + |data|]
    ensures stream[..k] + data == stream[..k + |data|]
    ensures stream[from..k] + data == stream[from..k + |data|]
    ensures stream[k + |data|..k + |data|] == [] == stream[k..k] + []
  {
  }

  lemma InboundJournalled(trace: seq<Draft>, connection: ID, incoming: Bytes, bytesIn: nat, plainEnd: nat, sent: Bytes,
                          failed: bool, data: Bytes)
    requires Journalled(trace, connection, incoming, bytesIn, plainEnd, sent)
    requires bytesIn + |data| <= |incoming| && data == incoming[bytesIn..bytesIn + |data|]
    requires !failed ==> plainEnd == bytesIn
    ensures var flags := if failed then FLAG_PARSER_FAILED else 0;
            var after := trace + Pieces(Draft(DATA, INBOUND, flags, connection, NO_ID, []), data);
            && Journalled(after, connection, incoming, bytesIn + |data|, if failed then plainEnd else bytesIn + |data|, sent)
  {
    var flags := if failed then FLAG_PARSER_FAILED else 0;
    var template := Draft(DATA, INBOUND, flags, connection, NO_ID, []);
    hide DataOf, InboundWith, Pieces;
    DataOfPieces(trace, template, data, connection, INBOUND);
    DataOfPieces(trace, template, data, connection, OUTBOUND);
    InboundOfPieces(trace, template, data, connection, 0);
    InboundOfPieces(trace, template, data, connection, FLAG_PARSER_FAILED);
    PiecesKeepShape(trace, connection, template, data);
    JoinSlices(incoming, plainEnd, bytesIn, data);
    assert sent + [] == sent && incoming[..plainEnd] + [] == incoming[..plainEnd];
  }

  lemma OutboundJournalled(trace: seq<Draft>, connection: ID, incoming: Bytes, bytesIn: nat, plainEnd: nat, sent: Bytes,
                           request: ID, flags: byte, data: Bytes)
    requires Journalled(trace, connection, incoming, bytesIn, plainEnd, sent)
    ensures var after := trace + Pieces(Draft(DATA, OUTBOUND, flags, connection, request, []), data);
            && Journalled(after, connection, incoming, bytesIn, plainEnd, sent + data)
  {
    var template := Draft(DATA, OUTBOUND, flags, connection, request, []);
    hide DataOf, InboundWith, Pieces;
    DataOfPieces(trace, template, data, connection, INBOUND);
    DataOfPieces(trace, template, data, connection, OUTBOUND);
    InboundOfPieces(trace, template, data, connection, 0);
    InboundOfPieces(trace, template, data, connection, FLAG_PARSER_FAILED);
    PiecesKeepShape(trace, connection, template, data);
    assert incoming[..bytesIn] + [] == incoming[..bytesIn] && incoming[..plainEnd] + [] == incoming[..plainEnd];
    assert incoming[plainEnd..bytesIn] + [] == incoming[plainEnd..bytesIn];
  }

  /** A parser-error or limit record changes no stream. */
  lemma NoteJournalled(trace: seq<Draft>, connection: ID, incoming: Bytes, bytesIn: nat, plainEnd: nat, sent: Bytes, d: Draft)
    requires Journalled(trace, connection, incoming, bytesIn, plainEnd, sent)
    requires d.connection == connection && (d.kind == PARSER_ERROR || d.kind == LIMIT_REACHED)
    ensures Journalled(trace + [d], connection, incoming, bytesIn, plainEnd, sent)
  {
    var after := trace + [d];
    assert after[..|trace|] == trace && after[|trace|] == d;
  }

  // ---------- refusals ----------

  lemma JournalledIsFront(trace: seq<Draft>, connection: ID, incoming: Bytes, bytesIn: nat, plainEnd: nat, sent: Bytes)
    requires Journalled(trace, connection, incoming, bytesIn, plainEnd, sent)
    ensures Fronts(trace, None, connection, incoming[..bytesIn], bytesIn, sent)
  {
    hide DataOf, InboundWith, Opened;
  }

  /** Receiving, counting less or sending more disturbs no front. */
  lemma FrontsStay(trace: seq<Draft>, refused: Option<Draft>, connection: ID, received: Bytes, bytesIn: nat, sent: Bytes,
                   more: Bytes, further: Bytes)
    requires Fronts(trace, refused, connection, received, bytesIn, sent)
    ensures Fronts(trace, refused, connection, received + more, bytesIn, sent + further)
  {
    hide DataOf;
  }

  lemma DataOfFront(ds: seq<Draft>, k: nat, connection: ID, direction: byte)
    requires k <= |ds|
    ensures DataOf(ds[..k], connection, direction) <= DataOf(ds, connection, direction)
  {
    hide DataOf;
    DataOfAppend(ds[..k], ds[k..], connection, direction);
    assert ds == ds[..k] + ds[k..];
  }

  /** A data call that was refused at one of its pieces. */
  lemma RefusedPiece(trace: seq<Draft>, connection: ID, received: Bytes, bytesIn: nat, sent: Bytes,
                     template: Draft, data: Bytes, kept: nat)
    requires Fronts(trace, None, connection, received, bytesIn, sent)
    requires template.kind == DATA && kept < |Pieces(template, data)|
    requires DataOf(trace, connection, INBOUND)
             + (if template.connection == connection && template.direction == INBOUND then data else []) <= received
    requires DataOf(trace, connection, OUTBOUND)
             + (if template.connection == connection && template.direction == OUTBOUND then data else []) <= sent
    ensures var pieces := Pieces(template, data);
            Fronts(trace + pieces[..kept], Some(pieces[kept]), connection, received, bytesIn, sent)
    ensures template.direction != OUTBOUND ==>
              DataOf(trace + Pieces(template, data)[..kept], connection, OUTBOUND) == DataOf(trace, connection, OUTBOUND)
  {
    hide DataOf, Pieces;
    var pieces := Pieces(template, data);
    var asked := trace + pieces[..kept] + [pieces[kept]];
    assert asked == (trace + pieces)[..|trace| + kept + 1];
    assert trace + pieces[..kept] == (trace + pieces)[..|trace| + kept] == asked[..|trace| + kept];
    assert trace == (trace + pieces[..kept])[..|trace|];
    forall direction: byte
      ensures DataOf(asked, connection, direction) <= DataOf(trace + pieces, connection, direction)
      ensures DataOf(trace + pieces[..kept], connection, direction) <= DataOf(asked, connection, direction)
      ensures DataOf(trace, connection, direction) <= DataOf(trace + pieces[..kept], connection, direction)
    {
      DataOfFront(trace + pieces, |trace| + kept + 1, connection, direction);
      DataOfFront(asked, |trace| + kept, connection, direction);
      DataOfFront(trace + pieces[..kept], |trace|, connection, direction);
    }
    DataOfPieces(trace, template, data, connection, INBOUND);
    DataOfPieces(trace, template, data, connection, OUTBOUND);
  }

  /** The pieces before a refused one do not carry all of the data. */
  lemma RefusedPieceIsMissing(trace: seq<Draft>, template: Draft, data: Bytes, kept: nat)
    requires template.kind == DATA && template.direction == OUTBOUND && kept < |Pieces(template, data)|
    ensures |DataOf(trace + Pieces(template, data)[..kept], template.connection, OUTBOUND)|
            < |DataOf(trace, template.connection, OUTBOUND) + data|
  {
    hide DataOf, Pieces;
    var pieces := Pieces(template, data);
    PiecesAreSized(template, data);
    var d := pieces[kept];
    assert PieceOf(template, d);
    var next := trace + pieces[..kept] + [d];
    assert next == (trace + pieces)[..|trace| + kept + 1];
    DataOfFront(trace + pieces, |trace| + kept + 1, template.connection, OUTBOUND);
    OneMore(trace + pieces[..kept], d);
    DataOfPieces(trace, template, data, template.connection, OUTBOUND);
  }

  lemma OneMore(trace: seq<Draft>, d: Draft)
    requires d.kind == DATA
    ensures DataOf(trace + [d], d.connection, d.direction) == DataOf(trace, d.connection, d.direction) + d.payload
  {
    assert (trace + [d])[..|trace|] == trace;
  }

  /** A refused record that carries no data. */
  lemma RefusedNote(trace: seq<Draft>, connection: ID, received: Bytes, bytesIn: nat, sent: Bytes, d: Draft)
    requires Fronts(trace, None, connection, received, bytesIn, sent) && d.kind != DATA
    ensures Fronts(trace, Some(d), connection, received, bytesIn, sent)
  {
    assert (trace + [d])[..|trace|] == trace;
  }
}
