/** The drafts the journal's callers build (internal/evidence/bwj.go). */
module Drafts {
  import opened Bytes
  import opened Ids
  import opened Format

  predicate PieceOf(template: Draft, d: Draft) {
    && 0 < |d.payload| <= MAX_DATA_PAYLOAD
    && d == Draft(template.kind, template.direction, template.flags, template.connection, template.request, d.payload)
  }

  /** The records one call to WriteData asks for. */
  function Pieces(template: Draft, data: Bytes): seq<Draft> {
    if data == [] then []
    else
      var n := Min(|data|, MAX_DATA_PAYLOAD);
      [Draft(template.kind, template.direction, template.flags, template.connection, template.request, data[..n])]
      + Pieces(template, data[n..])
  }

  /** Every piece is the template with a non-empty payload of allowed size, and all but the last are full. */
  lemma {:induction false} PiecesAreSized(template: Draft, data: Bytes)
    ensures forall i | 0 <= i < |Pieces(template, data)| :: PieceOf(template, Pieces(template, data)[i])
    ensures forall i | 0 <= i < |Pieces(template, data)| - 1 :: |Pieces(template, data)[i].payload| == MAX_DATA_PAYLOAD
    decreases |data|
  {
    if data != [] {
      PiecesAreSized(template, data[Min(|data|, MAX_DATA_PAYLOAD)..]);
    }
  }

  /** The payload bytes of drafts, in order. */
  function Payloads(ds: seq<Draft>): Bytes {
    if ds == [] then [] else ds[0].payload + Payloads(ds[1..])
  }

  /** Splitting loses nothing. */
  lemma {:induction false} PiecesCarryTheData(template: Draft, data: Bytes)
    ensures Payloads(Pieces(template, data)) == data
  {
    if data != [] {
      var n := Min(|data|, MAX_DATA_PAYLOAD);
      PiecesCarryTheData(template, data[n..]);
      assert Pieces(template, data)[1..] == Pieces(template, data[n..]);
      assert data[..n] + data[n..] == data;
    }
  }

  const NO_ID: ID := [0, 0, 0, 0, 0, 0, 0, 0, 0, 0, 0, 0, 0, 0, 0, 0]

  function OpenDraft(connection: ID): Draft {
    Draft(CONNECTION_OPEN, NOT_APPLICABLE, 0, connection, NO_ID, [])
  }

  function CloseDraft(connection: ID, reason: nat): Draft {
    Draft(CONNECTION_CLOSE, NOT_APPLICABLE, 0, connection, NO_ID, PutLE(reason, 2))
  }

  function ParserErrorDraft(connection: ID, code: nat, position: nat): Draft {
    Draft(PARSER_ERROR, NOT_APPLICABLE, 0, connection, NO_ID, PutLE(code, 2) + PutLE(position, 8))
  }

  function LimitDraft(connection: ID, code: nat, observed: nat): Draft {
    Draft(LIMIT_REACHED, NOT_APPLICABLE, FLAG_LIMIT, connection, NO_ID, PutLE(code, 2) + PutLE(observed, 8))
  }

  // ---------- what the records say ----------

  /** A record as a reader of the journal understands it. */
  datatype Meaning =
    | Opening
    | Carried(direction: byte, flags: byte, data: Bytes)
    | Closing(reason: nat)
    | Refusal(code: nat, position: nat)
    | LimitHit(code: nat, observed: nat)
    | Unreadable

  function MeaningOf(d: Draft): Meaning {
    if d.kind == CONNECTION_OPEN && d.payload == [] then Opening
    else if d.kind == DATA then Carried(d.direction, d.flags, d.payload)
    else if d.kind == CONNECTION_CLOSE && |d.payload| == 2 then Closing(GetLE(d.payload))
    else if d.kind == PARSER_ERROR && |d.payload| == 10 then Refusal(GetLE(d.payload[..2]), GetLE(d.payload[2..]))
    else if d.kind == LIMIT_REACHED && |d.payload| == 10 && d.flags == FLAG_LIMIT then
      LimitHit(GetLE(d.payload[..2]), GetLE(d.payload[2..]))
    else Unreadable
  }

  /** Two numbers side by side read back. */
  lemma PairReads(code: uint16, number: uint64)
    ensures var s := PutLE(code, 2) + PutLE(number, 8);
            |s| == 10 && GetLE(s[..2]) == code && GetLE(s[2..]) == number
  {
    hide PutLE, GetLE;
    var s := PutLE(code, 2) + PutLE(number, 8);
    assert s[..2] == PutLE(code, 2) && s[2..] == PutLE(number, 8);
    Pow256Of8();
    GetPutLE(code, 2);
    GetPutLE(number, 8);
  }

  /** A CLOSE record tells its reason. */
  lemma CloseTellsItsReason(connection: ID, reason: uint16)
    ensures MeaningOf(CloseDraft(connection, reason)) == Closing(reason)
    ensures WellFormed(CloseDraft(connection, reason))
  {
    Pow256Of8();
    GetPutLE(reason, 2);
  }

  /** A parser-error record tells what was wrong, and where. */
  lemma ParserErrorTellsWhere(connection: ID, code: uint16, position: uint64)
    ensures MeaningOf(ParserErrorDraft(connection, code, position)) == Refusal(code, position)
    ensures WellFormed(ParserErrorDraft(connection, code, position))
  {
    hide PutLE, GetLE;
    PairReads(code, position);
  }

  /** A limit record tells which limit, and what was observed. */
  lemma LimitTellsWhat(connection: ID, code: uint16, observed: uint64)
    ensures MeaningOf(LimitDraft(connection, code, observed)) == LimitHit(code, observed)
    ensures WellFormed(LimitDraft(connection, code, observed))
  {
    hide PutLE, GetLE;
    PairReads(code, observed);
  }
}
