/** The offline indexer: rebuilds the streams and checks every exchange event
    against them (Run, internal/index/index.go). */
module Indexer {
  import opened Wrappers
  import opened Bytes
  import opened Reader
  import opened Rebuild
  import opened Runs

  /** The fields of an exchange event the indexer looks at; an empty digest means none was recorded. */
  datatype Event = Event(run: Bytes, connection: Bytes, requestComplete: bool, requestStart: int, requestLength: int,
                         responseStart: int, responseLength: int, digest: Bytes, started: int)

  /** A row of the connections table, as far as this loop fills it. */
  datatype ConnectionRow = ConnectionRow(connection: Bytes, run: Bytes, openedAt: int)

  datatype ExchangeRow = ExchangeRow(event: Event, requestDigest: Bytes)

  datatype Fault = RequestRange | ResponseRange | DigestMismatch

  datatype IndexError = Journal(error: ReadError) | Exchange(index: nat, fault: Fault)

  datatype Tables = Tables(connections: map<Bytes, ConnectionRow>, exchanges: seq<ExchangeRow>)

  predicate InRange(stream: Bytes, start: int, length: int) {
    0 <= start && 0 <= length && start + length <= |stream|
  }

  /** streamSliceSHA256, which avoids adding the start to the length. */
  function SliceDigest(sha: Bytes -> Bytes, stream: Bytes, start: int, length: int): (r: Option<Bytes>)
    ensures r.Some? <==> InRange(stream, start, length)
    ensures r.Some? ==> r.value == sha(stream[start..start + length])
  {
    if start < 0 || length < 0 || start > |stream| || length > |stream| - start then None
    else Some(sha(stream[start..start + length]))
  }

  function StreamsFor(wire: map<Key, Streams>, e: Event): Streams {
    Lookup(wire, Key(e.run, e.connection))
  }

  /** The event points at bytes that exist, and its digest is the digest of the bytes it points at. */
  predicate Holds(sha: Bytes -> Bytes, wire: map<Key, Streams>, e: Event) {
    var s := StreamsFor(wire, e);
    && (e.requestComplete ==> InRange(s.inbound, e.requestStart, e.requestLength))
    && (e.digest != [] ==>
          && InRange(s.outbound, e.responseStart, e.responseLength)
          && sha(s.outbound[e.responseStart..e.responseStart + e.responseLength]) == e.digest)
  }

  /** What is wrong with an event that does not hold. */
  predicate Explained(sha: Bytes -> Bytes, wire: map<Key, Streams>, e: Event, fault: Fault) {
    var s := StreamsFor(wire, e);
    var requestBad := e.requestComplete && !InRange(s.inbound, e.requestStart, e.requestLength);
    match fault
    case RequestRange => requestBad
    case ResponseRange => !requestBad && e.digest != [] && !InRange(s.outbound, e.responseStart, e.responseLength)
    case DigestMismatch =>
      && !requestBad && e.digest != [] && InRange(s.outbound, e.responseStart, e.responseLength)
      && sha(s.outbound[e.responseStart..e.responseStart + e.responseLength]) != e.digest
  }

  /** The row of an event's request: the digest of the bytes of a complete request. */
  ghost predicate RowFor(sha: Bytes -> Bytes, wire: map<Key, Streams>, e: Event, row: ExchangeRow) {
    && row.event == e
    && (!e.requestComplete ==> row.requestDigest == [])
    && (e.requestComplete && InRange(StreamsFor(wire, e).inbound, e.requestStart, e.requestLength) ==>
          row.requestDigest == sha(StreamsFor(wire, e).inbound[e.requestStart..e.requestStart + e.requestLength]))
  }

  /** Known connections keep their rows; an unknown one gets the row of its first event. */
  ghost predicate Backfilled(before: map<Bytes, ConnectionRow>, events: seq<Event>, after: map<Bytes, ConnectionRow>) {
    && (forall c | c in before :: c in after && after[c] == before[c])
    && (forall c | c in after && c !in before :: FirstEventOf(events, c, after[c]))
    && (forall i | 0 <= i < |events| :: events[i].connection in after)
  }

  ghost predicate FirstEventOf(events: seq<Event>, c: Bytes, row: ConnectionRow) {
    exists i ::
      && 0 <= i < |events| && events[i].connection == c
      && row == ConnectionRow(c, events[i].run, events[i].started)
      && forall j | 0 <= j < i :: events[j].connection != c
  }

  lemma BackfillStep(before: map<Bytes, ConnectionRow>, events: seq<Event>, after: map<Bytes, ConnectionRow>, e: Event)
    requires Backfilled(before, events, after)
    ensures var row := ConnectionRow(e.connection, e.run, e.started);
            Backfilled(before, events + [e], if e.connection in after then after else after[e.connection := row])
  {
    var all := events + [e];
    var row := ConnectionRow(e.connection, e.run, e.started);
    var next := if e.connection in after then after else after[e.connection := row];
    forall c | c in next && c !in before
      ensures FirstEventOf(all, c, next[c])
    {
      if c in after {
        var i :| 0 <= i < |events| && events[i].connection == c && after[c] == ConnectionRow(c, events[i].run, events[i].started)
                 && forall j | 0 <= j < i :: events[j].connection != c;
        assert all[i] == events[i];
      } else {
        assert all[|events|] == e;
      }
    }
  }

  /** Checks one event: its request digest, or what is wrong with it. */
  method CheckEvent(sha: Bytes -> Bytes, wire: map<Key, Streams>, e: Event) returns (r: Result<Bytes, Fault>)
    ensures r.Ok? <==> Holds(sha, wire, e)
    ensures r.Ok? ==> RowFor(sha, wire, e, ExchangeRow(e, r.value))
    ensures r.Err? ==> Explained(sha, wire, e, r.error)
  {
    var stream := StreamsFor(wire, e);
    var requestDigest: Bytes := [];
    if e.requestComplete {
      var hash := SliceDigest(sha, stream.inbound, e.requestStart, e.requestLength);
      if hash.None? {
        return Err(RequestRange);
      }
      requestDigest := hash.value;
    }
    if e.digest != [] {
      var actual := SliceDigest(sha, stream.outbound, e.responseStart, e.responseLength);
      if actual.None? {
        return Err(ResponseRange);
      }
      if actual.value != e.digest {
        return Err(DigestMismatch);
      }
    }
    return Ok(requestDigest);
  }

  /** Succeeds exactly when every event holds; otherwise reports the first that does not. */
  method VerifyExchanges(sha: Bytes -> Bytes, wire: map<Key, Streams>, connections: map<Bytes, ConnectionRow>, events: seq<Event>)
    returns (r: Result<Tables, IndexError>)
    ensures r.Ok? <==> forall i | 0 <= i < |events| :: Holds(sha, wire, events[i])
    ensures r.Ok? ==>
              && |r.value.exchanges| == |events|
              && (forall i | 0 <= i < |events| :: RowFor(sha, wire, events[i], r.value.exchanges[i]))
              && Backfilled(connections, events, r.value.connections)
    ensures r.Err? ==>
              && r.error.Exchange? && r.error.index < |events|
              && (forall j | 0 <= j < r.error.index :: Holds(sha, wire, events[j]))
              && Explained(sha, wire, events[r.error.index], r.error.fault)
  {
    hide Holds, RowFor, Explained, Backfilled;
    var rows: seq<ExchangeRow> := [];
    var table := connections;
    var i := 0;
    NothingBackfilled(connections);
    assert events[..0] == [];
    while i < |events|
      invariant i <= |events| && |rows| == i
      invariant forall j | 0 <= j < i :: Holds(sha, wire, events[j]) && RowFor(sha, wire, events[j], rows[j])
      invariant Backfilled(connections, events[..i], table)
    {
      var e := events[i];
      var check := CheckEvent(sha, wire, e);
      if check.Err? {
        return Err(Exchange(i, check.error));
      }
      rows := rows + [ExchangeRow(e, check.value)];
      BackfillStep(connections, events[..i], table, e);
      assert events[..i + 1] == events[..i] + [e];
      if e.connection !in table {
        table := table[e.connection := ConnectionRow(e.connection, e.run, e.started)];
      }
      i := i + 1;
    }
    assert events[..i] == events;
    return Ok(Tables(table, rows));
  }

  lemma NothingBackfilled(connections: map<Bytes, ConnectionRow>)
    ensures Backfilled(connections, [], connections)
  {
  }

  /** The whole index run over a directory listing and the structured events. */
  method IndexRun(sha: Bytes -> Bytes, listing: seq<Bytes>, connections: map<Bytes, ConnectionRow>, events: seq<Event>)
    returns (r: Result<Tables, IndexError>)
    ensures r.Err? && r.error.Journal? <==> ReadAll(listing).Err?
    ensures ReadAll(listing).Ok? ==>
              var wire := Fold(SortFiles(ReadAll(listing).value));
              && (r.Ok? <==> forall i | 0 <= i < |events| :: Holds(sha, wire, events[i]))
              && (r.Ok? ==> |r.value.exchanges| == |events|
                            && forall i | 0 <= i < |events| :: RowFor(sha, wire, events[i], r.value.exchanges[i]))
              && (r.Ok? ==> Backfilled(connections, events, r.value.connections))
              && (r.Err? ==>
                    && r.error.Exchange? && r.error.index < |events|
                    && (forall j | 0 <= j < r.error.index :: Holds(sha, wire, events[j]))
                    && Explained(sha, wire, events[r.error.index], r.error.fault))
  {
    hide Holds, RowFor, Explained, Backfilled, Fold, SortFiles, ReadAll;
    var wire := ReconstructStreams(listing);
    match wire {
      case Err(e) =>
        return Err(Journal(e));
      case Ok(streams) =>
        r := VerifyExchanges(sha, streams, connections, events);
    }
  }
}
