# Evidence pipeline of the honeypot: verified model

The honeypot records every byte it receives and sends, and promises that each
exchange event it emits points at exactly the bytes it claims. This project
models that promise from end to end and proves it:

- **The Binary Wire Journal.** `Format` is the file format, `Reader` the
  truncation-tolerant reader, `Writer` the writer object over an append-only
  directory with short writes and faults at any byte. `Journal` is the same
  writer as a value, `Runs` whole runs of it, `Failures` what the replies of
  the disk make of a run, `Rebuild` the offline rebuild (read every listed
  file, sort, fold the data records).
- **One connection.** `Traces` says what a connection's records carry;
  `ConnectionIO` holds the socket, the byte counters, the recording reader, its
  buffer and the exchange writer; `Parsing` the request loops over any request
  grammar; `Lives` what the life of a connection promises, with every cause it
  can end for; `Handling` the handler from its OPEN to its CLOSE record;
  `Exchanges` what its exchanges say together; `Endings` what its end says,
  `Honesty` that its records and its reason are true, `Agreement` when two
  connections with one peer end alike, `Budget` what the byte budget does to
  the interim line. `Samples` are small connections for the cases in which the
  code surprises.
- **Responses.** `Headers`, `Routes` and `Selecting` are the configured
  headers, the validators and the choice of a response; `Rendering` is the
  wire form, the size predictor and a decoder for section 7.1 of RFC 9112;
  `HeaderBlock` reads a printed response back as a client does (section 6.3 of
  RFC 9112); `Printer` is the streaming printer.
- **The whole pipeline.** `Sharing` relates many connections to one journal,
  `Indexer` is the offline verification loop, `EndToEnd` joins everything,
  `Interrupted` does so for connections that the journal failed in mid-life,
  and `MissingResponse` is such a run.
- **Concurrency protocols**, each a step system with an invariant over all
  runs: `Admission` (connection slots), `Shutdown` (the drain), `HealthServer`
  and `ClientLease` (the capture lease). `Counting` measures how far a set of
  activities still has to go.

`Wrappers`, `Bytes`, `Ids`, `Drafts` and `Sorting` are shared vocabulary.

## How the pieces fit

Code that changes state step by step is a class whose methods are proved
against a value. `BWJWriter.Valid` ties the bytes on disk and all counters to a
journal value; each method's new value is a step of `Journal`; what the journal
promises is proved about runs of those steps. A run is any sequence of calls,
so it covers any interleaving of connections, also between the pieces of one
`WriteData`: the writer's mutex is held for one record.

A connection sees the journal through `JournalHandle`: its calls succeed up to
some point and fail from there on. `Sharing.EveryConnectionIsSeen` proves that
this is what any run looks like from any connection, by the same steps
(`Traces.AfterCall`) in which the handle's contract remembers it. A handler's contract then
speaks of its own records (`Handling.Evidence`, and `Handling.PartialEvidence`
when the journal failed), and `EndToEnd` and `Interrupted` recover exactly
those records from the files.

A connection ends for one `Lives.Cause`. `Lives.Because` says what each cause
asserts about the peer's bytes, the exchanges, the bytes sent, the errors the
socket reported and what the surroundings answered; `ReasonOf` and `NoteOf` are
the reason and the record that go with it. Every way out of the handler is
proved to have a true cause, its reason, and exactly its record, and to have
captured what follows where it should. `Endings` draws the conclusions: an
undisturbed connection answers all it could. `Honesty` states what the records
and the reason say in terms of the bytes alone, decoded from their payloads,
and that it is true.

The request grammar is a parameter: any decision that depends only on the bytes
consumed so far, with a verdict for the header block and one for the body, and
for each whether a read error at this point is lost. The
socket delivers one fixed stream in arbitrary pieces. Clocks, deadlines and
cancellation are questions with free answers, remembered in the order they were
asked, so that a contract can say which were asked and when: a shutdown or a
lifetime that was seen is seen from then on, and every cause names the last
questions before it. SHA-256 is an uninterpreted function, and the state of a
hash is the bytes fed to it.

## Where the code differs from what one might expect

- **Empty chunks.** The validator accepts an empty ndjson chunk
  (internal/config/validate.go:367), and the printer prints it as the last
  chunk. `Routes.ValidButMisread` is an accepted response that a client
  misreads, and `Rendering.ChunkedRoundTrip` shows that the client reads all of
  it if and only if no chunk is empty.
- **A refused record may stand whole on disk**, and the reader returns it. It
  does if and only if the reply that took the record's last byte also reported
  an error (`Failures.ReadBackOfARun`); `Failures.RefusedRecordIsFound` is such
  a run.
- **A fault inside a file header** makes the whole directory unreadable instead
  of showing as a truncated tail. It happens if and only if the call that ended
  the journal opened a new file and fewer than all 64 bytes of its header went
  out (`Failures.ReadBackOfARun`); `Failures.CutHeaderIsRefused` is such a run.
- **A close for a limit without a LIMIT record**
  (internal/engine/connection.go:458-463). It happens if and only if an
  accepted header block asks for the 100 Continue line and less than its length
  is left of the byte budget when it is sent: `Handling.Handler.WriteInterim`
  has the guard, `Endings.LimitWithoutRecord` the condition on the whole
  connection, `Budget.BudgetEndsInInterimUnnoted` the one on the peer's bytes
  and the limits alone, `Budget.LimitCanGoUnnoted` a connection of two bytes.
- **A write timeout without a record** at the same place:
  `Endings.TimeoutWithoutRecord` has its exact condition,
  `Endings.TimeoutCanGoUnnoted` a connection.
- **A timeout can look like a malformed request.** The library takes a line
  that a read error cuts for a whole one. `Endings.BadHeadIsHonest` says when a
  parser failure does not mean that there is no header block,
  `Endings.TimeoutCanLookMalformed` is such a connection.
- **The reason depends on how reads split**, because the read cap does not count
  what was buffered before. `Agreement.ReasonsDifferExactly` has the condition
  on the peer's stream: behind the last exchange, different numbers of buffered
  bytes let the attempt end for the header limit and as a parser failure. It
  takes a header block that is undecided after the header limit and 4096 bytes
  (`Agreement.CalmEndsAgree`); `Agreement.ReasonsCanDiffer` are two such
  connections. The exchanges never depend on it (`Endings.CalmLivesAgree`).
- **An exchange event can point past the journal.** A response byte that the
  journal refused is still counted, hashed and reported
  (internal/engine/connection.go:195-204). The indexer rejects the last event of
  a connection if and only if the journal refused a call that was to carry
  outbound data, and nothing was sent behind that exchange, and it is not that
  only the last piece was refused and stands whole on disk
  (`Interrupted.EvidenceRemains`). `MissingResponse.IndexerRejects` is such a
  run. No other check can fail (`Interrupted.OnlyLastResponsesAreMissing`).
- **A connection can be refused while there is room**, because an acceptor that
  is about to back out still holds a global slot. `Admission.RefusalCanBeSpurious`
  is such a run, `Admission.RefusalIsExact` the exact condition.

## Model

| member | source | states |
|---|---|---|
| Ids.FormatParseRoundTrip | internal/evidence/bwj.go:42-59 | parsing undoes formatting for every identifier |
| Ids.FormatIsInjective | internal/evidence/bwj.go:42-45 | two identifiers with the same text are equal, so run and connection texts are sound map keys |
| Ids.FormatSpells | internal/evidence/bwj.go:42-45 | the text of an identifier is spelled in lower-case digits, in groups of 8, 4, 4, 4 and 12 |
| Format.FileHeaderFields | internal/evidence/bwj.go:296-320 | every field of an encoded file header stands at its place: magic, version 1, length 64, creation time, run, sequence, 20 zero bytes |
| Format.RecordHeaderFields | internal/evidence/bwj.go:240-250 | every field of an encoded record header stands at its place and reads back |
| Format.RecordHeaderIsCanonical | internal/evidence/bwj.go:450-466 | a header that passes the magic and version test is the encoding of its own fields, bit for bit |
| Reader.ReadBWJFile | internal/evidence/bwj.go:410-494 | the reading loop computes the reading function, with the same errors, for every byte string |
| Reader.NextRecordIsExact | internal/evidence/bwj.go:450-490 | which check refuses a record first, by the places of its header; what a header announces is checked before what is there; otherwise it is cut short, or the record of exactly these fields |
| Reader.CutFile | internal/evidence/bwj.go:410-494 | any prefix of a well-formed file: an error below 64 bytes; from 64 bytes on no error, exactly the whole records, and the truncated flag exactly off a record boundary |
| Reader.FileRoundTrip | internal/evidence/bwj.go:410-494 | a complete file reads back as written |
| Reader.ReadWithRemnant | internal/evidence/bwj.go:437-481 | a body followed by part of one more record yields the body, plus that record when all of its bytes are there |
| Reader.ReadFileIsCanonical | internal/evidence/bwj.go:410-494 | whatever the reader accepts without a truncated tail is the encoding of what it returned; with one it starts with that encoding |
| Drafts.PiecesAreSized | internal/evidence/bwj.go:205-214 | every piece of a split payload has 1 to 65536 bytes and the call's own header fields, and all but the last are full |
| Drafts.PiecesCarryTheData | internal/evidence/bwj.go:205-214 | the pieces concatenate to the payload |
| Drafts.CloseTellsItsReason | internal/evidence/bwj.go:181-185 | a CLOSE record is well-formed, and its reason reads back from its payload |
| Drafts.ParserErrorTellsWhere | internal/evidence/bwj.go:187-192 | a parser-error record is well-formed, and its code and position read back |
| Drafts.LimitTellsWhat | internal/evidence/bwj.go:194-199 | a limit record is well-formed and flagged, and its code and observed value read back |
| Journal.ApplyKeepsInv | internal/evidence/bwj.go:218-320 | every call with any clock, rotation, short write or fault keeps numbering from 1, file sequence, size bound and "nothing half-written unless failed" |
| Journal.RecordIsPlaced | internal/evidence/bwj.go:218-281 | a call that succeeds puts its record behind those of the last file, numbered on, unless that file is too old or holds a record and has no room for one more; then alone into a new file, numbered 1, and the clock of the file starts anew |
| Journal.RefusalsAreExact | internal/evidence/bwj.go:218-320 | every way a call can fail, and that it fails in no other: reserved flags, a payload its kind does not allow, a closed or failed journal, and then sync, close, create, file header, record header or payload, whichever the disk refuses first; only the last six leave the journal failed, the others leave it unchanged |
| Writer.BWJWriter.Blank | internal/evidence/bwj.go:154-159 | the empty writer before its first file |
| Writer.BWJWriter.WriteFull | internal/evidence/bwj.go:347-361 | what reached the file is exactly the front of the data that the replies let through; success means all of it |
| Writer.BWJWriter.OpenNextLocked | internal/evidence/bwj.go:296-320 | the new directory is that of the value-level step, also when creation or the header write fails half-way |
| Writer.BWJWriter.RotateLocked | internal/evidence/bwj.go:283-294 | rotation as a value-level step, with sync and close failures leaving the old file open |
| Writer.BWJWriter.AppendLocked | internal/evidence/bwj.go:239-263 | one record on the open file, whole or cut at any byte; failure is recorded with what stands on disk |
| Writer.BWJWriter.WriteRecord | internal/evidence/bwj.go:218-264 | every outcome of a record write and the whole new disk, including refused drafts, a closed or failed writer and rotation; a record that was taken stands in the last file unless that is too old or has no room |
| Writer.BWJWriter.WriteData | internal/evidence/bwj.go:201-216 | the journal grows by a front of the pieces, by all of them exactly on success; a bad direction changes nothing |
| Writer.BWJWriter.WriteConnectionOpen | internal/evidence/bwj.go:177-179 | the value-level step, and on success one record more, which reads as the opening of this connection |
| Writer.BWJWriter.WriteConnectionClose | internal/evidence/bwj.go:181-185 | the value-level step, and on success one record more, which reads as the closing of this connection for this reason |
| Writer.BWJWriter.WriteParserError | internal/evidence/bwj.go:187-192 | the value-level step, and on success one record more, from which code and position read back |
| Writer.BWJWriter.WriteLimit | internal/evidence/bwj.go:194-199 | the value-level step, and on success one flagged record more, from which code and observed value read back |
| Writer.BWJWriter.Close | internal/evidence/bwj.go:331-345 | closing twice is closing once; it reports the earlier failure and, with a file open, what sync and close report; afterwards every write is refused |
| Writer.NewBWJWriter | internal/evidence/bwj.go:150-164 | a writer exists exactly when its first file and header stand, and then it has that one file and its counters agree; with a rotate size its journal is fresh |
| Runs.RunKeepsInv | internal/evidence/bwj.go:218-320 | the journal invariant over every run |
| Runs.RunRecordsAcknowledged | internal/evidence/bwj.go:201-264 | over any run the files hold exactly the acknowledged records, in call order |
| Runs.FailureIsSticky | internal/evidence/bwj.go:227-271 | after a failure no call changes the disk or reports success |
| Runs.ServedDiskRefusesNothing | internal/evidence/bwj.go:218-264 | while the disk serves every call, every well-formed call succeeds, whatever rotates in between |
| Runs.RemnantIsTheFailedCall | internal/evidence/bwj.go:254-261 | whatever stands half-written came from the one call that failed, and every write from it on was refused |
| Runs.ReadBack | internal/evidence/bwj.go:410-494 | reading any reachable disk: an error if and only if a new file header was cut; otherwise the acknowledged records plus the failed one if and only if it is whole, and a truncated tail on the last file if and only if it is there in part |
| Runs.DiskIsBounded | internal/evidence/bwj.go:273-281 | in every state every file is within the rotate size or holds at most one record, so none exceeds max(rotate size, 64 + 64 + 65536) |
| Rebuild.SortFilesSorts | internal/index/index.go:259-265 | the sort gives a permutation without inversions |
| Rebuild.ReadFiles | internal/index/index.go:252-258 | all files in listing order, or the first error |
| Rebuild.ReconstructStreams | internal/index/index.go:242-284 | read, sort and fold; an unreadable file stops it |
| Rebuild.FoldIsConcatenation | internal/index/index.go:266-282 | for any files, the streams under a key are the data payloads of that run's files in order, untouched by other runs and connections |
| Rebuild.SortingRestoresARun | internal/index/index.go:259-265 | whatever the listing order and the other runs' files, sorting restores one run's files in writing order |
| Rebuild.ReadAllPermuted | internal/index/index.go:252-258 | listing files in another order reads the same results in another order |
| Rebuild.JournalRoundTrip | internal/index/index.go:242-284 | for a journal in any readable reachable state, in any listing order among other runs' files, its files give back its records in order, and the rebuilt streams are the recorded payloads |
| Sharing.RefusalIsFinal | internal/evidence/bwj.go:227-271 | once one well-formed call is refused, every later call of any connection is |
| Sharing.AcknowledgedIsAFront | internal/evidence/bwj.go:218-264 | in every interleaving, what was acknowledged to a connection is a front part of what it asked for |
| Sharing.ServedIsRecorded | internal/evidence/bwj.go:218-264 | a connection all of whose calls succeeded finds exactly its calls in the journal |
| Sharing.ViewFits | internal/evidence/bwj.go:218-264 | the handle's view of its calls, folded over any sequence of calls in which refusals are final: a front of the connection's calls acknowledged, the next one its first refused, and whether one that was to carry outbound data was |
| Sharing.EveryConnectionIsSeen | internal/evidence/bwj.go:218-264 | every connection of every run of the shared writer has such a view |
| Sharing.DataIsOwn | internal/index/index.go:269-281 | other connections' records contribute nothing to a connection's streams |
| Failures.LateError | internal/evidence/bwj.go:347-361 | all bytes of a write are out although it failed, if and only if the reply that took the last byte also reported an error |
| Failures.CallLeaves | internal/evidence/bwj.go:218-320 | what one call on a living journal leaves behind, in terms of the disk's replies to it: a refused record stands whole, or a new file's header is cut, exactly under these replies |
| Failures.RunLeaves | internal/evidence/bwj.go:218-320 | the same of any run: the replies to the one call that ended the journal decide it |
| Failures.ReadBackOfARun | internal/evidence/bwj.go:410-494 | reading back any run fails if and only if the call that ended the journal had a file header cut; otherwise it gives the acknowledged records, and one more if and only if that call's last write took all its bytes and still reported an error |
| Failures.RefusedRecordIsFound | internal/evidence/bwj.go:239-256 | a run in which a refused OPEN record stands whole and the reader returns it |
| Failures.CutHeaderIsRefused | internal/evidence/bwj.go:296-320 | a run whose new file header is cut after ten bytes, so that the reader refuses the whole journal |
| Headers.CanonicalOfTokens | internal/engine/router.go:119-138 | canonical names of tokens coincide if and only if the names are equal ignoring case |
| Headers.CanonicalShape | internal/engine/router.go:112-140 | the canonical form of a token begins every word between dashes with a capital letter and has no other; anything else is left as it is |
| Headers.ValidateHeaders | internal/config/validate.go:414-436 | accepts exactly the maps with allowed names and values and no two names equal ignoring case, in any iteration order |
| Headers.MergeHeaders | internal/engine/router.go:112-140 | for validated maps: the case-insensitive union in which the response's own headers win, one canonical entry per name, every name a token and no value with a line end |
| Rendering.ResponseHeaders | internal/response/response.go:143-181 | the header lines for any plan, or the error; when names stay distinct in canonical form, the sorted lines of the framed headers whatever order the map is visited in |
| Rendering.IntendedWireSize | internal/response/response.go:191-222 | the predicted size for any plan, failing exactly when there is no rendering; when names stay distinct, the length of the full rendering |
| Rendering.ChunkedRoundTrip | internal/response/response.go:101-120 | decoding a printed chunked body per section 7.1 of RFC 9112 consumes every byte if and only if no chunk is empty, and then yields the chunk bodies |
| Rendering.EmptyChunkTruncates | internal/response/response.go:107-116 | a printed body with an empty chunk of which a client sees only the part before it |
| Rendering.ContentLengthIsBodyLength | internal/response/response.go:148-160 | a body announced by length has exactly that many bytes, also the HTTP/1.0 form of a stream |
| Rendering.FramedFields | internal/response/response.go:143-170 | the framed headers have exactly one of Content-Length and Transfer-Encoding, the latter being "chunked"; Connection exactly when it is asked for or the version is 1.0, "close" if and only if the plan closes and else "keep-alive"; and every configured header with its value |
| HeaderBlock.PrintedHeadersDecode | internal/response/response.go:84-91 | a decoder that reads the printed header lines back finds exactly the framed fields, in sorted order and nothing else, then the body; exactly one of them is named Content-Length or Transfer-Encoding in any case |
| HeaderBlock.StatusLineDecodes | internal/response/response.go:183-189 | version, status code and reason phrase read back from the printed status line |
| HeaderBlock.BodyDecodes | internal/response/response.go:93-136 | a client that finds the end of the body by the printed fields reads the whole content and nothing more, none for HEAD, 204 and 304; in a chunked body if and only if no chunk is empty |
| HeaderBlock.ResponsesDecode | internal/response/response.go:61-189 | every response a validated service chooses, over HTTP/1.0 and 1.1, as a client reads it from its bytes: version, code and phrase; the framed fields with exactly one framing field and the Connection value the close asks for; then the content, to the last byte unless a chunk is empty |
| HeaderBlock.ClientsReadWhatIsConfigured | internal/engine/router.go:29-110 | from the configuration to the client: a response that is read to its end has the configured code, and where there is content at all, the configured content of the response that its route has for this occurrence of the request, or else of the fallback |
| HeaderBlock.LineEndInAValueAddsAField | internal/config/validate.go:428-430 | why values with line ends are refused: the header line of one such value decodes to a field of its own and a Content-Length field |
| Routes.ValidateResponse | internal/config/validate.go:318-376 | accepts exactly the valid responses and returns their fixture size |
| Routes.EmptyChunkIsValid | internal/config/validate.go:361-375 | validation accepts a stream of chunks "a", "", "b" |
| Routes.ValidButMisread | internal/response/response.go:107-116 | a client reads only "a" of every chunked answer planned from that accepted response |
| Routes.ValidateFallback | internal/config/validate.go:378-402 | accepts exactly the valid fallbacks and returns their fixture size |
| Routes.SortedContiguousMeansEachOnce | internal/config/validate.go:309-314 | the sorted numbers are 1..N if and only if each of them was configured exactly once |
| Routes.ValidateRouteResponses | internal/config/validate.go:289-316 | accepts exactly the routes with valid responses, one default and each number of 1..N once, and returns their fixture size |
| Routes.RouteKeyIsInjective | internal/config/validate.go:132 | the NUL-joined key determines method and path |
| Routes.ValidateRoutes | internal/config/validate.go:117-148 | accepts exactly the lists of at most 1024 valid routes, no two sharing method and path, whose fixtures stay within 64 MiB together with those of earlier services; returns the new total |
| Routes.ValidateService | internal/config/validate.go:114-158 | accepts exactly the services with valid headers, routes and fallback within the fixture total |
| Routes.ChoiceExistsAndIsUnique | internal/engine/router.go:38-58 | in a validated route the k-th match has exactly one response: the one numbered k, or the default beyond N |
| Routes.RoutesDoNotInterfere | internal/engine/router.go:35-37 | a request to another route, or to none, changes nothing for this one |
| Routes.ResponsesComeInOrder | internal/engine/router.go:29-71 | asked again and again, a route gives its responses numbered 1, 2, 3 up to its last number, and then its default each time |
| Routes.PromiseIsDeterministic | internal/engine/router.go:29-71 | the request history determines the whole selection, headers included |
| Routes.PlanFromResponse | internal/engine/router.go:73-96 | the plan carries the response's fields, merged headers and every chunk in order |
| Routes.PlanFromFallback | internal/engine/router.go:98-110 | the plan of the service default |
| Routes.ChosenPlansRender | internal/engine/router.go:73-110 | every plan a validated service can choose has a rendering for HTTP/1.0 and 1.1 and headers that stay distinct |
| Routes.ChosenPlansAreWithinLimits | internal/config/validate.go:318-402 | what was validated holds of every chosen plan: delays of at most a day, content within the limit, and none for 204 and 304 |
| Selecting.CountersAdvance | internal/engine/router.go:35-37 | counting one match keeps every route's counter equal to the number of its matches |
| Selecting.ChooseResponse | internal/engine/router.go:40-57 | the response with this number if there is one, else the default |
| Selecting.SelectFromRoute | internal/engine/router.go:35-65 | the matched route's answer is the promised one |
| Selecting.SelectResponse | internal/engine/router.go:29-71 | every request gets the response the configuration promises after all earlier requests of the connection |
| ConnectionIO.JournalHandle.WriteData | internal/evidence/bwj.go:201-216 | a front of the pieces is acknowledged: all of them on success, else the next one is the refused call |
| ConnectionIO.JournalHandle.WriteRecord | internal/evidence/bwj.go:225-232 | a call is acknowledged or refused, and after one refusal every call is refused; the handle remembers what was acknowledged, the first refused call, and whether a refused call was to carry outbound data |
| ConnectionIO.RecordingReader.WriteLimit | internal/engine/connection.go:731-743 | exactly one limit record is added, and no stream changes |
| ConnectionIO.RecordingReader.WriteParserError | internal/engine/connection.go:390 | exactly one parser-error record is added, and no stream changes |
| ConnectionIO.RecordingReader.Read | internal/engine/connection.go:107-148 | the next stream part, journalled before it is counted, clamped by the budget and in the header phase by the read cap, for which the socket is asked in full; both refusals are exact; an error is what the socket reported or a refused record |
| ConnectionIO.RecordingReader.Record | internal/engine/connection.go:134-145 | a piece is counted if and only if it was journalled, flagged after a failure |
| ConnectionIO.BufReader.Fill | internal/engine/connection.go:327 | refilling keeps the logical position and the suffix shape; an error that came with bytes is given out behind them, before anything more is read; the socket is asked for as much as buffer, budget and read cap allow |
| ConnectionIO.BufReader.Take | internal/engine/connection.go:696-699 | the next byte taken is the byte of the peer's stream at the logical position |
| ConnectionIO.ExchangeWriter.Write | internal/engine/connection.go:179-218 | a front of the data within the budget goes out, each write under a deadline of its own; what was sent is counted, hashed, and journalled with the flags of its mode; the error says which of budget, deadline, socket and journal failed |
| ConnectionIO.ExchangeWriter.Journal | internal/engine/connection.go:195-206 | what was sent is counted also when the journal refuses it; then the journal has less than was sent, and otherwise all of it |
| Traces.InboundJournalled | internal/engine/connection.go:134-142 | one more inbound piece keeps the journalled streams equal to the bytes received, split at the first flagged byte |
| Traces.OutboundJournalled | internal/engine/connection.go:195-206 | one more outbound piece keeps the journalled stream equal to the bytes sent |
| Parsing.RequestIsDetermined | internal/engine/connection.go:345-353 | stream and starting point determine a request's header end, end and meaning |
| Parsing.ReadRequest | internal/engine/connection.go:352-353 | the header block found is the first accepted front at the logical position; otherwise every front asked for more, or the first decided one is refused, or a read error cut a line that is refused; at most the buffered bytes and the read cap are consumed, and exactly so many when the cap strikes; with a healthy journal an end of the stream is reported only when all of it was consumed |
| Parsing.HeaderCapIsExact | internal/engine/connection.go:107-124 | when the read cap interrupts the parser, no header block within any size up to what it let through starts there, whatever was buffered and however reads split |
| Parsing.FailureExcludesHeads | internal/engine/connection.go:352-395 | a failed attempt rules out every header block within what was consumed, and a malformed one, or one that consumed the whole stream, rules out any |
| Parsing.FailureExcludesBodies | internal/engine/connection.go:656-673 | a bad body, or one unfinished at the end of the stream, is never complete |
| Parsing.LongBodyStaysLong | internal/engine/connection.go:656-673 | a body refused for its size exceeds the limit wherever it might end |
| Parsing.ConsumeBody | internal/engine/connection.go:656-673 | the body is read up to the first front that is complete, bad or over the decoded limit, and not beyond; success means it is complete there and within the limit; a read error that a trailer swallows is reported as a bad trailer |
| Printer.WriteAll | internal/response/response.go:224-238 | across short writes, exactly a front part of the whole has gone out; success means all of this piece |
| Printer.WriteLines | internal/response/response.go:84-88 | the header lines in order, cut at any byte |
| Printer.WriteChunk | internal/response/response.go:107-116 | one chunk in order size line, body, line end, cut at any byte |
| Printer.WriteStream | internal/response/response.go:101-129 | the streamed body in chunked or plain form, cut at any write or wait; in full only after every configured wait |
| Printer.PrintPieces | internal/response/response.go:81-136 | the pieces are printed in the order of the rendering and complete it |
| Printer.Write | internal/response/response.go:61-141 | for any sink and any plan: a front part of the printed response with matching count, hash and flags; complete if and only if there is no error, and then all of it, after every configured wait; all of it out without being complete only when the write of the last byte still reported an error or a wait for a final empty chunk failed; nothing at all over budget |
| Handling.Handler.constructor | internal/engine/connection.go:317-328 | reader, buffer and counters start in the state between two requests |
| Handling.Handler.PostFailureCapture | internal/engine/connection.go:706-729 | everything the peer sends is captured, flagged, up to the capture's own limit: while the journal is healthy it stops short of that only at the end of the stream or of the byte budget, or for an error the socket reported during the capture; reaching its limit it leaves its record; the cause stays true |
| Handling.Handler.LimitNoted | internal/engine/connection.go:731-743 | a cause whose record is this limit may end the connection with it: the record is the next one, and the end is decided with that cause's reason; finished, unless there is something to capture |
| Handling.Handler.ParserFailed | internal/engine/connection.go:390-393 | the same for a parser-error record with code and position |
| Handling.Handler.MayGoOn | internal/engine/connection.go:330-343 | the shutdown and then the lifetime are asked for, in every turn; a shutdown or lifetime that was ever seen ends the connection here |
| Handling.Handler.ReceiveHead | internal/engine/connection.go:330-437 | either the connection is finished for a cause that is true of it, or a header block that passes every check was received; nothing is read before the shutdown and the lifetime were asked for |
| Handling.Handler.JudgeHead | internal/engine/connection.go:353-437 | every outcome of the parser ends the connection for a true cause, except an accepted header block that passes every check |
| Handling.Handler.CheckHead | internal/engine/connection.go:397-441 | goes on exactly with a header block within the limit, of a supported version and expectation; otherwise the cause says which check failed, and a size refusal that no smaller header block starts there |
| Handling.Handler.HeadFailed | internal/engine/connection.go:354-395 | remote close, idle and header timeout, lifetime, header limit, byte budget, parser failure: each ends the connection for a cause that the stream, what was buffered, the read cap and the surroundings bear out, with the size or position reported |
| Handling.Handler.HeadTimedOut | internal/engine/connection.go:359-373 | the lifetime is asked for; if it is over it is the lifetime, else the header timeout if and only if a byte of the header block had arrived, with their number, and the idle timeout if none had |
| Handling.Handler.HeadRefused | internal/engine/connection.go:384-395 | with the byte budget exhausted it is the connection limit, otherwise a parser failure at the logical position, for a refused block, a lost peer, or a line that a timeout or the read cap cut and the library refuses |
| Handling.Handler.SendInterim | internal/engine/connection.go:442-464 | too large a declared body or no room for the interim line ends the connection with its record; otherwise the interim line is out where it was wanted |
| Handling.Handler.WriteInterim | internal/engine/connection.go:458-463 | the interim line goes out whole, or a front of it does and the connection ends without any record: for the limit only if less than its length was left of the byte budget, which never goes on; for a write timeout only if the socket reported one |
| Handling.Handler.ReceiveBody | internal/engine/connection.go:465-505 | goes on only with a whole request between the previous one and the logical position, within every limit; otherwise finished for a true cause |
| Handling.Handler.BodyFailed | internal/engine/connection.go:473-497 | body timeout, lifetime, body limit, byte budget or parser failure, each true of the bytes, the first excess or bad byte or the end of what came; the position counts no byte that was only looked at |
| Handling.Handler.BodyTimedOut | internal/engine/connection.go:474-481 | the lifetime is asked for; if it is over it is the lifetime, else the body timeout with the decoded bytes that had come |
| Handling.Handler.CheckTrailer | internal/engine/connection.go:498-505 | a trailer over the header limit ends the connection with a header-limit record of its own size |
| Handling.Handler.AddRequest | internal/engine/connection.go:506-510 | the request is counted, and noted exactly if it is the last one allowed |
| Handling.Handler.CountRequest | internal/engine/connection.go:506-516 | the request count and the close decision; the lifetime is asked for and may end the connection |
| Handling.Handler.ChooseAnswer | internal/engine/connection.go:518-526 | the promised response is chosen; it is answered unless it would be a successful CONNECT |
| Handling.Handler.PrintAnswer | internal/engine/connection.go:527-542 | the response is printed with the flag of its mode, within what is left of the response limit; complete only after its waits; the stream deadline and the shutdown are asked for behind it |
| Handling.Handler.Answer | internal/engine/connection.go:527-604 | appends one exchange whose ranges start where the last ones ended and end where the streams now stand, right about its bytes, and complete exactly when printing reported no error |
| Handling.Handler.Conclude | internal/engine/connection.go:606-651 | the connection goes on exactly after a complete answer that neither side made the last; otherwise it is finished for a true cause |
| Handling.Handler.AnswerFailed | internal/engine/connection.go:606-642 | response limit, stream deadline or lifetime, cancellation, write timeout, byte budget or broken writing, in the code's order, each true of the last exchange |
| Handling.Handler.StreamFailed | internal/engine/connection.go:612-619 | a struck stream deadline is the lifetime if that is over, and else the stream limit |
| Handling.Handler.Respond | internal/engine/connection.go:527-651 | after an answer the connection is finished for a true cause or stands between two requests again |
| Handling.Handler.ServeOne | internal/engine/connection.go:330-651 | one turn of the loop: finished for a true cause, or between two requests with one more request counted; it begins with a look at the shutdown and the lifetime, and if either is seen, or was before, nothing is read, sent or counted; going on, all six questions of the turn were asked in order |
| Handling.Handler.Handshake | internal/engine/connection.go:279-315 | with TLS, the lifetime is asked for before the handshake, and again when it fails; each outcome ends the connection with its reason |
| Handling.Handler.Serve | internal/engine/connection.go:279-651 | the loop ends, after at most the allowed number of requests, finished for a true cause, and having looked at shutdown and lifetime at least once for every request |
| Handling.AnswerIsOk | internal/engine/connection.go:527-604 | the new exchange's ranges hold exactly the request parsed and the interim line and rendering sent for it, its digest is theirs, and the earlier exchanges stay right |
| Handling.HandleConnection | internal/engine/connection.go:226-652 | the whole connection: exchanges right, chained and within every limit; one cause, true of the streams, the exchanges and the answers of the surroundings; its reason; what follows captured where it should be; while the journal is healthy, exactly its records besides the two streams, and every byte sent flagged as its exchange asks; and in any state fronts of both streams with every request and every response but the last one's, the journal lacking sent bytes exactly if it refused a call that was to carry them |
| Lives.BecauseOutlivesCapture | internal/engine/connection.go:706-729 | what is captured past a failure makes no cause untrue |
| Exchanges.ExchangesTile | internal/engine/connection.go:573-604 | requests tile the inbound stream and responses the outbound stream from byte 0, without gap or overlap |
| Exchanges.OnlyTheLastCloses | internal/engine/connection.go:506-510 | at most the allowed number of exchanges, only the last one announces the close, and the last one allowed does |
| Exchanges.FragmentationIsInvisible | internal/engine/connection.go:345-353 | for a fixed peer stream, any two lives of a connection, disturbed or not, agree on every exchange both reached, however the socket split its reads |
| Exchanges.PrintedIsRendered | internal/engine/connection.go:527-604 | behind the interim line, a complete response is the rendering of its plan |
| Exchanges.ResponsesAreDetermined | internal/engine/connection.go:519-542 | complete responses at the same place in the stream are the same bytes |
| Exchanges.RecordsOfAConnection | internal/engine/connection.go:244-265 | OPEN, then data, parser errors and limits, then CLOSE; the flagged inbound bytes are a suffix of those received, outside every exchange; each byte sent is flagged as its exchange asks |
| Exchanges.ResponsesAreFlagged | internal/engine/connection.go:190-207 | a response is recorded as a stream, from its first to its last byte, if and only if its plan streams, and the interim line before it never is |
| Endings.LimitIsRecorded | internal/engine/connection.go:731-743 | a close for a limit has a limit record unless its cause is the cut interim line |
| Endings.LimitWithoutRecord | internal/engine/connection.go:458-463 | a close for a limit has no limit record if and only if an accepted header block asked for the interim line and what was sent behind the last response is an unfinished interim line at the end of the byte budget; given that no lifetime ran out and no write fell short without an error |
| Budget.BudgetEndsInInterimUnnoted | internal/engine/connection.go:442-464 | the condition before the call: if behind any complete exchanges a header block asks for the interim line and the byte budget ends inside it, but not before the responses do however far was read ahead, then every undisturbed connection answers exactly those requests, closes for the limit and notes nothing |
| Budget.LimitCanGoUnnoted | internal/engine/connection.go:458-463 | such a connection under a valid configuration: one byte received, one byte of the interim line sent, no record |
| Endings.TimeoutWithoutRecord | internal/engine/connection.go:458-463 | a write timeout has its record if and only if it struck a response; the interim line's has none, exactly when every exchange so far left the connection open |
| Endings.TimeoutCanGoUnnoted | internal/engine/connection.go:458-463 | a connection under a valid configuration whose interim line runs into the write deadline: no record |
| Endings.IdleMeansNothingCame | internal/engine/connection.go:359-373 | a connection that closes for a timeout at a header block closes as idle if and only if not a byte of that block came; its lifetime was not over when it was asked for, last of all |
| Endings.IdleIsNoted | internal/engine/connection.go:359-373 | and its first record says so: the idle timeout with 0, or the header timeout with the number of bytes |
| Endings.CaptureTakesAll | internal/engine/connection.go:706-729 | unless the socket reports an error, the capture behind a failure takes exactly all that the peer sends, up to its own limit and the byte budget |
| Endings.BadHeadIsHonest | internal/engine/connection.go:384-395 | a parser failure at a header block means that none starts there, unless socket or journal failed, or a timeout or the read cap cut a line that is refused; without a timeout none within the limit starts there |
| Endings.TimeoutCanLookMalformed | internal/engine/connection.go:359-395 | a connection that closes as a parser failure because of a timeout between the two bytes of an acceptable header block |
| Endings.HeaderLimitIsHonest | internal/engine/connection.go:377-403 | a header-limit record means that no header block within the limit starts behind the last exchange, or that a body was followed by a trailer over the limit |
| Endings.NoRequestFollows | internal/engine/connection.go:330-505 | when nothing disturbs a connection and it ends at a request, no acceptable request starts there |
| Endings.CalmIsMaximal | internal/engine/connection.go:330-651 | the exchanges of an undisturbed connection are all there could be: any other right account of the peer's stream is a front of them |
| Endings.CalmLivesAgree | internal/engine/connection.go:345-353 | two undisturbed connections with the same peer have the same number of exchanges, the same requests and choices, the same bytes sent for each, the same digests |
| Endings.CalmReasons | internal/engine/connection.go:354-357 | an undisturbed connection closes as left by the peer if and only if its exchanges cover the peer's stream and none was the last allowed or asked for; normally if and only if the last one was asked to be and was not the last allowed |
| Endings.RemoteMeansAll | internal/engine/connection.go:354-357 | a healthy connection closed as left by the peer answered every byte the peer sent, and sent nothing else |
| Honesty.RecordsAreTrue | internal/engine/connection.go:354-651 | everything the limit and parser-error records of a connection say, decoded from their payloads, is true of its streams, its exchanges and what was asked: the limit that was passed and by what, the bytes that had come, the place where the parser failed |
| Honesty.ReasonsAreTrue | internal/engine/connection.go:237-651 | and so is the close reason, by its code |
| Agreement.CalmStops | internal/engine/connection.go:330-651 | an undisturbed connection stops where its cause says, by the peer's stream alone: the first decided front of a header block or body, what was buffered and the read cap |
| Agreement.StopsOnce | internal/engine/connection.go:352-526 | at one place of a stream at most one reason and record apply, unless the parser is undecided past the read cap |
| Agreement.CalmEndsAgree | internal/engine/connection.go:107-124 | two undisturbed connections with the same peer end for the same reason with the same record, unless the header block behind the last exchange is undecided after 4096 bytes more than the header limit |
| Agreement.ReasonsDifferExactly | internal/engine/connection.go:107-124 | given room in the byte budget, the reasons of such connections can differ if and only if the stream leaves both a header limit and a parser failure open for numbers of buffered bytes that are possible there |
| Agreement.ReasonsCanDiffer | internal/engine/connection.go:377-395 | two such connections under a valid configuration, behind the same first exchange: nothing buffered, header limit; one byte buffered, parser failure |
| Indexer.SliceDigest | internal/index/index.go:166-172 | a digest exists if and only if the range lies in the stream, and is the digest of that range |
| Indexer.CheckEvent | internal/index/index.go:136-151 | succeeds if and only if the event's ranges exist and its digest matches; otherwise says which check failed first |
| Indexer.VerifyExchanges | internal/index/index.go:132-162 | succeeds if and only if every event holds; otherwise names the first that does not; rows carry the request digests and the connections table is completed from first events |
| Indexer.IndexRun | internal/index/index.go:116-163 | the whole run: a journal error if and only if a listed file is unreadable, else the verdict on the rebuilt streams, naming the first event that does not hold and what is wrong with it |
| EndToEnd.FailedRecordIsForeign | internal/evidence/bwj.go:254-261 | a record left by a failed write never belongs to a connection that was served in full |
| EndToEnd.ServedStreamsSurvive | internal/evidence/bwj.go:201-264 | the streams a reader recovers for a fully served connection are its own calls' data, even if the journal failed later |
| EndToEnd.ServedRecordsSurvive | internal/index/index.go:242-284 | the records a reader recovers for a fully served connection are its own calls, in order |
| EndToEnd.RebuiltSupports | internal/index/index.go:132-151 | rebuilt streams equal to a connection's records support every one of its events |
| EndToEnd.AlteredBytesAreFound | internal/index/index.go:112-158 | whatever is in the index, the event of an exchange holds if and only if its request is all there and its response is there byte for byte as it was sent, as far as no two byte strings share a digest |
| EndToEnd.EvidenceSurvives | internal/engine/connection.go:573-604 | any interleaving, rotations, later journal failure, listing order and foreign files: a fully served connection gets back exactly its two streams, and its events' ranges hold the request parsed and the bytes sent |
| EndToEnd.EndIsTold | internal/engine/connection.go:244-265 | read back from the files of the run, in any listing order among others, a fully served connection was opened first and closed last, for the reason it reported, and nothing else opened or closed it |
| EndToEnd.HealthyRunIsReadable | internal/index/index.go:252-258 | a run in which every write succeeded leaves only readable files |
| EndToEnd.IndexingNeverFails | internal/index/index.go:132-151 | when every journal write of a run succeeds, the indexer's range and digest checks hold for every exchange event of every connection |
| Interrupted.RemnantIsFirstRefused | internal/evidence/bwj.go:239-263 | a record left behind by a run belongs to the first call of the run that was refused |
| Interrupted.RecoveredExactly | internal/evidence/bwj.go:201-264 | what a reader recovers for any connection is what was acknowledged to it, followed by its first refused call if and only if that call ended the journal and lost nothing but its acknowledgement |
| Interrupted.WitnessedRemains | internal/engine/connection.go:195-206 | so it is fronts of what the connection received and sent, with every request and every response but the last one's in them; the last one is there if and only if no call that was to carry outbound data was refused, or something was sent behind it, or the refused piece was the last one and stands whole |
| Interrupted.RemainsSupport | internal/index/index.go:132-151 | on such remains an event holds if and only if its response is all there; a missing response range is the only fault |
| Interrupted.EvidenceRemains | internal/engine/connection.go:573-604 | for any run, failed or not, whose files can be read, and any connection of it: fronts of its streams; every event but the last one holds, and the last one fails if and only if some of its response was lost to a refused outbound call |
| Interrupted.OnlyLastResponsesAreMissing | internal/index/index.go:132-151 | over a whole run the indexer can only ever report a missing response range, only for the last exchange of a connection, and only where a call that was to carry it was refused; never a request range, never a digest mismatch |
| MissingResponse.TheLife | internal/engine/connection.go:195-204 | a handler may live so under a valid configuration: it sent one byte of a response, the journal refused it, and the exchange is reported with it |
| MissingResponse.IndexerRejects | internal/index/index.go:142-145 | the run of that connection's calls leaves a readable journal, and the indexer reports a missing response range for its event |
| Admission.StepKeepsInv | internal/engine/listener.go:75-105 | every single channel operation keeps tokens equal to the connections that hold them |
| Admission.GlobalSlotsAddUp | internal/engine/listener.go:75-105 | in every reachable state, global slots are the sum of service slots plus the connections between their two operations |
| Admission.CeilingsHold | internal/engine/listener.go:92-105 | no ceiling is ever exceeded, in total or for a service |
| Admission.ReleasingNeverBlocks | internal/engine/listener.go:82-86 | giving a slot back is possible in every reachable state |
| Admission.QuietServerHoldsNothing | internal/engine/listener.go:75-88 | when every connection is refused or done, no slot is held |
| Admission.RefusalIsExact | internal/engine/listener.go:92-105 | the exact condition of a refusal at each of the two attempts |
| Admission.RefusalCanBeSpurious | internal/engine/listener.go:98-103 | a run in which a service with room refuses although the total is not running |
| Shutdown.StepKeepsInv | internal/engine/engine.go:156-168 | every step of the main routine, acceptors and handlers keeps the invariant |
| Shutdown.ConnectionsArrive | internal/engine/listener.go:59-105 | in every reachable state an acceptor that still listens can take a new connection, give it a handler, and go on |
| Shutdown.RequestsAreServed | internal/engine/connection.go:226-343 | before the cancel a handler can come to its first request, registered and with its OPEN record, and from each to the next |
| Shutdown.NoHandlerIsMissed | internal/engine/engine.go:158-161 | after the snapshot, every live handler's socket is closed or due to be closed, or it will see the cancelled context, or it is already closing |
| Shutdown.NothingServedLate | internal/engine/connection.go:330-337 | over any run, no handler starts a request after the cancel |
| Shutdown.JournalClosesLast | internal/engine/engine.go:161-168 | when the journal is closed every handler and acceptor has left |
| Shutdown.EveryOpenIsClosed | internal/engine/connection.go:241-265 | by then every OPEN record has its CLOSE record, once and in order |
| Shutdown.RecordsFindTheJournalOpen | internal/engine/engine.go:161-168 | no handler ever writes to a closed journal |
| Shutdown.WaitGroupIsSound | internal/engine/listener.go:59-89 | the wait group never goes negative and is raised only while above zero |
| Shutdown.StepsComeCloser | internal/engine/engine.go:156-168 | once the run is cancelled, every step of anyone brings the end closer |
| Shutdown.ShutdownCompletes | internal/engine/engine.go:156-168 | from any state past the cancel some step that needs no peer brings the end closer, until the journal is closed |
| HealthServer.EveryReadyLeaseIsRevoked | internal/capture/health.go:65-121 | after Close took the lock, a connection sent READY is closed, in the snapshot, or held by a handler that will not register it |
| HealthServer.StepKeepsInv | internal/capture/health.go:65-121 | every step of handlers and Close keeps the lease invariant |
| HealthServer.LeaseIsGiven | internal/capture/health.go:65-101 | while the server is open and not cancelled, a connection that asks well is sent READY, registered and watched |
| HealthServer.LeaseIsKept | internal/capture/health.go:65-101 | a lease ends only for a closed socket, a peer that went away, or one that sent something after the cancel |
| HealthServer.SocketsStayOpen | internal/capture/health.go:103-120 | over any run, while the server is open no watched connection has its socket closed |
| HealthServer.StepsComeCloser | internal/capture/health.go:65-121 | after Close took the lock only a new connection adds work, and every step of the server removes some |
| HealthServer.NothingRegistersLate | internal/capture/health.go:82-88 | over any run, nothing is registered after Close took the lock |
| HealthServer.CloseDrains | internal/capture/health.go:65-121 | until everything is closed the server has a step of its own that brings that closer |
| ClientLease.LostClosesOnce | internal/capture/health.go:172-198 | over all runs the lost channel is closed at most once, and whoever returns leaves it and the connection closed |
| ClientLease.LostHasAReason | internal/capture/health.go:172-198 | over any run, the lost channel is closed only after the peer went away, the context was cancelled, or Close was called |
| ClientLease.StepKeepsInv | internal/capture/health.go:172-198 | every step keeps the once and its two actions consistent |
| ClientLease.RevocationArrives | internal/capture/health.go:172-187 | once the capture side is gone or the context cancelled, the lost channel is closed or some caller has a step towards it |

## Left out

- Real files, fsync, directory probes and free-space checks: a file is an append-only byte sequence whose replies may be short or faulty.
- Clocks, deadlines and timers: questions with free answers, so every outcome they can cause is covered and none is predicted; what was asked and answered is remembered and must be the cause when a close claims it. The seconds that a lifetime record reports are any number.
- Setting the read deadline of a header block or a body and drawing a request's identifier are one kind of question, whether it failed; the identifier itself is a given value.
- `http.ReadRequest` and body decoding: a grammar parameter that decides on consumed bytes, and on whether a read error there is lost. A read error is taken to stay: where the library accepts a cut line and asks once more, it gets the same error. That a chunk's end may be looked at together with the byte that exceeds the body limit is not modelled.
- TLS records and certificates: the transport is a byte stream, and a handshake either ends or fails.
- SHA-256 and random identifiers: an uninterpreted function and given 16-byte values; two connections with the same identifier are not considered.
- JSON events, header and query sanitizing, JSONL files, SQLite, YAML decoding and plain numeric range checks; of the connections table only the rows completed from exchange events.
- Listener addresses, service identities and variants in the validator.
- int64 overflow of byte counts near 2^63, and journals of 2^64 or more files.
- Chunk extensions and trailer fields in the decoder, folded header lines in the header decoder; the printer sends none of them.
- The bytes of a plan whose header names collide in canonical form: validation rules such plans out, and the printed value would depend on map order. The printer's contract covers them except for what exactly is printed.
- dumpcap supervision, command line, scripts, unit files and packet filters.
- Writer.NewBWJWriter: for a rotate size of zero, which the constructor accepts and configuration refuses (internal/config/validate.go:222), the first file is promised but not the invariant of the runs behind it, because the number of records in a file would then have no bound but the 64-bit counter.
- Agreement.ReasonsDifferExactly: the connections it builds satisfy everything that is proved of the handler, with any number of buffered bytes up to 4095 behind an exchange; the reads that would bring so many along are not built.
- ConnectionIO.Socket.Read: never returns nothing without an error, as network connections promise.
- ConnectionIO.JournalHandle.WriteData: does not say which calls of other connections fall between the pieces; `Sharing` does, over whole runs.
- Endings.LimitWithoutRecord: speaks of connections whose lifetime did not run out and whose socket did not fall short without an error; a lifetime can run out in the very state in which the interim line would not fit.
- Shutdown.ShutdownCompletes: a handler in a request is taken to come back once its socket is closed, and a handshake to end by its own deadline.
