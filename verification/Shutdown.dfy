/** The shutdown sequence as a step system: the main routine closes the
    listeners, cancels, snapshots and closes the active sockets, waits, and
    closes the journal, while acceptors and handlers take their own steps in
    any order (Run, registerConnection, unregisterConnection and
    closeActiveConnections, internal/engine/engine.go; the frame of
    handleConnection, internal/engine/connection.go; acceptLoop,
    internal/engine/listener.go). */
module Shutdown {
  import opened Counting

  datatype Main =
    | Serving
    | ClosingListeners
    | Cancelled
    | ClosingSockets(pending: set<nat>)
    | Draining
    | JournalClosed

  datatype Acceptor = Accepting | Holding(conn: nat) | Left

  datatype Handler =
    | Started        // spawned, nothing done yet
    | Registered     // in the active set, OPEN record next
    | Handshaking    // TLS, which watches the context; nothing to do for plain HTTP
    | Checking       // about to look at the context
    | InRequest      // past the check: reading, writing or capturing on its socket
    | Closing        // CLOSE record next
    | Recorded       // CLOSE record written, socket next
    | SocketClosed   // leaves the active set next
    | Unregistered   // wait group next
    | Gone
    | Abandoned      // no identifier could be drawn: socket closed, wait group next
    | Dropped

  datatype Record = Opening(conn: nat) | Ending(conn: nat)

  /** `known`: every connection ever accepted. `shut`: those whose socket is closed. */
  datatype State = State(main: Main, cancelled: bool, listening: set<nat>, acceptors: map<nat, Acceptor>,
                         handlers: map<nat, Handler>, active: set<nat>, known: set<nat>, shut: set<nat>,
                         records: seq<Record>, waitGroup: int)

  /** What a handler does next. */
  datatype Action =
    | NoIdentifier
    | Register
    | WriteOpen(ok: bool)
    | HandshakeEnds(ok: bool)
    | Check
    | NextRequest
    | RequestFails
    | NoticeShut
    | WriteClose
    | CloseOwnSocket
    | Unregister
    | Finish

  datatype Step =
    // the main routine
    | BeginShutdown
    | CloseListener(acceptor: nat)
    | CancelRun
    | Snapshot
    | CloseSocket(conn: nat)
    | SocketsDone
    | WaitReturns
    | ParentCancels
    // acceptors
    | Accept(acceptor: nat, conn: nat)
    | Refuse(acceptor: nat)
    | Spawn(acceptor: nat)
    | AcceptFails(acceptor: nat)
    // handlers
    | Handle(conn: nat, action: Action)

  predicate At(s: State, conn: nat, phase: Handler) {
    conn in s.handlers && s.handlers[conn] == phase
  }

  predicate Holds(s: State, acceptor: nat) {
    acceptor in s.acceptors && s.acceptors[acceptor].Holding?
  }

  /** A handler in a request comes back on its own only when its socket was closed. */
  predicate May(phase: Handler, action: Action, socketShut: bool) {
    match action
    case NoIdentifier => phase == Started
    case Register => phase == Started
    case WriteOpen(_) => phase == Registered
    case HandshakeEnds(_) => phase == Handshaking
    case Check => phase == Checking
    case NextRequest => phase == InRequest
    case RequestFails => phase == InRequest
    case NoticeShut => phase == InRequest && socketShut
    case WriteClose => phase == Closing
    case CloseOwnSocket => phase == Recorded
    case Unregister => phase == SocketClosed
    case Finish => phase == Unregistered || phase == Abandoned
  }

  function After(phase: Handler, action: Action, cancelled: bool): Handler {
    match action
    case NoIdentifier => Abandoned
    case Register => Registered
    case WriteOpen(ok) => if ok then Handshaking else Closing
    case HandshakeEnds(ok) => if ok then Checking else Closing
    case Check => if cancelled then Closing else InRequest
    case NextRequest => Checking
    case RequestFails => Closing
    case NoticeShut => Closing
    case WriteClose => Recorded
    case CloseOwnSocket => SocketClosed
    case Unregister => Unregistered
    case Finish => if phase == Abandoned then Dropped else Gone
  }

  /** What the action asks the journal to record. */
  function Written(conn: nat, action: Action): seq<Record> {
    if action.WriteOpen? then [Opening(conn)] else if action.WriteClose? then [Ending(conn)] else []
  }

  predicate Enabled(s: State, step: Step) {
    match step
    case BeginShutdown => s.main.Serving?
    case CloseListener(a) => s.main.ClosingListeners? && a in s.listening
    case CancelRun => s.main.ClosingListeners? && s.listening == {}
    case Snapshot => s.main.Cancelled?
    case CloseSocket(c) => s.main.ClosingSockets? && c in s.main.pending
    case SocketsDone => s.main == ClosingSockets({})
    case WaitReturns => s.main.Draining? && s.waitGroup == 0
    case ParentCancels => !s.cancelled
    case Accept(a, c) => a in s.acceptors && s.acceptors[a].Accepting? && a in s.listening && c !in s.known
    case Refuse(a) => Holds(s, a)
    case Spawn(a) => Holds(s, a)
    case AcceptFails(a) => a in s.acceptors && s.acceptors[a].Accepting?
    case Handle(c, action) => c in s.handlers && May(s.handlers[c], action, c in s.shut)
  }

  function MoveAcceptor(s: State, acceptor: nat, phase: Acceptor): State {
    s.(acceptors := s.acceptors[acceptor := phase])
  }

  function Act(s: State, c: nat, action: Action): State
    requires c in s.handlers
  {
    State(s.main, s.cancelled, s.listening, s.acceptors,
          s.handlers[c := After(s.handlers[c], action, s.cancelled)],
          if action.Register? then s.active + {c} else if action.Unregister? then s.active - {c} else s.active,
          s.known,
          if action.NoIdentifier? || action.CloseOwnSocket? then s.shut + {c} else s.shut,
          s.records + Written(c, action),
          if action.Finish? then s.waitGroup - 1 else s.waitGroup)
  }

  function Next(s: State, step: Step): State
    requires Enabled(s, step)
  {
    match step
    case BeginShutdown => s.(main := ClosingListeners)
    case CloseListener(a) => s.(listening := s.listening - {a})
    case CancelRun => s.(main := Cancelled, cancelled := true)
    case Snapshot => s.(main := ClosingSockets(s.active))
    case CloseSocket(c) => s.(main := ClosingSockets(s.main.pending - {c}), shut := s.shut + {c})
    case SocketsDone => s.(main := Draining)
    case WaitReturns => s.(main := JournalClosed)
    case ParentCancels => s.(cancelled := true)
    case Accept(a, c) => MoveAcceptor(s, a, Holding(c)).(known := s.known + {c})
    case Refuse(a) => MoveAcceptor(s, a, Accepting).(shut := s.shut + {s.acceptors[a].conn})
    case Spawn(a) =>
      MoveAcceptor(s, a, Accepting).(handlers := s.handlers[s.acceptors[a].conn := Started], waitGroup := s.waitGroup + 1)
    case AcceptFails(a) => MoveAcceptor(s, a, Left).(waitGroup := s.waitGroup - 1)
    case Handle(c, action) => Act(s, c, action)
  }

  /** The server once its acceptors run: the wait group counts them. */
  ghost predicate Initial(s: State) {
    && s.main.Serving? && !s.cancelled
    && s.listening == s.acceptors.Keys && s.waitGroup == |s.acceptors|
    && (forall a | a in s.acceptors :: s.acceptors[a].Accepting?)
    && s.handlers == map[] && s.active == {} && s.known == {} && s.shut == {} && s.records == []
  }

  ghost predicate IsRun(steps: seq<Step>, states: seq<State>) {
    && |states| == |steps| + 1 && Initial(states[0])
    && forall i | 0 <= i < |steps| :: Enabled(states[i], steps[i]) && states[i + 1] == Next(states[i], steps[i])
  }

  // ---------- the invariant ----------

  predicate Finished(phase: Handler) {
    phase.Gone? || phase.Dropped?
  }

  predicate InActiveSet(phase: Handler) {
    phase in {Registered, Handshaking, Checking, InRequest, Closing, Recorded, SocketClosed}
  }

  function RecordsOf(records: seq<Record>, conn: nat): seq<Record> {
    if records == [] then []
    else RecordsOf(records[..|records| - 1], conn)
         + if records[|records| - 1].conn == conn then [records[|records| - 1]] else []
  }

  /** What a handler in this phase has asked the journal to record. */
  function Story(conn: nat, phase: Handler): seq<Record> {
    if phase in {Started, Registered, Abandoned, Dropped} then []
    else if phase in {Recorded, SocketClosed, Unregistered, Gone} then [Opening(conn), Ending(conn)]
    else [Opening(conn)]
  }

  predicate PastSnapshot(m: Main) {
    m.ClosingSockets? || m.Draining? || m.JournalClosed?
  }

  predicate PastCancel(m: Main) {
    m.Cancelled? || PastSnapshot(m)
  }

  predicate ClosedOrDue(s: State, conn: nat) {
    conn in s.shut || (s.main.ClosingSockets? && conn in s.main.pending)
  }

  ghost predicate HandlerInv(s: State, c: nat) {
    && (c in s.active <==> c in s.handlers && InActiveSet(s.handlers[c]))
    && (c in s.handlers ==> c in s.known)
    && RecordsOf(s.records, c) == (if c in s.handlers then Story(c, s.handlers[c]) else [])
    && (PastSnapshot(s.main) && At(s, c, InRequest) ==> ClosedOrDue(s, c))
  }

  ghost predicate AcceptorInv(s: State, a: nat) {
    && (a in s.listening ==> a in s.acceptors)
    && (Holds(s, a) ==>
          && s.acceptors[a].conn in s.known && s.acceptors[a].conn !in s.handlers
          && forall b | Holds(s, b) && b != a :: s.acceptors[b].conn != s.acceptors[a].conn)
  }

  ghost function LiveAcceptors(s: State): set<nat> {
    set a | a in s.acceptors && !s.acceptors[a].Left?
  }

  ghost function LiveHandlers(s: State): set<nat> {
    set c | c in s.handlers && !Finished(s.handlers[c])
  }

  ghost predicate MainInv(s: State) {
    && (PastCancel(s.main) ==> s.cancelled && s.listening == {})
    && s.waitGroup == |LiveAcceptors(s)| + |LiveHandlers(s)|
    && (s.main.JournalClosed? ==> s.waitGroup == 0)
  }

  ghost predicate Inv(s: State) {
    && MainInv(s)
    && (forall c :: HandlerInv(s, c))
    && (forall a :: AcceptorInv(s, a))
  }

  lemma RecordsGrow(records: seq<Record>, c: nat, action: Action, conn: nat)
    ensures RecordsOf(records + Written(c, action), conn)
            == RecordsOf(records, conn) + if c == conn then Written(c, action) else []
  {
    var written := Written(c, action);
    if written == [] {
      assert records + written == records;
    } else {
      assert (records + written)[..|records + written| - 1] == records;
    }
  }

  lemma OwnHandlerKept(s: State, c: nat, action: Action)
    requires HandlerInv(s, c) && Enabled(s, Handle(c, action)) && (PastSnapshot(s.main) ==> s.cancelled)
    ensures HandlerInv(Act(s, c, action), c)
  {
    hide RecordsOf;
    RecordsGrow(s.records, c, action, c);
  }

  lemma OtherHandlerKept(s: State, c: nat, action: Action, other: nat)
    requires HandlerInv(s, other) && Enabled(s, Handle(c, action)) && other != c
    ensures HandlerInv(Act(s, c, action), other)
  {
    hide RecordsOf, Written, Story, InActiveSet, After, May;
    RecordsGrow(s.records, c, action, other);
    assert RecordsOf(s.records, other) + [] == RecordsOf(s.records, other);
  }

  /** Steps of the main routine and the acceptors. */
  lemma HandlerSeesOthers(s: State, step: Step, c: nat)
    requires Inv(s) && Enabled(s, step) && !step.Handle?
    ensures HandlerInv(Next(s, step), c)
  {
    hide RecordsOf, MainInv, Act;
    assert HandlerInv(s, c);
    if step.Spawn? {
      assert AcceptorInv(s, step.acceptor);
      assert HandlerInv(s, s.acceptors[step.acceptor].conn);
    }
  }

  lemma HandlersKept(s: State, step: Step)
    requires Inv(s) && Enabled(s, step)
    ensures forall c :: HandlerInv(Next(s, step), c)
  {
    hide HandlerInv, AcceptorInv, Act;
    forall c
      ensures HandlerInv(Next(s, step), c)
    {
      assert HandlerInv(s, c);
      if !step.Handle? {
        HandlerSeesOthers(s, step, c);
      } else if step.conn == c {
        OwnHandlerKept(s, c, step.action);
      } else {
        OtherHandlerKept(s, step.conn, step.action, c);
      }
    }
  }

  /** No two acceptors hold the same connection, and none holds one that has a handler. */
  lemma AcceptorsKept(s: State, step: Step)
    requires Inv(s) && Enabled(s, step)
    ensures forall a :: AcceptorInv(Next(s, step), a)
  {
    hide RecordsOf, MainInv, After, May, Written;
    var next := Next(s, step);
    forall a
      ensures AcceptorInv(next, a)
    {
      assert AcceptorInv(s, a);
      if step.Accept? {
        assert HandlerInv(s, step.conn);
        assert forall b | Holds(next, b) && b != step.acceptor :: Holds(s, b) && AcceptorInv(s, b);
      } else if step.Spawn? || step.Refuse? || step.AcceptFails? {
        assert AcceptorInv(s, step.acceptor);
        assert forall b | Holds(next, b) :: Holds(s, b) && b != step.acceptor;
      } else {
        assert next.handlers.Keys == s.handlers.Keys;
        assert forall b :: Holds(next, b) <==> Holds(s, b);
      }
    }
  }

  lemma LiveIsCounted(s: State)
    requires MainInv(s)
    ensures forall a | a in s.acceptors && !s.acceptors[a].Left? :: s.waitGroup > 0
    ensures forall c | c in s.handlers && !Finished(s.handlers[c]) :: s.waitGroup > 0
  {
    forall a | a in s.acceptors && !s.acceptors[a].Left?
      ensures s.waitGroup > 0
    {
      assert a in LiveAcceptors(s);
    }
    forall c | c in s.handlers && !Finished(s.handlers[c])
      ensures s.waitGroup > 0
    {
      assert c in LiveHandlers(s);
    }
  }

  lemma AcceptorsCounted(s: State, step: Step)
    requires Enabled(s, step)
    ensures |LiveAcceptors(Next(s, step))| == |LiveAcceptors(s)| - if step.AcceptFails? then 1 else 0
  {
    var next := Next(s, step);
    if step.Accept? || step.Refuse? || step.Spawn? || step.AcceptFails? {
      OneMember(LiveAcceptors(s), LiveAcceptors(next), step.acceptor);
    } else {
      assert LiveAcceptors(s) == LiveAcceptors(next);
    }
  }

  lemma HandlersCounted(s: State, step: Step)
    requires Enabled(s, step) && (step.Spawn? ==> s.acceptors[step.acceptor].conn !in s.handlers)
    ensures |LiveHandlers(Next(s, step))|
            == |LiveHandlers(s)| + (if step.Spawn? then 1 else if step.Handle? && step.action.Finish? then -1 else 0)
  {
    hide Written;
    var next := Next(s, step);
    if step.Spawn? {
      OneMember(LiveHandlers(s), LiveHandlers(next), s.acceptors[step.acceptor].conn);
    } else if step.Handle? {
      OneMember(LiveHandlers(s), LiveHandlers(next), step.conn);
    } else {
      assert LiveHandlers(s) == LiveHandlers(next);
    }
  }

  lemma MainKept(s: State, step: Step)
    requires Inv(s) && Enabled(s, step)
    ensures MainInv(Next(s, step))
  {
    hide HandlerInv, LiveAcceptors, LiveHandlers;
    if step.Spawn? {
      assert AcceptorInv(s, step.acceptor);
    }
    LiveIsCounted(s);
    AcceptorsCounted(s, step);
    HandlersCounted(s, step);
  }

  lemma StepKeepsInv(s: State, step: Step)
    requires Inv(s) && Enabled(s, step)
    ensures Inv(Next(s, step))
  {
    hide HandlerInv, AcceptorInv, MainInv;
    MainKept(s, step);
    HandlersKept(s, step);
    AcceptorsKept(s, step);
  }

  lemma InitialInv(s: State)
    requires Initial(s)
    ensures Inv(s)
  {
    assert LiveAcceptors(s) == s.acceptors.Keys;
    assert |s.acceptors.Keys| == |s.acceptors|;
    assert LiveHandlers(s) == {};
  }

  lemma {:induction false} RunKeepsInv(steps: seq<Step>, states: seq<State>, n: nat)
    requires IsRun(steps, states) && n < |states|
    ensures Inv(states[n])
  {
    hide Inv, Initial;
    if n == 0 {
      InitialInv(states[0]);
    } else {
      RunKeepsInv(steps, states, n - 1);
      StepKeepsInv(states[n - 1], steps[n - 1]);
    }
  }

  // ---------- safety in every reachable state ----------

  /** The handler has yet to look at the context, which is cancelled. */
  predicate WillSeeCancel(s: State, c: nat) {
    s.cancelled && c in s.handlers && s.handlers[c] in {Started, Registered, Handshaking, Checking}
  }

  predicate OnItsWayOut(s: State, c: nat) {
    c in s.handlers && s.handlers[c] in {Closing, Recorded, SocketClosed, Unregistered, Abandoned}
  }

  /** After the cancel and the snapshot of the active set, in every
      interleaving, every live handler has its socket closed or due to be
      closed, or will see the cancelled context, or is already closing. */
  lemma NoHandlerIsMissed(steps: seq<Step>, states: seq<State>, n: nat, c: nat)
    requires IsRun(steps, states) && n < |states| && PastSnapshot(states[n].main)
    requires c in states[n].handlers && !Finished(states[n].handlers[c])
    ensures ClosedOrDue(states[n], c) || WillSeeCancel(states[n], c) || OnItsWayOut(states[n], c)
  {
    RunKeepsInv(steps, states, n);
    assert HandlerInv(states[n], c);
  }

  /** Over any run, no handler starts serving a request after the cancel. */
  lemma {:induction false} NothingServedLate(steps: seq<Step>, states: seq<State>, n: nat, later: nat, c: nat)
    requires IsRun(steps, states) && n <= later < |states| && states[n].cancelled
    ensures states[later].cancelled
    ensures At(states[later], c, InRequest) ==> At(states[n], c, InRequest)
    decreases later
  {
    if n < later {
      NothingServedLate(steps, states, n, later - 1, c);
    }
  }

  /** The journal is closed only after the last handler and the last acceptor
      left: nothing is running that could write another record. */
  lemma JournalClosesLast(steps: seq<Step>, states: seq<State>, n: nat)
    requires IsRun(steps, states) && n < |states| && states[n].main.JournalClosed?
    ensures forall c | c in states[n].handlers :: Finished(states[n].handlers[c])
    ensures forall a | a in states[n].acceptors :: states[n].acceptors[a].Left?
    ensures forall c, action :: !Enabled(states[n], Handle(c, action))
  {
    hide HandlerInv, AcceptorInv, LiveAcceptors, LiveHandlers;
    RunKeepsInv(steps, states, n);
    LiveIsCounted(states[n]);
  }

  /** By then every connection that asked for an OPEN record asked for its CLOSE record, in that order and once. */
  lemma EveryOpenIsClosed(steps: seq<Step>, states: seq<State>, n: nat, c: nat)
    requires IsRun(steps, states) && n < |states| && states[n].main.JournalClosed?
    ensures RecordsOf(states[n].records, c) == [] || RecordsOf(states[n].records, c) == [Opening(c), Ending(c)]
  {
    hide RecordsOf;
    RunKeepsInv(steps, states, n);
    JournalClosesLast(steps, states, n);
    assert HandlerInv(states[n], c);
  }

  /** Every record a handler ever asks for finds the journal open. */
  lemma RecordsFindTheJournalOpen(steps: seq<Step>, states: seq<State>, n: nat, c: nat, action: Action)
    requires IsRun(steps, states) && n < |states| && Enabled(states[n], Handle(c, action)) && Written(c, action) != []
    ensures !states[n].main.JournalClosed?
  {
    RunKeepsInv(steps, states, n);
    LiveIsCounted(states[n]);
  }

  /** The wait group never goes below zero, is only raised while it is above
      zero, and so never reaches zero while anything is left to wait for. */
  lemma WaitGroupIsSound(steps: seq<Step>, states: seq<State>, n: nat)
    requires IsRun(steps, states) && n < |states|
    ensures states[n].waitGroup >= 0
    ensures n < |steps| && states[n + 1].waitGroup != states[n].waitGroup ==> states[n].waitGroup > 0
  {
    RunKeepsInv(steps, states, n);
    LiveIsCounted(states[n]);
  }

  // ---------- until then, connections are served ----------

  /** In every reachable state before the cancel, an acceptor that still
      listens can take a new connection, give it a handler, and go on. */
  lemma ConnectionsArrive(s: State, a: nat, c: nat)
    requires Inv(s) && c !in s.known
    requires a in s.acceptors && s.acceptors[a].Accepting? && a in s.listening
    ensures Enabled(s, Accept(a, c))
    ensures var held := Next(s, Accept(a, c));
            && Enabled(held, Spawn(a))
            && var started := Next(held, Spawn(a));
               && At(started, c, Started) && started.acceptors == s.acceptors && started.waitGroup == s.waitGroup + 1
               && started.records == s.records && started.cancelled == s.cancelled
  {
    hide HandlerInv, MainInv, LiveAcceptors, LiveHandlers;
    assert s.acceptors[a := Holding(c)][a := Accepting] == s.acceptors;
  }

  /** Its handler comes to a request, unless it is cancelled or something
      fails: registered, with its OPEN record; and from one request to the next. */
  lemma RequestsAreServed(s: State, c: nat)
    requires At(s, c, Started) && !s.cancelled
    ensures Enabled(s, Handle(c, Register))
    ensures var s1 := Next(s, Handle(c, Register));
            && Enabled(s1, Handle(c, WriteOpen(true)))
            && var s2 := Next(s1, Handle(c, WriteOpen(true)));
               && Enabled(s2, Handle(c, HandshakeEnds(true)))
               && var s3 := Next(s2, Handle(c, HandshakeEnds(true)));
                  && Enabled(s3, Handle(c, Check))
                  && var s4 := Next(s3, Handle(c, Check));
                     && At(s4, c, InRequest) && c in s4.active && s4.records == s.records + [Opening(c)]
                     && Enabled(s4, Handle(c, NextRequest))
                     && var s5 := Next(s4, Handle(c, NextRequest));
                        Enabled(s5, Handle(c, Check)) && At(Next(s5, Handle(c, Check)), c, InRequest)
  {
    assert s.records + [] == s.records && s.records + [Opening(c)] + [] == s.records + [Opening(c)];
  }

  // ---------- the drain ends ----------

  function Stage(phase: Handler): nat {
    match phase
    case Started => 0
    case Registered => 1
    case Handshaking => 2
    case InRequest => 3
    case Checking => 4
    case Closing => 5
    case Recorded => 6
    case SocketClosed => 7
    case Unregistered => 8
    case Abandoned => 8
    case Gone => 9
    case Dropped => 9
  }

  /** An acceptor that still holds a connection may yet spawn a whole handler. */
  function AcceptorStage(phase: Acceptor): nat {
    match phase case Holding(_) => 0 case Accepting => 10 case Left => 11
  }

  ghost function Stages(s: State): map<nat, nat> {
    map c | c in s.handlers :: Stage(s.handlers[c])
  }

  ghost function AcceptorStages(s: State): map<nat, nat> {
    map a | a in s.acceptors :: AcceptorStage(s.acceptors[a])
  }

  function MainWork(s: State): nat {
    match s.main
    case ClosingSockets(pending) => |pending| + 2
    case Draining => 1
    case JournalClosed => 0
    case _ => |s.known| + 3
  }

  ghost function Work(s: State): nat {
    MainWork(s) + Distance(Stages(s), 9) + Distance(AcceptorStages(s), 11)
  }

  lemma SmallerSet<T>(a: set<T>, b: set<T>)
    requires a <= b
    ensures |a| <= |b|
  {
    assert b == a + (b - a);
  }

  /** Once the main routine cancelled the run, every step of anyone brings the end closer. */
  lemma StepsComeCloser(s: State, step: Step)
    requires Inv(s) && Enabled(s, step) && PastCancel(s.main)
    ensures PastCancel(Next(s, step).main)
    ensures Work(Next(s, step)) < Work(s)
  {
    hide Distance, Inv, Written;
    var next := Next(s, step);
    CancelledMeansClosed(s);
    if step.Handle? {
      assert Stages(next) == Stages(s)[step.conn := Stage(next.handlers[step.conn])];
      assert AcceptorStages(next) == AcceptorStages(s);
      RisingCounts(Stages(s), step.conn, Stage(next.handlers[step.conn]), 9);
    } else if step.Spawn? || step.Refuse? || step.AcceptFails? {
      AcceptorComesCloser(s, step);
    } else {
      assert Stages(next) == Stages(s) && AcceptorStages(next) == AcceptorStages(s);
      MainComesCloser(s, step);
    }
  }

  lemma CancelledMeansClosed(s: State)
    requires Inv(s) && PastCancel(s.main)
    ensures s.cancelled && s.listening == {} && s.active <= s.known
    ensures forall a | Holds(s, a) :: s.acceptors[a].conn !in s.handlers
  {
    forall c | c in s.active
      ensures c in s.known
    {
      assert HandlerInv(s, c);
    }
    assert forall a | Holds(s, a) :: AcceptorInv(s, a);
  }

  lemma AcceptorComesCloser(s: State, step: Step)
    requires Enabled(s, step) && (step.Spawn? || step.Refuse? || step.AcceptFails?)
    requires step.Spawn? ==> s.acceptors[step.acceptor].conn !in s.handlers
    ensures Work(Next(s, step)) < Work(s)
  {
    hide Distance;
    var next := Next(s, step);
    var a := step.acceptor;
    assert AcceptorStages(next) == AcceptorStages(s)[a := AcceptorStage(next.acceptors[a])];
    RisingCounts(AcceptorStages(s), a, AcceptorStage(next.acceptors[a]), 11);
    if step.Spawn? {
      var c := s.acceptors[a].conn;
      assert Stages(next) == Stages(s)[c := 0];
      ArrivingCounts(Stages(s), c, 0, 9);
    } else {
      assert Stages(next) == Stages(s);
    }
  }

  lemma MainComesCloser(s: State, step: Step)
    requires Enabled(s, step) && PastCancel(s.main) && s.cancelled && s.listening == {} && s.active <= s.known
    requires step.Snapshot? || step.CloseSocket? || step.SocketsDone? || step.WaitReturns?
    ensures MainWork(Next(s, step)) < MainWork(s)
  {
    if step.Snapshot? {
      SmallerSet(s.active, s.known);
    } else if step.CloseSocket? {
      OneMember(s.main.pending, Next(s, step).main.pending, step.conn);
    }
  }

  /** Steps that need nothing from the peers. */
  predicate Own(step: Step) {
    !(step.Handle? && (step.action.NextRequest? || step.action.RequestFails?))
  }

  /** From any reachable state past the cancel, until the journal is closed,
      there is a step that needs nothing from any peer, and it brings the end
      closer: the shutdown cannot get stuck. */
  lemma ShutdownCompletes(steps: seq<Step>, states: seq<State>, n: nat)
    requires IsRun(steps, states) && n < |states| && PastCancel(states[n].main)
    ensures states[n].main.JournalClosed?
            || exists step :: Own(step) && Enabled(states[n], step) && Work(Next(states[n], step)) < Work(states[n])
  {
    hide Work, Inv;
    var s := states[n];
    RunKeepsInv(steps, states, n);
    if s.main.JournalClosed? {
      return;
    }
    var step := Pending(s);
    StepsComeCloser(s, step);
  }

  lemma Pending(s: State) returns (step: Step)
    requires Inv(s) && PastCancel(s.main) && !s.main.JournalClosed?
    ensures Own(step) && Enabled(s, step)
  {
    hide RecordsOf, Story;
    if s.main.Cancelled? {
      return Snapshot;
    } else if s.main.ClosingSockets? && s.main.pending != {} {
      var c :| c in s.main.pending;
      return CloseSocket(c);
    } else if s.main.ClosingSockets? {
      return SocketsDone;
    } else if a :| a in s.acceptors && !s.acceptors[a].Left? {
      return if s.acceptors[a].Accepting? then AcceptFails(a) else Refuse(a);
    } else if c :| c in s.handlers && !Finished(s.handlers[c]) {
      assert HandlerInv(s, c);
      var action := match s.handlers[c]
        case Started => Register
        case Registered => WriteOpen(true)
        case Handshaking => HandshakeEnds(false)
        case Checking => Check
        case InRequest => NoticeShut
        case Closing => WriteClose
        case Recorded => CloseOwnSocket
        case SocketClosed => Unregister
        case _ => Finish;
      return Handle(c, action);
    } else {
      assert LiveAcceptors(s) == {} && LiveHandlers(s) == {};
      return WaitReturns;
    }
  }
}
