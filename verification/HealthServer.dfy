/** The capture side of the lease as a step system: one handler per
    connection, and Close, whose locked section and socket closing interleave
    with all of them (handleLease and Close, internal/capture/health.go). */
module HealthServer {
  import opened Counting

  datatype Phase =
    | Reading          // waits for the request line, at most until its deadline
    | Replying         // about to send READY
    | ReadySent        // READY is out, registration not yet tried
    | Watching         // registered, reading the connection
    | Leaving          // about to remove itself
    | Removed          // about to close its socket
    | Gone

  /** Close has not begun, has taken its snapshot and is closing the sockets
      left in it, or has closed the listener too. */
  datatype Closer = Open | Closing(pending: set<nat>) | Finished

  /** `ready` and `shut`: the connections that were sent READY, and those whose socket is closed. */
  datatype State = State(closer: Closer, leases: set<nat>, handlers: map<nat, Phase>, ready: set<nat>, shut: set<nat>,
                         cancelled: bool)

  datatype Step =
    | Accept(conn: nat)
    | Request(conn: nat, good: bool)
    | Reply(conn: nat, sent: bool)
    | Register(conn: nat)
    | NoticeShut(conn: nat)
    | Remove(conn: nat)
    | Shut(conn: nat)
    | BeginClose
    | CloseOne(conn: nat)
    | CloseListener
    | PeerByte(conn: nat)
    | PeerLeaves(conn: nat)
    | Cancel

  const NEW: State := State(Open, {}, map[], {}, {}, false)

  predicate At(s: State, conn: nat, phase: Phase) {
    conn in s.handlers && s.handlers[conn] == phase
  }

  /** A watching handler comes back from its read when its socket was closed
      or when its peer acts. It looks at the context once it is registered and
      after every byte, each time as one step with what came before: a cancel in
      between is the same as one before both. */
  predicate Enabled(s: State, step: Step) {
    match step
    case Accept(c) => c !in s.handlers && !s.closer.Finished?
    case Request(c, _) => At(s, c, Reading)
    case Reply(c, _) => At(s, c, Replying)
    case Register(c) => At(s, c, ReadySent)
    case NoticeShut(c) => At(s, c, Watching) && c in s.shut
    case Remove(c) => At(s, c, Leaving)
    case Shut(c) => At(s, c, Removed)
    case BeginClose => s.closer.Open?
    case CloseOne(c) => s.closer.Closing? && c in s.closer.pending
    case CloseListener => s.closer == Closing({})
    case PeerByte(c) => At(s, c, Watching)
    case PeerLeaves(c) => At(s, c, Watching)
    case Cancel => !s.cancelled
  }

  /** Steps that need neither a new connection nor the peer nor the context. */
  predicate Own(step: Step) {
    !step.Accept? && !step.PeerByte? && !step.PeerLeaves? && !step.Cancel? && !step.BeginClose?
  }

  function Move(s: State, conn: nat, phase: Phase): State {
    s.(handlers := s.handlers[conn := phase])
  }

  function Next(s: State, step: Step): State
    requires Enabled(s, step)
  {
    match step
    case Accept(c) => Move(s, c, Reading)
    case Request(c, good) => Move(s, c, if good then Replying else Leaving)
    case Reply(c, sent) => if sent then Move(s, c, ReadySent).(ready := s.ready + {c}) else Move(s, c, Leaving)
    case Register(c) =>
      if s.closer.Open? then Move(s, c, if s.cancelled then Leaving else Watching).(leases := s.leases + {c})
      else Move(s, c, Leaving)
    case NoticeShut(c) => Move(s, c, Leaving)
    case Remove(c) => Move(s, c, Removed).(leases := s.leases - {c})
    case Shut(c) => Move(s, c, Gone).(shut := s.shut + {c})
    case BeginClose => s.(closer := Closing(s.leases))
    case CloseOne(c) => s.(closer := Closing(s.closer.pending - {c}), shut := s.shut + {c})
    case CloseListener => s.(closer := Finished)
    case PeerByte(c) => if s.cancelled then Move(s, c, Leaving) else s
    case PeerLeaves(c) => Move(s, c, Leaving)
    case Cancel => s.(cancelled := true)
  }

  ghost predicate IsRun(steps: seq<Step>, states: seq<State>) {
    && |states| == |steps| + 1 && states[0] == NEW
    && forall i | 0 <= i < |steps| :: Enabled(states[i], steps[i]) && states[i + 1] == Next(states[i], steps[i])
  }

  /** The socket is closed, or Close is about to close it. */
  predicate ClosedOrDue(s: State, conn: nat) {
    conn in s.shut || (s.closer.Closing? && conn in s.closer.pending)
  }

  ghost predicate LeaseInv(s: State, c: nat) {
    && (At(s, c, Watching) ==> c in s.leases && (s.closer.Open? || ClosedOrDue(s, c)))
    && (c in s.leases ==> At(s, c, Watching) || At(s, c, Leaving))
    && (At(s, c, Gone) ==> c in s.shut)
    && (c in s.ready ==> c in s.handlers && !At(s, c, Reading) && !At(s, c, Replying))
  }

  ghost predicate Inv(s: State) {
    forall c :: LeaseInv(s, c)
  }

  lemma StepKeepsInv(s: State, step: Step)
    requires Inv(s) && Enabled(s, step)
    ensures Inv(Next(s, step))
  {
    forall c
      ensures LeaseInv(Next(s, step), c)
    {
      assert LeaseInv(s, c);
    }
  }

  lemma {:induction false} RunKeepsInv(steps: seq<Step>, states: seq<State>, n: nat)
    requires IsRun(steps, states) && n < |states|
    ensures Inv(states[n])
  {
    if n > 0 {
      RunKeepsInv(steps, states, n - 1);
      StepKeepsInv(states[n - 1], steps[n - 1]);
    }
  }

  /** In every reachable state after Close took the lock, a connection that was
      sent READY is closed, in the snapshot of those being closed, or in the
      hands of a handler that will close it without registering it. */
  lemma EveryReadyLeaseIsRevoked(steps: seq<Step>, states: seq<State>, n: nat, conn: nat)
    requires IsRun(steps, states) && n < |states|
    requires !states[n].closer.Open? && conn in states[n].ready
    ensures var s := states[n];
            || ClosedOrDue(s, conn)
            || (At(s, conn, ReadySent) && !At(Next(s, Register(conn)), conn, Watching))
            || At(s, conn, Leaving) || At(s, conn, Removed)
  {
    RunKeepsInv(steps, states, n);
    assert LeaseInv(states[n], conn);
  }

  /** Over any run, once Close took the lock nothing is registered any more. */
  lemma {:induction false} NothingRegistersLate(steps: seq<Step>, states: seq<State>, n: nat, later: nat)
    requires IsRun(steps, states) && n <= later < |states| && !states[n].closer.Open?
    ensures !states[later].closer.Open? && states[later].leases <= states[n].leases
    ensures forall c | At(states[later], c, Watching) :: At(states[n], c, Watching)
    decreases later
  {
    if n < later {
      NothingRegistersLate(steps, states, n, later - 1);
    }
  }

  // ---------- until then, leases are given and kept ----------

  /** While the server is open and not cancelled, a connection that asks well is sent READY, registered and watched. */
  lemma LeaseIsGiven(s: State, c: nat)
    requires s.closer.Open? && c !in s.handlers && !s.cancelled
    ensures Enabled(s, Accept(c))
    ensures var s1 := Next(s, Accept(c));
            && Enabled(s1, Request(c, true))
            && var s2 := Next(s1, Request(c, true));
               && Enabled(s2, Reply(c, true))
               && var s3 := Next(s2, Reply(c, true));
                  && Enabled(s3, Register(c))
                  && var s4 := Next(s3, Register(c));
                     At(s4, c, Watching) && c in s4.leases && c in s4.ready
  {
  }

  /** A lease ends for a reason: its socket was closed, or its peer went away, or sent something after the cancel. */
  lemma LeaseIsKept(s: State, step: Step, c: nat)
    requires Enabled(s, step) && At(s, c, Watching) && !At(Next(s, step), c, Watching)
    ensures (step == NoticeShut(c) && c in s.shut) || step == PeerLeaves(c) || (step == PeerByte(c) && s.cancelled)
  {
  }

  /** And its socket is closed only by Close. */
  lemma SocketsStayOpen(steps: seq<Step>, states: seq<State>, n: nat, c: nat)
    requires IsRun(steps, states) && n < |states| && At(states[n], c, Watching) && states[n].closer.Open?
    ensures c !in states[n].shut
  {
    if c in states[n].shut {
      OpenMeansUnshut(steps, states, n, c);
    }
  }

  /** While the server is open, only handlers that are through have closed their sockets. */
  lemma {:induction false} OpenMeansUnshut(steps: seq<Step>, states: seq<State>, n: nat, c: nat)
    requires IsRun(steps, states) && n < |states| && states[n].closer.Open? && c in states[n].shut
    ensures At(states[n], c, Gone)
    decreases n
  {
    if n > 0 {
      var s, step := states[n - 1], steps[n - 1];
      assert Enabled(s, step) && states[n] == Next(s, step);
      if c in s.shut {
        OpenMeansUnshut(steps, states, n - 1, c);
      }
    }
  }

  // ---------- the drain after Close ----------

  function Stage(p: Phase): nat {
    match p
    case Reading => 0
    case Replying => 1
    case ReadySent => 2
    case Watching => 3
    case Leaving => 4
    case Removed => 5
    case Gone => 6
  }

  ghost function Stages(s: State): map<nat, nat> {
    map c | c in s.handlers :: Stage(s.handlers[c])
  }

  /** What is left to do before everything is closed. */
  ghost function Work(s: State): nat {
    Distance(Stages(s), 6) + match s.closer case Open => 0 case Closing(pending) => |pending| + 1 case Finished => 0
  }

  /** The steps in which one handler moves on. */
  predicate HandlerStep(s: State, step: Step) {
    || step.Request? || step.Reply? || step.Register? || step.NoticeShut? || step.Remove? || step.Shut? || step.PeerLeaves?
    || (step.PeerByte? && s.cancelled)
  }

  lemma HandlerMovesOn(s: State, step: Step)
    requires Enabled(s, step) && HandlerStep(s, step) && !s.closer.Open?
    ensures var c, next := step.conn, Next(s, step);
            && c in s.handlers && c in next.handlers && next.handlers == s.handlers[c := next.handlers[c]]
            && Stage(s.handlers[c]) < Stage(next.handlers[c]) <= 6 && next.closer == s.closer
  {
  }

  lemma MovingOnCounts(s: State, next: State, c: nat)
    requires c in s.handlers && c in next.handlers && next.handlers == s.handlers[c := next.handlers[c]]
    requires Stage(s.handlers[c]) < Stage(next.handlers[c]) <= 6 && next.closer == s.closer
    ensures Work(next) < Work(s)
  {
    hide Distance, Stage;
    assert Stages(next) == Stages(s)[c := Stage(next.handlers[c])];
    RisingCounts(Stages(s), c, Stage(next.handlers[c]), 6);
  }

  lemma ClosingCounts(s: State, step: Step)
    requires Enabled(s, step) && (step.CloseOne? || step.CloseListener?)
    ensures Work(Next(s, step)) < Work(s)
  {
    hide Distance;
    var next := Next(s, step);
    assert Stages(next) == Stages(s);
    if step.CloseOne? {
      OneMember(s.closer.pending, next.closer.pending, step.conn);
    }
  }

  /** After Close took the lock no step but a new connection undoes progress,
      and every step of the server's own makes some. */
  lemma StepsComeCloser(s: State, step: Step)
    requires Enabled(s, step) && !s.closer.Open? && !step.Accept?
    ensures Work(Next(s, step)) <= Work(s)
    ensures Own(step) ==> Work(Next(s, step)) < Work(s)
  {
    hide Work;
    if HandlerStep(s, step) {
      HandlerMovesOn(s, step);
      MovingOnCounts(s, Next(s, step), step.conn);
    } else if step.CloseOne? || step.CloseListener? {
      ClosingCounts(s, step);
    } else {
      SameWork(s, Next(s, step));
    }
  }

  lemma SameWork(s: State, next: State)
    requires next.handlers == s.handlers && next.closer == s.closer
    ensures Work(next) == Work(s)
  {
    hide Distance;
    assert Stages(next) == Stages(s);
  }

  /** From any reachable state after Close took the lock, the server either has
      a step of its own that brings it closer, or everything is closed. */
  lemma CloseDrains(steps: seq<Step>, states: seq<State>, n: nat)
    requires IsRun(steps, states) && n < |states| && !states[n].closer.Open?
    ensures var s := states[n];
            || (exists step :: Own(step) && Enabled(s, step) && Work(Next(s, step)) < Work(s))
            || (s.closer.Finished? && s.leases == {} && forall c | c in s.handlers :: At(s, c, Gone) && c in s.shut)
  {
    hide Work;
    var s := states[n];
    RunKeepsInv(steps, states, n);
    var step: Step;
    if s.closer.Closing? && s.closer.pending != {} {
      var c :| c in s.closer.pending;
      step := CloseOne(c);
    } else if s.closer.Closing? {
      step := CloseListener;
    } else if c :| c in s.handlers && s.handlers[c] != Gone {
      match s.handlers[c] {
        case Reading => step := Request(c, false);
        case Replying => step := Reply(c, false);
        case ReadySent => step := Register(c);
        case Watching =>
          assert LeaseInv(s, c);
          step := NoticeShut(c);
        case Leaving => step := Remove(c);
        case Removed => step := Shut(c);
      }
    } else {
      assert forall c | c in s.handlers :: At(s, c, Gone) && LeaseInv(s, c);
      assert forall c | c in s.leases :: LeaseInv(s, c);
      return;
    }
    StepsComeCloser(s, step);
  }
}
