/** The sensor's side of the lease as a step system: the watcher and any number
    of Close calls race for one sync.Once that closes the connection and the
    lost channel (Lease.watch and Lease.Close, internal/capture/health.go). */
module ClientLease {
  import opened Counting

  /** Closing the lost channel twice would panic, so its closes are counted. */
  datatype Once = Fresh | Busy(caller: nat) | Spent

  datatype Phase =
    | Watching                   // only the watcher, caller 0
    | Calling(lostFirst: bool)   // about to enter the once
    | First(lostFirst: bool)     // inside, before the first of its two actions
    | Second(lostFirst: bool)    // inside, before the second
    | Returned

  datatype State = State(once: Once, lostCloses: nat, connClosed: bool, peerGone: bool, cancelled: bool,
                         callers: map<nat, Phase>)

  datatype Step =
    | PeerGoes
    | Cancel
    | NoticeCancel
    | ReadReturns
    | CallClose(caller: nat)
    | Enter(caller: nat)
    | Pass(caller: nat)
    | Act(caller: nat)

  const ACQUIRED: State := State(Fresh, 0, false, false, false, map[0 := Watching])

  predicate At(s: State, caller: nat, phase: Phase) {
    caller in s.callers && s.callers[caller] == phase
  }

  predicate IsCalling(s: State, caller: nat) {
    caller in s.callers && s.callers[caller].Calling?
  }

  predicate Inside(s: State, caller: nat) {
    caller in s.callers && (s.callers[caller].First? || s.callers[caller].Second?)
  }

  /** Callers that find the once busy wait; the watcher's read returns when
      the peer goes away (or sends anything further), or the connection is
      closed on this side. */
  predicate Enabled(s: State, step: Step) {
    match step
    case PeerGoes => !s.peerGone
    case Cancel => !s.cancelled
    case NoticeCancel => s.cancelled && At(s, 0, Watching)
    case ReadReturns => (s.peerGone || s.connClosed) && At(s, 0, Watching)
    case CallClose(k) => k !in s.callers
    case Enter(k) => IsCalling(s, k) && s.once == Fresh
    case Pass(k) => IsCalling(s, k) && s.once == Spent
    case Act(k) => Inside(s, k)
  }

  function Move(s: State, caller: nat, phase: Phase): State {
    s.(callers := s.callers[caller := phase])
  }

  /** One of the two actions. */
  function Perform(s: State, closesLost: bool): State {
    if closesLost then s.(lostCloses := s.lostCloses + 1) else s.(connClosed := true)
  }

  function Next(s: State, step: Step): State
    requires Enabled(s, step)
  {
    match step
    case PeerGoes => s.(peerGone := true)
    case Cancel => s.(cancelled := true)
    case NoticeCancel => Move(s, 0, Calling(false))
    case ReadReturns => Move(s, 0, Calling(true))
    case CallClose(k) => Move(s, k, Calling(false))
    case Enter(k) => Move(s, k, First(s.callers[k].lostFirst)).(once := Busy(k))
    case Pass(k) => Move(s, k, Returned)
    case Act(k) =>
      var phase := s.callers[k];
      if phase.First? then Move(Perform(s, phase.lostFirst), k, Second(phase.lostFirst))
      else Move(Perform(s, !phase.lostFirst), k, Returned).(once := Spent)
  }

  ghost predicate IsRun(steps: seq<Step>, states: seq<State>) {
    && |states| == |steps| + 1 && states[0] == ACQUIRED
    && forall i | 0 <= i < |steps| :: Enabled(states[i], steps[i]) && states[i + 1] == Next(states[i], steps[i])
  }

  /** What has been done, by how far the one caller inside has come. */
  ghost predicate OnceInv(s: State) {
    match s.once
    case Fresh => s.lostCloses == 0 && !s.connClosed
    case Busy(k) =>
      && Inside(s, k)
      && var phase := s.callers[k];
         && s.lostCloses == (if phase.Second? && phase.lostFirst then 1 else 0)
         && (s.connClosed <==> phase.Second? && !phase.lostFirst)
    case Spent => s.lostCloses == 1 && s.connClosed
  }

  /** Only the caller holding the once is inside, and callers return only when it is spent. */
  ghost predicate CallerInv(s: State, k: nat) {
    && (Inside(s, k) ==> s.once == Busy(k))
    && (At(s, k, Returned) ==> s.once == Spent)
    && (At(s, k, Watching) ==> k == 0)
  }

  ghost predicate Inv(s: State) {
    && OnceInv(s) && 0 in s.callers
    && forall k :: CallerInv(s, k)
  }

  lemma StepKeepsInv(s: State, step: Step)
    requires Inv(s) && Enabled(s, step)
    ensures Inv(Next(s, step))
  {
    hide OnceInv;
    StepKeepsOnce(s, step);
    forall k
      ensures CallerInv(Next(s, step), k)
    {
      assert CallerInv(s, k);
      if step.Act? {
        assert CallerInv(s, step.caller);
      }
    }
  }

  lemma StepKeepsOnce(s: State, step: Step)
    requires Inv(s) && Enabled(s, step)
    ensures OnceInv(Next(s, step))
  {
    if step.Act? {
      assert CallerInv(s, step.caller);
    }
    if s.once.Busy? {
      assert CallerInv(s, s.once.caller);
    }
  }

  lemma {:induction false} RunKeepsInv(steps: seq<Step>, states: seq<State>, n: nat)
    requires IsRun(steps, states) && n < |states|
    ensures Inv(states[n])
  {
    if n > 0 {
      RunKeepsInv(steps, states, n - 1);
      StepKeepsInv(states[n - 1], steps[n - 1]);
    }
  }

  /** Over every run, with any number of closers and however they race the
      watcher, the lost channel is closed at most once, and whoever returns
      leaves it closed and the connection closed. */
  lemma LostClosesOnce(steps: seq<Step>, states: seq<State>, n: nat)
    requires IsRun(steps, states) && n < |states|
    ensures states[n].lostCloses <= 1
    ensures forall k | At(states[n], k, Returned) :: states[n].lostCloses == 1 && states[n].connClosed
  {
    RunKeepsInv(steps, states, n);
    assert forall k | At(states[n], k, Returned) :: CallerInv(states[n], k);
  }

  // ---------- revocation reaches the engine ----------

  function Stage(p: Phase): nat {
    match p
    case Watching => 0
    case Calling(_) => 1
    case First(_) => 2
    case Second(_) => 3
    case Returned => 4
  }

  ghost function Stages(s: State): map<nat, nat> {
    map k | k in s.callers :: Stage(s.callers[k])
  }

  /** What the callers have left to do. */
  ghost function Work(s: State): nat {
    Distance(Stages(s), 4)
  }

  predicate CallerStep(step: Step) {
    step.NoticeCancel? || step.ReadReturns? || step.Enter? || step.Pass? || step.Act?
  }

  /** The watcher is caller 0. */
  function CallerOf(step: Step): nat
    requires CallerStep(step)
  {
    if step.NoticeCancel? || step.ReadReturns? then 0 else step.caller
  }

  lemma CallerMovesOn(s: State, step: Step)
    requires Enabled(s, step) && CallerStep(step)
    ensures var k, next := CallerOf(step), Next(s, step);
            && k in s.callers && k in next.callers && next.callers == s.callers[k := next.callers[k]]
            && Stage(s.callers[k]) < Stage(next.callers[k]) <= 4
  {
  }

  lemma MovingOnCounts(s: State, next: State, k: nat)
    requires k in s.callers && k in next.callers && next.callers == s.callers[k := next.callers[k]]
    requires Stage(s.callers[k]) < Stage(next.callers[k]) <= 4
    ensures Work(next) < Work(s)
  {
    hide Distance, Stage;
    assert Stages(next) == Stages(s)[k := Stage(next.callers[k])];
    RisingCounts(Stages(s), k, Stage(next.callers[k]), 4);
  }

  lemma StepsComeCloser(s: State, step: Step)
    requires Enabled(s, step) && CallerStep(step)
    ensures Work(Next(s, step)) < Work(s)
  {
    hide Work;
    CallerMovesOn(s, step);
    MovingOnCounts(s, Next(s, step), CallerOf(step));
  }

  /** Once the capture side is gone or the context cancelled, the lost channel
      is closed, or some caller has a step that brings that closer. */
  lemma RevocationArrives(steps: seq<Step>, states: seq<State>, n: nat)
    requires IsRun(steps, states) && n < |states|
    requires states[n].peerGone || states[n].cancelled
    ensures states[n].lostCloses == 1
            || exists step :: CallerStep(step) && Enabled(states[n], step) && Work(Next(states[n], step)) < Work(states[n])
  {
    hide Work;
    var s := states[n];
    RunKeepsInv(steps, states, n);
    var step: Step;
    match s.once {
      case Spent =>
        return;
      case Busy(k) =>
        step := Act(k);
      case Fresh =>
        assert CallerInv(s, 0);
        step := if !s.callers[0].Watching? then Enter(0) else if s.cancelled then NoticeCancel else ReadReturns;
    }
    StepsComeCloser(s, step);
  }

  // ---------- a lease is not lost without a reason ----------

  /** Nobody has given up the lease: the watcher watches, and no call was made. */
  ghost predicate Undisturbed(s: State) {
    s.callers == map[0 := Watching] && s.once == Fresh && s.lostCloses == 0 && !s.connClosed
  }

  /** In every run, the lost channel is closed only after the peer went away,
      the context was cancelled, or somebody called Close. */
  lemma {:induction false} LostHasAReason(steps: seq<Step>, states: seq<State>, n: nat)
    requires IsRun(steps, states) && n < |states|
    ensures Undisturbed(states[n]) || states[n].peerGone || states[n].cancelled || exists k :: k in states[n].callers && k != 0
    ensures states[n].lostCloses > 0 ==>
              states[n].peerGone || states[n].cancelled || exists k :: k in states[n].callers && k != 0
    decreases n
  {
    if n > 0 {
      LostHasAReason(steps, states, n - 1);
      var s, step := states[n - 1], steps[n - 1];
      assert Enabled(s, step) && states[n] == Next(s, step);
      if exists k :: k in s.callers && k != 0 {
        var k :| k in s.callers && k != 0;
        assert k in states[n].callers;
      }
    }
  }
}
