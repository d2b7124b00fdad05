/** Connection admission as a step system: any number of acceptors and
    finishing handlers interleave their single channel operations
    (tryAcquireConnectionSlots and the release in acceptLoop,
    internal/engine/listener.go). */
module Admission {
  import opened Counting

  datatype Phase =
    | Trying           // accepted, no slot yet
    | HoldsGlobal      // took a global slot, about to try the service
    | BackingOut       // the service was full; must give the global slot back
    | Running          // admitted
    | LeftService      // finished and gave the service slot back
    | Refused
    | Done

  datatype Task = Task(service: nat, phase: Phase)

  datatype Ceilings = Ceilings(services: nat, total: nat, perService: nat)

  /** Tokens in the two kinds of channels, and every connection ever accepted. */
  datatype State = State(global: nat, slots: map<nat, nat>, tasks: map<nat, Task>)

  datatype Step =
    | Accept(task: nat, service: nat)
    | TryGlobal(task: nat)
    | TryService(task: nat)
    | GiveUpGlobal(task: nat)
    | ReleaseService(task: nat)
    | ReleaseGlobal(task: nat)

  function InService(slots: map<nat, nat>, service: nat): nat {
    if service in slots then slots[service] else 0
  }

  predicate PhaseIs(s: State, task: nat, phase: Phase) {
    task in s.tasks && s.tasks[task].phase == phase
  }

  /** A receive from an empty channel blocks; the non-blocking sends never do. */
  predicate Enabled(c: Ceilings, s: State, step: Step) {
    match step
    case Accept(t, service) => t !in s.tasks && service < c.services
    case TryGlobal(t) => PhaseIs(s, t, Trying)
    case TryService(t) => PhaseIs(s, t, HoldsGlobal)
    case GiveUpGlobal(t) => PhaseIs(s, t, BackingOut) && s.global > 0
    case ReleaseService(t) => PhaseIs(s, t, Running) && InService(s.slots, s.tasks[t].service) > 0
    case ReleaseGlobal(t) => PhaseIs(s, t, LeftService) && s.global > 0
  }

  function Move(s: State, task: nat, phase: Phase): State
    requires task in s.tasks
  {
    s.(tasks := s.tasks[task := s.tasks[task].(phase := phase)])
  }

  function Next(c: Ceilings, s: State, step: Step): State
    requires Enabled(c, s, step)
  {
    match step
    case Accept(t, service) => s.(tasks := s.tasks[t := Task(service, Trying)])
    case TryGlobal(t) =>
      if s.global < c.total then Move(s, t, HoldsGlobal).(global := s.global + 1) else Move(s, t, Refused)
    case TryService(t) =>
      var service := s.tasks[t].service;
      var taken := InService(s.slots, service);
      if taken < c.perService then Move(s, t, Running).(slots := s.slots[service := taken + 1]) else Move(s, t, BackingOut)
    case GiveUpGlobal(t) => Move(s, t, Refused).(global := s.global - 1)
    case ReleaseService(t) =>
      var service := s.tasks[t].service;
      Move(s, t, LeftService).(slots := s.slots[service := InService(s.slots, service) - 1])
    case ReleaseGlobal(t) => Move(s, t, Done).(global := s.global - 1)
  }

  const IDLE: State := State(0, map[], map[])

  /** A run from the idle server. */
  ghost predicate IsRun(c: Ceilings, steps: seq<Step>, states: seq<State>) {
    && |states| == |steps| + 1 && states[0] == IDLE
    && forall i | 0 <= i < |steps| :: Enabled(c, states[i], steps[i]) && states[i + 1] == Next(c, states[i], steps[i])
  }

  // ---------- what the channels count ----------

  ghost function InPhase(s: State, phases: set<Phase>): set<nat> {
    set t | t in s.tasks && s.tasks[t].phase in phases
  }

  ghost function RunningIn(s: State, service: nat): set<nat> {
    set t | t in s.tasks && s.tasks[t] == Task(service, Running)
  }

  ghost function RunningBelow(s: State, n: nat): set<nat> {
    set t | t in s.tasks && s.tasks[t].phase == Running && s.tasks[t].service < n
  }

  const HOLDING: set<Phase> := {HoldsGlobal, BackingOut, Running, LeftService}

  /** Connections caught between their two channel operations. */
  const CAUGHT: set<Phase> := {HoldsGlobal, BackingOut, LeftService}

  /** Every token stands for one connection, and the ceilings hold. */
  ghost predicate Inv(c: Ceilings, s: State) {
    && s.global == |InPhase(s, HOLDING)| <= c.total
    && (forall service :: InService(s.slots, service) == |RunningIn(s, service)| <= c.perService)
    && (forall t | t in s.tasks :: s.tasks[t].service < c.services)
  }

  /** A move changes the counts by its own connection alone. */
  lemma MoveCounts(s: State, t: nat, phase: Phase)
    requires t in s.tasks
    ensures var after, was := Move(s, t, phase), s.tasks[t];
            && |InPhase(after, HOLDING)| == |InPhase(s, HOLDING)| + (if phase in HOLDING then 1 else 0)
                                            - (if was.phase in HOLDING then 1 else 0)
            && forall service :: |RunningIn(after, service)|
                                 == |RunningIn(s, service)| + (if Task(service, Running) == was.(phase := phase) then 1 else 0)
                                    - (if Task(service, Running) == was then 1 else 0)
  {
    var after, was := Move(s, t, phase), s.tasks[t];
    OneMember(InPhase(s, HOLDING), InPhase(after, HOLDING), t);
    forall service
      ensures |RunningIn(after, service)|
              == |RunningIn(s, service)| + (if Task(service, Running) == was.(phase := phase) then 1 else 0)
                 - (if Task(service, Running) == was then 1 else 0)
    {
      OneMember(RunningIn(s, service), RunningIn(after, service), t);
    }
  }

  /** Only the tasks decide what is counted. */
  lemma CountsIgnoreTokens(s: State, t: State)
    requires s.tasks == t.tasks
    ensures InPhase(s, HOLDING) == InPhase(t, HOLDING)
    ensures forall service :: RunningIn(s, service) == RunningIn(t, service)
  {
  }

  lemma ArrivalCounts(s: State, t: nat, service: nat)
    requires t !in s.tasks
    ensures var after := s.(tasks := s.tasks[t := Task(service, Trying)]);
            && InPhase(after, HOLDING) == InPhase(s, HOLDING)
            && forall other :: RunningIn(after, other) == RunningIn(s, other)
  {
  }

  /** Every step of every connection, in any order, keeps the invariant. */
  lemma StepKeepsInv(c: Ceilings, s: State, step: Step)
    requires Inv(c, s) && Enabled(c, s, step)
    ensures Inv(c, Next(c, s, step))
  {
    hide InPhase, RunningIn;
    var next := Next(c, s, step);
    match step {
      case Accept(t, service) =>
        ArrivalCounts(s, t, service);
      case _ =>
        var t := step.task;
        var moved := Move(s, t, next.tasks[t].phase);
        MoveCounts(s, t, next.tasks[t].phase);
        assert next.tasks == moved.tasks;
        CountsIgnoreTokens(next, moved);
    }
  }

  lemma IdleInv(c: Ceilings)
    ensures Inv(c, IDLE)
  {
    assert InPhase(IDLE, HOLDING) == {};
    assert forall service :: RunningIn(IDLE, service) == {};
  }

  lemma {:induction false} RunKeepsInv(c: Ceilings, steps: seq<Step>, states: seq<State>, n: nat)
    requires IsRun(c, steps, states) && n < |states|
    ensures Inv(c, states[n])
  {
    hide Inv;
    if n == 0 {
      IdleInv(c);
    } else {
      RunKeepsInv(c, steps, states, n - 1);
      StepKeepsInv(c, states[n - 1], steps[n - 1]);
    }
  }

  // ---------- what follows in every reachable state ----------

  function SlotsTaken(slots: map<nat, nat>, services: nat): nat {
    if services == 0 then 0 else SlotsTaken(slots, services - 1) + InService(slots, services - 1)
  }

  lemma RunningSplits(s: State, n: nat)
    ensures |RunningBelow(s, n + 1)| == |RunningBelow(s, n)| + |RunningIn(s, n)|
  {
    assert RunningBelow(s, n + 1) == RunningBelow(s, n) + RunningIn(s, n);
    assert RunningBelow(s, n) !! RunningIn(s, n);
  }

  lemma {:induction false} SlotsAreRunning(c: Ceilings, s: State, n: nat)
    requires Inv(c, s)
    ensures SlotsTaken(s.slots, n) == |RunningBelow(s, n)|
  {
    hide InService, RunningIn;
    if n == 0 {
      assert RunningBelow(s, 0) == {};
    } else {
      SlotsAreRunning(c, s, n - 1);
      RunningSplits(s, n - 1);
    }
  }

  /** The global slots in use are the service slots in use and the connections
      caught between their two channel operations. */
  lemma GlobalSlotsAddUp(c: Ceilings, steps: seq<Step>, states: seq<State>, n: nat)
    requires IsRun(c, steps, states) && n < |states|
    ensures states[n].global == SlotsTaken(states[n].slots, c.services) + |InPhase(states[n], CAUGHT)|
  {
    var s := states[n];
    RunKeepsInv(c, steps, states, n);
    SlotsAreRunning(c, s, c.services);
    assert InPhase(s, HOLDING) == RunningBelow(s, c.services) + InPhase(s, CAUGHT);
    assert RunningBelow(s, c.services) !! InPhase(s, CAUGHT);
  }

  /** No ceiling is ever exceeded, in total or for one service. */
  lemma CeilingsHold(c: Ceilings, steps: seq<Step>, states: seq<State>, n: nat)
    requires IsRun(c, steps, states) && n < |states|
    ensures |InPhase(states[n], {Running})| <= c.total
    ensures forall service :: |RunningIn(states[n], service)| <= c.perService
  {
    RunKeepsInv(c, steps, states, n);
    assert InPhase(states[n], HOLDING) == InPhase(states[n], {Running}) + InPhase(states[n], CAUGHT);
    assert InPhase(states[n], {Running}) !! InPhase(states[n], CAUGHT);
  }

  /** Giving a slot back never blocks, so an admitted or backing-out connection can always finish. */
  lemma ReleasingNeverBlocks(c: Ceilings, steps: seq<Step>, states: seq<State>, n: nat, t: nat)
    requires IsRun(c, steps, states) && n < |states| && t in states[n].tasks
    ensures match states[n].tasks[t].phase
            case BackingOut => Enabled(c, states[n], GiveUpGlobal(t))
            case Running => Enabled(c, states[n], ReleaseService(t))
            case LeftService => Enabled(c, states[n], ReleaseGlobal(t))
            case _ => true
  {
    RunKeepsInv(c, steps, states, n);
    var s := states[n];
    assert s.tasks[t].phase in HOLDING ==> t in InPhase(s, HOLDING);
    assert s.tasks[t].phase == Running ==> t in RunningIn(s, s.tasks[t].service);
  }

  /** Once every connection is refused or done, no slot is held. */
  lemma QuietServerHoldsNothing(c: Ceilings, steps: seq<Step>, states: seq<State>, n: nat)
    requires IsRun(c, steps, states) && n < |states|
    requires forall t | t in states[n].tasks :: states[n].tasks[t].phase in {Refused, Done}
    ensures states[n].global == 0 && forall service :: InService(states[n].slots, service) == 0
  {
    RunKeepsInv(c, steps, states, n);
    assert InPhase(states[n], HOLDING) == {};
    assert forall service :: RunningIn(states[n], service) == {};
  }

  /** A connection is refused exactly when, at its two attempts, the total
      ceiling is taken up by running and caught connections together, or its
      service's ceiling by running ones. */
  lemma RefusalIsExact(c: Ceilings, steps: seq<Step>, states: seq<State>, n: nat, t: nat)
    requires IsRun(c, steps, states) && n < |states| && t in states[n].tasks
    ensures states[n].tasks[t].phase == Trying ==>
              (Next(c, states[n], TryGlobal(t)).tasks[t].phase == Refused
               <==> |InPhase(states[n], {Running})| + |InPhase(states[n], CAUGHT)| == c.total)
    ensures states[n].tasks[t].phase == HoldsGlobal ==>
              (Next(c, states[n], TryService(t)).tasks[t].phase == BackingOut
               <==> |RunningIn(states[n], states[n].tasks[t].service)| == c.perService)
  {
    RunKeepsInv(c, steps, states, n);
    assert InPhase(states[n], HOLDING) == InPhase(states[n], {Running}) + InPhase(states[n], CAUGHT);
    assert InPhase(states[n], {Running}) !! InPhase(states[n], CAUGHT);
  }

  /** A connection that is about to back out counts against the total: here a
      service with room refuses although one of two allowed connections runs. */
  lemma RefusalCanBeSpurious() returns (c: Ceilings, steps: seq<Step>, states: seq<State>)
    ensures IsRun(c, steps, states)
    ensures var s := states[|steps|];
            && |InPhase(s, {Running})| < c.total && InService(s.slots, 1) < c.perService
            && PhaseIs(s, 2, Refused) && s.tasks[2].service == 1
  {
    c := Ceilings(2, 2, 1);
    var s1 := Next(c, IDLE, Accept(0, 0));
    var s2 := Next(c, s1, TryGlobal(0));
    var s3 := Next(c, s2, TryService(0));
    var s4 := Next(c, s3, Accept(1, 0));
    var s5 := Next(c, s4, TryGlobal(1));
    var s6 := Next(c, s5, Accept(2, 1));
    var s7 := Next(c, s6, TryGlobal(2));
    steps := [Accept(0, 0), TryGlobal(0), TryService(0), Accept(1, 0), TryGlobal(1), Accept(2, 1), TryGlobal(2)];
    states := [IDLE, s1, s2, s3, s4, s5, s6, s7];
    assert InPhase(s7, {Running}) == {0};
  }
}
