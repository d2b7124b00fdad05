/** Many connections over one journal: what each of them sees of it, and what
    of it is theirs. Any interleaving of their calls is one run of the journal
    (internal/evidence/bwj.go). */
module Sharing {
  import opened Wrappers
  import opened Bytes
  import opened Ids
  import opened Format
  import opened Journal
  import opened Runs
  import opened Rebuild
  import opened Traces

  /** The drafts of one connection, in order. */
  function Own(ds: seq<Draft>, connection: ID): seq<Draft> {
    if ds == [] then []
    else (if ds[0].connection == connection then [ds[0]] else []) + Own(ds[1..], connection)
  }

  /** What one connection asked the journal to write, in its own order. */
  function CallsOf(ops: seq<Op>, connection: ID): seq<Draft> {
    if ops == [] then []
    else (if ops[0].Write? && ops[0].draft.connection == connection then [ops[0].draft] else []) + CallsOf(ops[1..], connection)
  }

  ghost predicate AllWellFormed(ops: seq<Op>) {
    forall i | 0 <= i < |ops| && ops[i].Write? :: WellFormed(ops[i].draft)
  }

  /** All of one connection's calls succeeded. */
  ghost predicate Served(ops: seq<Op>, outcomes: seq<Option<JournalError>>, connection: ID)
    requires |ops| == |outcomes|
  {
    forall i | 0 <= i < |ops| && ops[i].Write? && ops[i].draft.connection == connection :: outcomes[i].None?
  }

  predicate Dead(log: Log) {
    log.failed.Some? || log.closed
  }

  lemma DeadStaysDead(st: Settings, log: Log, op: Op)
    requires log.files != [] && Dead(log)
    ensures Dead(Apply(st, log, op).0)
    ensures op.Write? ==> Apply(st, log, op).1.Some?
  {
    hide Append, Rotate, ShouldRotate, EncodeFile;
  }

  lemma RefusalKills(st: Settings, log: Log, op: Op)
    requires log.files != [] && op.Write? && WellFormed(op.draft)
    ensures Apply(st, log, op).1.Some? ==> Dead(Apply(st, log, op).0)
  {
    hide Rotate, ShouldRotate, EncodeFile, Deliver;
  }

  lemma {:induction false} DeadRefusesAll(st: Settings, log: Log, ops: seq<Op>)
    requires log.files != [] && Dead(log)
    ensures forall i | 0 <= i < |ops| && ops[i].Write? :: Run(st, log, ops).1[i].Some?
    decreases |ops|
  {
    hide Apply, Dead;
    if ops != [] {
      DeadStaysDead(st, log, ops[0]);
      RunUnfolds(st, log, ops);
      DeadRefusesAll(st, Apply(st, log, ops[0]).0, ops[1..]);
    }
  }

  lemma {:induction false} DeadKeepsRemnant(st: Settings, log: Log, ops: seq<Op>)
    requires log.files != [] && Dead(log)
    ensures Run(st, log, ops).0.remnant == log.remnant
    decreases |ops|
  {
    hide Append, Rotate, ShouldRotate, EncodeFile;
    if ops != [] {
      RunUnfolds(st, log, ops);
      DeadStaysDead(st, log, ops[0]);
      DeadKeepsRemnant(st, Apply(st, log, ops[0]).0, ops[1..]);
    }
  }

  /** Once one call is refused, every later call of any connection is. */
  lemma {:induction false} RefusalIsFinal(st: Settings, log: Log, ops: seq<Op>, i: nat, j: nat)
    requires log.files != [] && AllWellFormed(ops)
    requires i <= j < |ops| && ops[i].Write? && ops[j].Write? && Run(st, log, ops).1[i].Some?
    ensures Run(st, log, ops).1[j].Some?
    decreases |ops|
  {
    hide Apply, Dead;
    RunUnfolds(st, log, ops);
    var next := Apply(st, log, ops[0]).0;
    if i == 0 {
      RefusalKills(st, log, ops[0]);
      DeadRefusesAll(st, next, ops[1..]);
    } else {
      assert forall k | 0 <= k < |ops[1..]| :: ops[1..][k] == ops[k + 1];
      RefusalIsFinal(st, next, ops[1..], i - 1, j - 1);
    }
  }

  lemma {:induction false} NothingAcknowledged(ops: seq<Op>, outcomes: seq<Option<JournalError>>)
    requires |ops| == |outcomes| && forall i | 0 <= i < |ops| && ops[i].Write? :: outcomes[i].Some?
    ensures Acknowledged(ops, outcomes) == []
  {
    if ops != [] {
      assert forall i | 0 <= i < |ops[1..]| :: ops[1..][i] == ops[i + 1] && outcomes[1..][i] == outcomes[i + 1];
      NothingAcknowledged(ops[1..], outcomes[1..]);
    }
  }

  lemma OwnOfCons(d: Draft, ds: seq<Draft>, connection: ID)
    ensures Own([d] + ds, connection) == (if d.connection == connection then [d] else []) + Own(ds, connection)
  {
    assert ([d] + ds)[1..] == ds;
  }

  /** In every run, however the connections' calls interleave, what was
      acknowledged to one of them is a front part of what it asked for: its
      calls succeed up to some point and are all refused from there on. */
  lemma {:induction false} AcknowledgedIsAFront(st: Settings, log: Log, ops: seq<Op>, connection: ID) returns (k: nat)
    requires log.files != [] && AllWellFormed(ops)
    ensures k <= |CallsOf(ops, connection)|
    ensures Own(Acknowledged(ops, Run(st, log, ops).1), connection) == CallsOf(ops, connection)[..k]
    ensures Served(ops, Run(st, log, ops).1, connection) ==> k == |CallsOf(ops, connection)|
    decreases |ops|
  {
    hide Apply, Dead, WellFormed;
    if ops == [] {
      return 0;
    }
    RunUnfolds(st, log, ops);
    var (next, outcome) := Apply(st, log, ops[0]);
    assert forall i | 0 <= i < |ops[1..]| :: ops[1..][i] == ops[i + 1];
    var outcomes := Run(st, log, ops).1;
    if ops[0].Write? && outcome.Some? {
      RefusalKills(st, log, ops[0]);
      DeadRefusesAll(st, next, ops[1..]);
      NothingAcknowledged(ops, outcomes);
      if Served(ops, outcomes, connection) {
        NoCalls(ops, outcomes, connection);
      }
      return 0;
    }
    k := AcknowledgedIsAFront(st, next, ops[1..], connection);
    var calls := CallsOf(ops[1..], connection);
    var rest := Acknowledged(ops[1..], outcomes[1..]);
    assert [] + calls == calls && [] + rest == rest;
    if ops[0].Write? {
      OwnOfCons(ops[0].draft, rest, connection);
      if ops[0].draft.connection == connection {
        assert ([ops[0].draft] + calls)[..k + 1] == [ops[0].draft] + calls[..k];
        k := k + 1;
      }
    }
  }

  lemma {:induction false} NoCalls(ops: seq<Op>, outcomes: seq<Option<JournalError>>, connection: ID)
    requires |ops| == |outcomes| && Served(ops, outcomes, connection)
    requires forall i | 0 <= i < |ops| && ops[i].Write? :: outcomes[i].Some?
    ensures CallsOf(ops, connection) == []
  {
    if ops != [] {
      assert forall i | 0 <= i < |ops[1..]| :: ops[1..][i] == ops[i + 1] && outcomes[1..][i] == outcomes[i + 1];
      NoCalls(ops[1..], outcomes[1..], connection);
    }
  }

  /** A connection all of whose calls succeeded finds exactly its calls in the journal, whatever became of the others. */
  lemma {:induction false} ServedIsRecorded(ops: seq<Op>, outcomes: seq<Option<JournalError>>, connection: ID)
    requires |ops| == |outcomes| && Served(ops, outcomes, connection)
    ensures Own(Acknowledged(ops, outcomes), connection) == CallsOf(ops, connection)
  {
    if ops != [] {
      var rest := Acknowledged(ops[1..], outcomes[1..]);
      assert forall i | 0 <= i < |ops[1..]| :: ops[1..][i] == ops[i + 1] && outcomes[1..][i] == outcomes[i + 1];
      ServedIsRecorded(ops[1..], outcomes[1..], connection);
      if ops[0].Write? && outcomes[0].None? {
        OwnOfCons(ops[0].draft, rest, connection);
      } else {
        assert [] + rest == rest;
      }
    }
  }

  lemma {:induction false} OwnSnoc(ds: seq<Draft>, d: Draft, connection: ID)
    ensures Own(ds + [d], connection) == Own(ds, connection) + if d.connection == connection then [d] else []
  {
    if ds == [] {
      assert [] + [d] == [d] && [d][1..] == [];
    } else {
      assert (ds + [d])[1..] == ds[1..] + [d];
      OwnSnoc(ds[1..], d, connection);
      Assoc(if ds[0].connection == connection then [ds[0]] else [], Own(ds[1..], connection),
            if d.connection == connection then [d] else []);
    }
  }

  /** Other connections' records contribute nothing to a connection's streams. */
  lemma {:induction false} DataIsOwn(ds: seq<Draft>, connection: ID, direction: byte)
    ensures DataOf(ds, connection, direction) == DataOf(Own(ds, connection), connection, direction)
  {
    if ds != [] {
      var front, d := ds[..|ds| - 1], ds[|ds| - 1];
      DataIsOwn(front, connection, direction);
      OwnSnoc(front, d, connection);
      assert ds == front + [d];
      var own := Own(front, connection);
      if d.connection == connection {
        assert (own + [d])[..|own + [d]| - 1] == own;
      } else {
        assert own + [] == own;
      }
    }
  }

  // ---------- what each connection learns of a run ----------

  /** The calls of one connection and their outcomes, as its handle takes them in. */
  function ViewOf(ops: seq<Op>, outcomes: seq<Option<JournalError>>, connection: ID): View
    requires |ops| == |outcomes|
  {
    if ops == [] then NOTHING_SEEN
    else
      var n := |ops| - 1;
      var before := ViewOf(ops[..n], outcomes[..n], connection);
      if ops[n].Write? && ops[n].draft.connection == connection then AfterCall(before, ops[n].draft, outcomes[n].None?)
      else before
  }

  /** A refused call of this connection that was to carry outbound data. */
  ghost predicate OutRefusedAt(ops: seq<Op>, outcomes: seq<Option<JournalError>>, connection: ID, i: nat)
    requires |ops| == |outcomes|
  {
    i < |ops| && ops[i].Write? && ops[i].draft.connection == connection && CarriesOut(ops[i].draft) && outcomes[i].Some?
  }

  /** A connection's calls up to its first refusal: what was acknowledged to
      it, and the call that was not. */
  ghost predicate Fits(ops: seq<Op>, outcomes: seq<Option<JournalError>>, connection: ID, v: View)
    requires |ops| == |outcomes|
  {
    && v.trace == Own(Acknowledged(ops, outcomes), connection)
    && (v.refused.None? <==> Served(ops, outcomes, connection))
    && (v.refused.None? ==> v.trace == CallsOf(ops, connection))
    && (v.refused.Some? ==>
          && |v.trace| < |CallsOf(ops, connection)| && CallsOf(ops, connection)[|v.trace|] == v.refused.value
          && v.trace == CallsOf(ops, connection)[..|v.trace|])
    && (v.outRefused <==> exists i: nat :: OutRefusedAt(ops, outcomes, connection, i))
  }

  /** A refusal is final for everyone. */
  ghost predicate Monotone(ops: seq<Op>, outcomes: seq<Option<JournalError>>)
    requires |ops| == |outcomes|
  {
    forall i, j | 0 <= i <= j < |ops| && ops[i].Write? && ops[j].Write? && outcomes[i].Some? :: outcomes[j].Some?
  }

  lemma {:induction false} AcknowledgedSnoc(ops: seq<Op>, outcomes: seq<Option<JournalError>>)
    requires |ops| == |outcomes| > 0
    ensures var n := |ops| - 1;
            Acknowledged(ops, outcomes)
            == Acknowledged(ops[..n], outcomes[..n]) + if ops[n].Write? && outcomes[n].None? then [ops[n].draft] else []
  {
    var n := |ops| - 1;
    if n > 0 {
      AcknowledgedSnoc(ops[1..], outcomes[1..]);
      assert ops[1..][..n - 1] == ops[..n][1..] && outcomes[1..][..n - 1] == outcomes[..n][1..];
      Assoc(if ops[0].Write? && outcomes[0].None? then [ops[0].draft] else [], Acknowledged(ops[..n][1..], outcomes[..n][1..]),
            if ops[n].Write? && outcomes[n].None? then [ops[n].draft] else []);
    } else {
      assert ops[1..] == [] && outcomes[1..] == [];
    }
  }

  lemma {:induction false} CallsSnoc(ops: seq<Op>, connection: ID)
    requires ops != []
    ensures var n := |ops| - 1;
            CallsOf(ops, connection)
            == CallsOf(ops[..n], connection) + if ops[n].Write? && ops[n].draft.connection == connection then [ops[n].draft] else []
  {
    var n := |ops| - 1;
    if n > 0 {
      CallsSnoc(ops[1..], connection);
      assert ops[1..][..n - 1] == ops[..n][1..];
      Assoc(if ops[0].Write? && ops[0].draft.connection == connection then [ops[0].draft] else [], CallsOf(ops[..n][1..], connection),
            if ops[n].Write? && ops[n].draft.connection == connection then [ops[n].draft] else []);
    } else {
      assert ops[1..] == [];
    }
  }

  lemma {:induction false} ViewFits(ops: seq<Op>, outcomes: seq<Option<JournalError>>, connection: ID)
    requires |ops| == |outcomes| && Monotone(ops, outcomes)
    ensures Fits(ops, outcomes, connection, ViewOf(ops, outcomes, connection))
  {
    if ops != [] {
      var n := |ops| - 1;
      ViewFits(ops[..n], outcomes[..n], connection);
      FitsOneMore(ops, outcomes, connection, ViewOf(ops[..n], outcomes[..n], connection));
    }
  }

  lemma FitsOneMore(ops: seq<Op>, outcomes: seq<Option<JournalError>>, connection: ID, v: View)
    requires |ops| == |outcomes| > 0 && Monotone(ops, outcomes)
    requires Fits(ops[..|ops| - 1], outcomes[..|ops| - 1], connection, v)
    ensures var n := |ops| - 1;
            var after := if ops[n].Write? && ops[n].draft.connection == connection then AfterCall(v, ops[n].draft, outcomes[n].None?)
                         else v;
            Fits(ops, outcomes, connection, after)
  {
    hide Acknowledged, Own, CallsOf;
    var n := |ops| - 1;
    AcknowledgedSnoc(ops, outcomes);
    CallsSnoc(ops, connection);
    var acked := Acknowledged(ops[..n], outcomes[..n]);
    if ops[n].Write? && outcomes[n].None? {
      OwnSnoc(acked, ops[n].draft, connection);
    }
    assert acked + [] == acked && v.trace + [] == v.trace && CallsOf(ops[..n], connection) + [] == CallsOf(ops[..n], connection);
    OutRefusedSnoc(ops, outcomes, connection);
    ServedSnoc(ops, outcomes, connection);
  }

  lemma OutRefusedSnoc(ops: seq<Op>, outcomes: seq<Option<JournalError>>, connection: ID)
    requires |ops| == |outcomes| > 0
    ensures var n := |ops| - 1;
            (exists i: nat :: OutRefusedAt(ops, outcomes, connection, i))
            <==> OutRefusedAt(ops, outcomes, connection, n) || exists i: nat :: OutRefusedAt(ops[..n], outcomes[..n], connection, i)
  {
    var n := |ops| - 1;
    forall i: nat | i < n
      ensures OutRefusedAt(ops, outcomes, connection, i) <==> OutRefusedAt(ops[..n], outcomes[..n], connection, i)
    {
    }
  }

  /** A connection that was refused once is refused again. */
  lemma ServedSnoc(ops: seq<Op>, outcomes: seq<Option<JournalError>>, connection: ID)
    requires |ops| == |outcomes| > 0 && Monotone(ops, outcomes)
    ensures var n := |ops| - 1;
            && (Served(ops, outcomes, connection)
                <==> Served(ops[..n], outcomes[..n], connection)
                     && (ops[n].Write? && ops[n].draft.connection == connection ==> outcomes[n].None?))
            && (!Served(ops[..n], outcomes[..n], connection) && ops[n].Write? ==> outcomes[n].Some?)
  {
    var n := |ops| - 1;
    assert forall i | 0 <= i < n :: ops[..n][i] == ops[i] && outcomes[..n][i] == outcomes[i];
  }

  lemma RunIsMonotone(st: Settings, log: Log, ops: seq<Op>)
    requires log.files != [] && AllWellFormed(ops)
    ensures Monotone(ops, Run(st, log, ops).1)
  {
    forall i, j | 0 <= i <= j < |ops| && ops[i].Write? && ops[j].Write? && Run(st, log, ops).1[i].Some?
      ensures Run(st, log, ops).1[j].Some?
    {
      RefusalIsFinal(st, log, ops, i, j);
    }
  }

  /** Every connection of every run has such a view of it: a front of its calls
      was acknowledged, the next one was its first to be refused. */
  lemma EveryConnectionIsSeen(st: Settings, log: Log, ops: seq<Op>, connection: ID)
    requires log.files != [] && AllWellFormed(ops)
    ensures Fits(ops, Run(st, log, ops).1, connection, ViewOf(ops, Run(st, log, ops).1, connection))
  {
    RunIsMonotone(st, log, ops);
    ViewFits(ops, Run(st, log, ops).1, connection);
  }
}
