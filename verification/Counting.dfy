/** How far a set of concurrent activities still has to go: each one is at a
    stage, and stages only rise. */
module Counting {

  lemma OneMember<T>(before: set<T>, after: set<T>, t: T)
    requires after - {t} == before - {t}
    ensures |after| == |before| + (if t in after then 1 else 0) - (if t in before then 1 else 0)
  {
    var rest := before - {t};
    assert before == rest + if t in before then {t} else {};
    assert after == rest + if t in after then {t} else {};
  }

  ghost function AtMost(stages: map<nat, nat>, k: nat): set<nat> {
    set c | c in stages && stages[c] <= k
  }

  /** The stages up to `top` still to be climbed, over all activities. */
  ghost function Distance(stages: map<nat, nat>, top: nat): nat {
    if top == 0 then 0 else Distance(stages, top - 1) + |AtMost(stages, top - 1)|
  }

  /** One activity that rises by some stages brings the whole that much closer. */
  lemma {:induction false} RisingCounts(stages: map<nat, nat>, c: nat, stage: nat, top: nat)
    requires c in stages && stages[c] <= stage
    ensures Distance(stages[c := stage], top)
            == Distance(stages, top) - (if stage <= top then stage - stages[c] else if stages[c] <= top then top - stages[c] else 0)
  {
    if top > 0 {
      RisingCounts(stages, c, stage, top - 1);
      OneMember(AtMost(stages, top - 1), AtMost(stages[c := stage], top - 1), c);
    }
  }

  /** A new activity adds its own distance. */
  lemma {:induction false} ArrivingCounts(stages: map<nat, nat>, c: nat, stage: nat, top: nat)
    requires c !in stages && stage <= top
    ensures Distance(stages[c := stage], top) == Distance(stages, top) + (top - stage)
    decreases top
  {
    if top > stage {
      ArrivingCounts(stages, c, stage, top - 1);
      OneMember(AtMost(stages, top - 1), AtMost(stages[c := stage], top - 1), c);
    } else {
      ArrivingLate(stages, c, stage, top);
    }
  }

  lemma {:induction false} ArrivingLate(stages: map<nat, nat>, c: nat, stage: nat, top: nat)
    requires c !in stages && stage >= top
    ensures Distance(stages[c := stage], top) == Distance(stages, top)
  {
    if top > 0 {
      ArrivingLate(stages, c, stage, top - 1);
      assert AtMost(stages[c := stage], top - 1) == AtMost(stages, top - 1);
    }
  }
}
