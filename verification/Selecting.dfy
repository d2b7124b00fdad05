/** The per-connection route counters and the choice of a response
    (RouteState and SelectResponse, internal/engine/router.go). */
module Selecting {
  import opened Wrappers
  import opened Bytes
  import opened Headers
  import opened Rendering
  import opened Routes

  class RouteState {
    var counts: map<Bytes, int>
    ghost var history: seq<Request>

    constructor ()
      ensures counts == map[] && history == []
    {
      counts, history := map[], [];
    }

    /** Every route's counter is the number of requests that matched it. */
    ghost predicate CountsFor(s: Service)
      reads this
    {
      forall i | 0 <= i < |s.routes| :: CounterAgrees(counts, history, s.routes[i])
    }
  }

  function Counter(counts: map<Bytes, int>, key: Bytes): int {
    if key in counts then counts[key] else 0
  }

  predicate CounterAgrees(counts: map<Bytes, int>, history: seq<Request>, route: RouteConfig) {
    Counter(counts, RouteKey(route.verb, route.path)) == Count(history, Request(route.verb, route.path))
  }

  lemma CountersStart(s: Service, state: RouteState)
    requires state.counts == map[] && state.history == []
    ensures state.CountsFor(s)
  {
  }

  /** Counting one match of route `i` keeps every route's counter right. */
  lemma CountersAdvance(s: Service, limit: int, counts: map<Bytes, int>, history: seq<Request>, i: nat)
    requires ValidService(s, limit) && i < |s.routes|
    requires forall j | 0 <= j < |s.routes| :: CounterAgrees(counts, history, s.routes[j])
    ensures var r := Request(s.routes[i].verb, s.routes[i].path);
            var key := RouteKey(r.verb, r.path);
            forall j | 0 <= j < |s.routes| :: CounterAgrees(counts[key := Counter(counts, key) + 1], history + [r], s.routes[j])
  {
    hide ValidResponses, PathAllowed, AllTokenBytes, RouteKey, Count;
    var r := Request(s.routes[i].verb, s.routes[i].path);
    forall j | 0 <= j < |s.routes|
      ensures CounterAgrees(counts[RouteKey(r.verb, r.path) := Counter(counts, RouteKey(r.verb, r.path)) + 1],
                            history + [r], s.routes[j])
    {
      assert ValidRoute(s.routes[i], limit) && ValidRoute(s.routes[j], limit);
      var other := Request(s.routes[j].verb, s.routes[j].path);
      CountAfter(history, r, other);
      if RouteKey(r.verb, r.path) == RouteKey(other.verb, other.path) {
        RouteKeyIsInjective(r.verb, r.path, other.verb, other.path);
      }
    }
  }

  /** An unmatched request is counted nowhere. */
  lemma CountersIgnore(s: Service, counts: map<Bytes, int>, history: seq<Request>, r: Request)
    requires forall j | 0 <= j < |s.routes| :: CounterAgrees(counts, history, s.routes[j]) && !Matches(s.routes[j], r)
    ensures forall j | 0 <= j < |s.routes| :: CounterAgrees(counts, history + [r], s.routes[j])
  {
    hide RouteKey, Count;
    forall j | 0 <= j < |s.routes|
      ensures CounterAgrees(counts, history + [r], s.routes[j])
    {
      CountAfter(history, r, Request(s.routes[j].verb, s.routes[j].path));
    }
  }

  /** The first response with this number, then the first default. */
  method ChooseResponse(responses: seq<ResponseConfig>, ordinal: int) returns (chosen: nat, numbered: bool)
    requires Defaults(responses) == 1
    ensures chosen < |responses|
    ensures numbered <==> SomeNumber(responses, ordinal)
    ensures if numbered then HasNumber(responses[chosen], ordinal) else responses[chosen].isDefault
  {
    var j := 0;
    while j < |responses|
      invariant j <= |responses|
      invariant forall m | 0 <= m < j :: !HasNumber(responses[m], ordinal)
    {
      if HasNumber(responses[j], ordinal) {
        return j, true;
      }
      j := j + 1;
    }
    DefaultIsConfigured(responses);
    j := 0;
    while !responses[j].isDefault
      invariant j < |responses|
      invariant forall m | 0 <= m < j :: !responses[m].isDefault
      decreases |responses| - j
    {
      j := j + 1;
    }
    return j, false;
  }

  lemma OrdinalCounts(counts: map<Bytes, int>, history: seq<Request>, route: RouteConfig)
    requires CounterAgrees(counts, history, route)
    ensures Counter(counts, RouteKey(route.verb, route.path)) == Count(history, Request(route.verb, route.path))
  {
  }

  lemma ResponsesHaveDefault(route: RouteConfig, limit: int)
    requires ValidResponses(route, limit)
    ensures Defaults(route.responses) == 1
  {
    hide ValidResponse;
  }

  lemma FallbackHeadersAreValid(s: Service, limit: int)
    requires ValidService(s, limit)
    ensures ValidHeaders(s.fallback.headers)
  {
    hide ValidHeaders;
  }

  /** The first matching route counts the request and answers it by number. */
  method SelectFromRoute(s: Service, ghost limit: int, r: Request, state: RouteState, close: bool, i: nat) returns (sel: Selection)
    requires ValidService(s, limit) && state.CountsFor(s)
    requires i < |s.routes| && Matches(s.routes[i], r) && forall m | 0 <= m < i :: !Matches(s.routes[m], r)
    modifies state
    ensures state.CountsFor(s) && state.history == old(state.history) + [r]
    ensures Promised(s, old(state.history), r, close, sel)
  {
    hide ValidHeaders, ResponsePlan, FallbackPlan, ValidResponses, HasNumber, CounterAgrees;
    ghost var before := state.history;
    var route := s.routes[i];
    var key := RouteKey(route.verb, route.path);
    var ordinal := Counter(state.counts, key) + 1;
    OrdinalCounts(state.counts, before, route);
    CountersAdvance(s, limit, state.counts, before, i);
    state.counts := state.counts[key := ordinal];
    state.history := state.history + [r];
    assert ValidRoute(route, limit);
    ChoiceExistsAndIsUnique(route, limit, ordinal);
    ResponsesHaveDefault(route, limit);
    var chosen, numbered := ChooseResponse(route.responses, ordinal);
    ResponseHeadersAreValid(route, limit, chosen);
    var plan := PlanFromResponse(s.defaultHeaders, route.responses[chosen], close);
    sel := Selection(Some(i), if numbered then RouteSequence else RouteDefault,
                     if numbered then Some(ordinal) else None, plan);
  }

  /** Every request is answered as the configuration promises, given all the
      requests before it on the connection. */
  method SelectResponse(s: Service, ghost limit: int, r: Request, state: RouteState, close: bool) returns (sel: Selection)
    requires ValidService(s, limit) && state.CountsFor(s)
    modifies state
    ensures state.CountsFor(s) && state.history == old(state.history) + [r]
    ensures Promised(s, old(state.history), r, close, sel)
  {
    hide ValidHeaders, ResponsePlan, FallbackPlan, ValidResponses, HasNumber, CounterAgrees;
    ghost var before := state.history;
    var i := 0;
    while i < |s.routes|
      invariant i <= |s.routes|
      invariant forall m | 0 <= m < i :: !Matches(s.routes[m], r)
    {
      if Matches(s.routes[i], r) {
        sel := SelectFromRoute(s, limit, r, state, close, i);
        return;
      }
      i := i + 1;
    }
    CountersIgnore(s, state.counts, before, r);
    state.history := state.history + [r];
    FallbackHeadersAreValid(s, limit);
    var plan := PlanFromFallback(s.defaultHeaders, s.fallback, close);
    sel := Selection(None, ServiceDefault, None, plan);
  }
}
