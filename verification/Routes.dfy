/** Configured routes: what validation accepts, and which response a request
    gets (internal/config/validate.go, internal/engine/router.go). */
module Routes {
  import opened Wrappers
  import opened Bytes
  import opened Sorting
  import opened Headers
  import opened Rendering

  datatype ChunkConfig = ChunkConfig(delay: int, body: Option<Bytes>)

  /** `number` is meaningful when the response is not the default. */
  datatype ResponseConfig = ResponseConfig(isDefault: bool, number: int, status: nat, headers: HeaderMap, mode: Mode,
                                           delay: int, body: Option<Bytes>, chunks: seq<ChunkConfig>)

  datatype RouteConfig = RouteConfig(verb: Bytes, path: Bytes, classification: Bytes, responses: seq<ResponseConfig>)

  datatype Fallback = Fallback(status: nat, headers: HeaderMap, delay: int, body: Option<Bytes>)

  datatype Service = Service(defaultHeaders: HeaderMap, routes: seq<RouteConfig>, fallback: Fallback)

  const MAX_DELAY: int := 86400 * 1000
  const MAX_CHUNKS: nat := 4096
  const MAX_RESPONSES: nat := 64
  const MAX_ROUTES: nat := 1024
  const MAX_FIXTURE_BYTES: nat := 64 * 1024 * 1024
  const MAX_METHOD_BYTES: nat := 32
  const MAX_PATH_BYTES: nat := 4096
  const MAX_CLASSIFICATION_BYTES: nat := 128

  // ---------- one response ----------

  predicate StatusAllowed(verb: Bytes, status: nat) {
    200 <= status <= 599 && !(EqualFold(verb, Text("CONNECT")) && status < 300)
  }

  predicate DelayAllowed(delay: int) {
    0 <= delay <= MAX_DELAY
  }

  function ChunkTotal(chunks: seq<ChunkConfig>): nat {
    if chunks == [] then 0
    else ChunkTotal(chunks[..|chunks| - 1]) + match chunks[|chunks| - 1].body case Some(b) => |b| case None => 0
  }

  predicate ChunksAllowed(chunks: seq<ChunkConfig>, limit: int) {
    && 1 <= |chunks| <= MAX_CHUNKS
    && (forall i | 0 <= i < |chunks| :: DelayAllowed(chunks[i].delay) && chunks[i].body.Some?)
    && ChunkTotal(chunks) <= limit
  }

  ghost predicate ValidResponse(verb: Bytes, r: ResponseConfig, limit: int) {
    && StatusAllowed(verb, r.status)
    && ValidHeaders(r.headers)
    && DelayAllowed(r.delay)
    && r.mode != Unknown
    && (if r.status == 204 || r.status == 304 then r.body.None? && r.chunks == [] && r.mode != Ndjson
        else if r.mode != Ndjson then r.chunks == [] && r.body.Some? && |r.body.value| <= limit
        else r.body.None? && ChunksAllowed(r.chunks, limit))
  }

  /** The configured bytes of a response. */
  function FixtureBytes(r: ResponseConfig): nat {
    if r.status == 204 || r.status == 304 then 0
    else if r.mode == Ndjson then ChunkTotal(r.chunks)
    else |BodyOf(r.body)|
  }

  const EMPTY_INSIDE: seq<ChunkConfig> := [ChunkConfig(0, Some([97])), ChunkConfig(0, Some([])), ChunkConfig(0, Some([98]))]

  lemma EmptyInsideIsShort()
    ensures ChunkTotal(EMPTY_INSIDE) == 2
  {
    var one := [EMPTY_INSIDE[0]];
    var two := one + [EMPTY_INSIDE[1]];
    assert one[..0] == [] && two[..1] == one && EMPTY_INSIDE[..2] == two;
    assert ChunkTotal(one) == 1;
    assert ChunkTotal(two) == 1;
  }

  /** A streamed default response with an empty chunk in its middle. */
  function EmptyInside(): ResponseConfig {
    ResponseConfig(true, 0, 200, map[], Ndjson, 0, None, EMPTY_INSIDE)
  }

  /** Validation accepts it. */
  lemma EmptyChunkIsValid(limit: int)
    requires limit >= 2
    ensures ValidResponse(Text("GET"), EmptyInside(), limit)
  {
    hide ChunkTotal, NoFoldedDuplicates, NameAllowed, ValueAllowed, EqualFold;
    EmptyInsideIsShort();
    NoHeadersAreValid();
    assert EMPTY_INSIDE[0].body.Some? && EMPTY_INSIDE[1].body.Some? && EMPTY_INSIDE[2].body.Some?;
    GetIsNotConnect();
  }

  lemma NoHeadersAreValid()
    ensures ValidHeaders(map[])
  {
  }

  lemma GetIsNotConnect()
    ensures !EqualFold(Text("GET"), Text("CONNECT"))
  {
  }

  /** The checks of one response; the number of fixture bytes when it passes. */
  method ValidateResponse(verb: Bytes, r: ResponseConfig, limit: int) returns (bytes: Option<nat>)
    ensures bytes.Some? <==> ValidResponse(verb, r, limit)
    ensures bytes.Some? ==> bytes.value == FixtureBytes(r)
  {
    hide ValidHeaders, StatusAllowed, DelayAllowed;
    if !StatusAllowed(verb, r.status) {
      return None;
    }
    var headersOk := ValidateHeaders(r.headers);
    if !headersOk || !DelayAllowed(r.delay) || r.mode == Unknown {
      return None;
    }
    if r.status == 204 || r.status == 304 {
      return if r.body.Some? || r.chunks != [] || r.mode == Ndjson then None else Some(0);
    }
    if r.mode != Ndjson {
      return if r.chunks != [] || r.body.None? || |r.body.value| > limit then None else Some(|r.body.value|);
    }
    if r.body.Some? || |r.chunks| == 0 || |r.chunks| > MAX_CHUNKS {
      return None;
    }
    var total: nat := 0;
    var i := 0;
    while i < |r.chunks|
      invariant i <= |r.chunks|
      invariant total == ChunkTotal(r.chunks[..i]) && (i == 0 || total <= limit)
      invariant forall j | 0 <= j < i :: DelayAllowed(r.chunks[j].delay) && r.chunks[j].body.Some?
    {
      if !DelayAllowed(r.chunks[i].delay) || r.chunks[i].body.None? {
        return None;
      }
      assert r.chunks[..i + 1][..i] == r.chunks[..i];
      total := total + |r.chunks[i].body.value|;
      if total > limit {
        ChunkTotalGrows(r.chunks, i + 1);
        return None;
      }
      i := i + 1;
    }
    assert r.chunks[..i] == r.chunks;
    return Some(total);
  }

  lemma {:induction false} ChunkTotalGrows(chunks: seq<ChunkConfig>, i: nat)
    requires i <= |chunks|
    ensures ChunkTotal(chunks[..i]) <= ChunkTotal(chunks)
    decreases |chunks| - i
  {
    if i == |chunks| {
      assert chunks[..i] == chunks;
    } else {
      assert chunks[..i + 1][..i] == chunks[..i];
      ChunkTotalGrows(chunks, i + 1);
    }
  }

  ghost predicate ValidFallback(f: Fallback, limit: int) {
    && StatusAllowed([], f.status)
    && ValidHeaders(f.headers)
    && DelayAllowed(f.delay)
    && (if f.status == 204 || f.status == 304 then f.body.None? else f.body.Some? && |f.body.value| <= limit)
  }

  function FallbackBytes(f: Fallback): nat {
    if f.status == 204 || f.status == 304 then 0 else |BodyOf(f.body)|
  }

  method ValidateFallback(f: Fallback, limit: int) returns (bytes: Option<nat>)
    ensures bytes.Some? <==> ValidFallback(f, limit)
    ensures bytes.Some? ==> bytes.value == FallbackBytes(f)
  {
    hide ValidHeaders;
    var headersOk := ValidateHeaders(f.headers);
    if !StatusAllowed([], f.status) || !headersOk || !DelayAllowed(f.delay) {
      return None;
    }
    if f.status == 204 || f.status == 304 {
      return if f.body.Some? then None else Some(0);
    }
    return if f.body.None? || |f.body.value| > limit then None else Some(|f.body.value|);
  }

  // ---------- the responses of a route ----------

  function Defaults(rs: seq<ResponseConfig>): nat {
    if rs == [] then 0 else Defaults(rs[..|rs| - 1]) + if rs[|rs| - 1].isDefault then 1 else 0
  }

  /** The numbers of the non-default responses, as configured. */
  function Numbers(rs: seq<ResponseConfig>): seq<int> {
    if rs == [] then []
    else Numbers(rs[..|rs| - 1]) + if rs[|rs| - 1].isDefault then [] else [rs[|rs| - 1].number]
  }

  predicate IntLess(a: int, b: int) {
    a < b
  }

  function SortInts(xs: seq<int>): seq<int> {
    SortBy(IntLess, xs)
  }

  predicate Contiguous(xs: seq<int>) {
    forall i | 0 <= i < |xs| :: xs[i] == i + 1
  }

  /** Each of 1..N exactly once, nothing else. */
  ghost predicate EachOnce(xs: seq<int>) {
    forall n :: multiset(xs)[n] == if 1 <= n <= |xs| then 1 else 0
  }

  ghost predicate SortedInts(xs: seq<int>) {
    forall i, j | 0 <= i < j < |xs| :: xs[i] <= xs[j]
  }

  lemma SortIntsSorts(xs: seq<int>)
    ensures SortedInts(SortInts(xs)) && multiset(SortInts(xs)) == multiset(xs) && |SortInts(xs)| == |xs|
  {
    SortSorts(IntLess, xs);
    var sorted := SortInts(xs);
    assert forall i, j | 0 <= i < j < |sorted| :: !IntLess(sorted[j], sorted[i]);
  }

  function UpTo(n: nat): (xs: seq<int>)
    ensures |xs| == n
  {
    if n == 0 then [] else UpTo(n - 1) + [n]
  }

  lemma {:induction false} UpToEachOnce(n: nat)
    ensures EachOnce(UpTo(n)) && Contiguous(UpTo(n))
  {
    if n > 0 {
      UpToEachOnce(n - 1);
      var front := UpTo(n - 1);
      assert multiset(UpTo(n)) == multiset(front) + multiset{n as int};
      forall m
        ensures multiset(UpTo(n))[m] == if 1 <= m <= n then 1 else 0
      {
        assert multiset(UpTo(n))[m] == multiset(front)[m] + if m == n then 1 else 0;
      }
    }
  }

  lemma LastIsLargest(xs: seq<int>)
    requires SortedInts(xs) && EachOnce(xs) && xs != []
    ensures xs[|xs| - 1] == |xs|
  {
    var n := |xs|;
    var last := xs[n - 1];
    assert multiset(xs)[n] == 1;
    assert n in xs;
    var i :| 0 <= i < n && xs[i] == n;
    assert multiset(xs)[last] > 0;
  }

  lemma FrontHasEachOnce(front: seq<int>)
    requires EachOnce(front + [|front| + 1])
    ensures EachOnce(front)
  {
    var xs := front + [|front| + 1];
    forall m
      ensures multiset(front)[m] == if 1 <= m <= |front| then 1 else 0
    {
      assert multiset(xs)[m] == multiset(front)[m] + if m == |front| + 1 then 1 else 0;
    }
  }

  lemma {:induction false} SortedDistinctIsContiguous(xs: seq<int>)
    requires SortedInts(xs) && EachOnce(xs)
    ensures Contiguous(xs)
  {
    if xs != [] {
      var front := xs[..|xs| - 1];
      LastIsLargest(xs);
      assert xs == front + [|xs|];
      FrontHasEachOnce(front);
      SortedDistinctIsContiguous(front);
    }
  }

  /** The sorted numbers are 1, 2, ... N exactly when each of them was configured exactly once. */
  lemma SortedContiguousMeansEachOnce(xs: seq<int>)
    ensures Contiguous(SortInts(xs)) <==> EachOnce(xs)
  {
    SortIntsSorts(xs);
    if Contiguous(SortInts(xs)) {
      UpToEachOnce(|xs|);
      assert SortInts(xs) == UpTo(|xs|);
    } else if EachOnce(xs) {
      SortedDistinctIsContiguous(SortInts(xs));
    }
  }

  ghost predicate ValidResponses(route: RouteConfig, limit: int) {
    && (forall i | 0 <= i < |route.responses| :: ValidResponse(route.verb, route.responses[i], limit))
    && Defaults(route.responses) == 1
    && EachOnce(Numbers(route.responses))
  }

  function ResponsesBytes(rs: seq<ResponseConfig>): nat {
    if rs == [] then 0 else ResponsesBytes(rs[..|rs| - 1]) + FixtureBytes(rs[|rs| - 1])
  }

  method ValidateRouteResponses(route: RouteConfig, limit: int) returns (total: Option<nat>)
    ensures total.Some? <==> ValidResponses(route, limit)
    ensures total.Some? ==> total.value == ResponsesBytes(route.responses)
  {
    hide ValidResponse, EachOnce, FixtureBytes;
    var sum: nat := 0;
    var defaultCount := 0;
    var numbers: seq<int> := [];
    var i := 0;
    while i < |route.responses|
      invariant i <= |route.responses|
      invariant defaultCount == Defaults(route.responses[..i]) && numbers == Numbers(route.responses[..i])
      invariant sum == ResponsesBytes(route.responses[..i])
      invariant forall j | 0 <= j < i :: ValidResponse(route.verb, route.responses[j], limit)
    {
      assert route.responses[..i + 1][..i] == route.responses[..i];
      if route.responses[i].isDefault {
        defaultCount := defaultCount + 1;
      } else {
        numbers := numbers + [route.responses[i].number];
      }
      var bytes := ValidateResponse(route.verb, route.responses[i], limit);
      if bytes.None? {
        return None;
      }
      sum := sum + bytes.value;
      i := i + 1;
    }
    assert route.responses[..i] == route.responses;
    if defaultCount != 1 {
      return None;
    }
    SortedContiguousMeansEachOnce(numbers);
    numbers := SortInts(numbers);
    i := 0;
    while i < |numbers|
      invariant i <= |numbers|
      invariant forall j | 0 <= j < i :: numbers[j] == j + 1
    {
      if numbers[i] != i + 1 {
        return None;
      }
      i := i + 1;
    }
    return Some(sum);
  }

  // ---------- the routes of a service ----------

  predicate PathBytesAllowed(path: Bytes) {
    path == [42] || (forall c | c in path :: c > 32 && c != 127 && c != 63 && c != 35)
  }

  predicate PathAllowed(path: Bytes) {
    |path| <= MAX_PATH_BYTES && (path == [] || path == [42] || path[0] == 47) && PathBytesAllowed(path)
  }

  predicate VerbAllowed(verb: Bytes) {
    |verb| <= MAX_METHOD_BYTES && IsToken(verb)
  }

  /** The joined key of the uniqueness set and of the counters. */
  function RouteKey(verb: Bytes, path: Bytes): Bytes {
    verb + [0] + path
  }

  lemma {:induction false} TokenHasNoZero(s: Bytes)
    requires AllTokenBytes(s)
    ensures 0 !in s
  {
    if s != [] {
      TokenHasNoZero(s[1..]);
      assert s == [s[0]] + s[1..];
    }
  }

  /** A method has no zero byte, so the joined key determines method and path. */
  lemma RouteKeyIsInjective(v1: Bytes, p1: Bytes, v2: Bytes, p2: Bytes)
    requires AllTokenBytes(v1) && AllTokenBytes(v2) && RouteKey(v1, p1) == RouteKey(v2, p2)
    ensures v1 == v2 && p1 == p2
  {
    TokenHasNoZero(v1);
    TokenHasNoZero(v2);
    var k := RouteKey(v1, p1);
    assert k[|v1|] == 0 && k[|v2|] == 0;
    assert forall i | 0 <= i < |v1| :: k[i] == v1[i];
    assert forall i | 0 <= i < |v2| :: k[i] == v2[i];
    assert |v1| == |v2|;
    assert k[..|v1|] == v1 && k[..|v2|] == v2 && k[|v1| + 1..] == p1 && k[|v2| + 1..] == p2;
  }

  ghost predicate ValidRoute(route: RouteConfig, limit: int) {
    && VerbAllowed(route.verb)
    && PathAllowed(route.path)
    && |route.classification| <= MAX_CLASSIFICATION_BYTES
    && 1 <= |route.responses| <= MAX_RESPONSES
    && ValidResponses(route, limit)
  }

  ghost predicate DistinctRoutes(routes: seq<RouteConfig>) {
    forall i, j | 0 <= i < j < |routes| :: routes[i].verb != routes[j].verb || routes[i].path != routes[j].path
  }

  ghost predicate ValidRoutes(routes: seq<RouteConfig>, limit: int) {
    |routes| <= MAX_ROUTES && (forall i | 0 <= i < |routes| :: ValidRoute(routes[i], limit)) && DistinctRoutes(routes)
  }

  ghost predicate ValidService(s: Service, limit: int) {
    ValidHeaders(s.defaultHeaders) && ValidRoutes(s.routes, limit) && ValidFallback(s.fallback, limit)
  }

  function RoutesBytes(routes: seq<RouteConfig>): nat {
    if routes == [] then 0 else RoutesBytes(routes[..|routes| - 1]) + ResponsesBytes(routes[|routes| - 1].responses)
  }

  lemma NoRoutesAreDistinct()
    ensures DistinctRoutes([])
  {
  }

  lemma NotDistinct(routes: seq<RouteConfig>, i: nat)
    requires i <= |routes| && !DistinctRoutes(routes[..i])
    ensures !DistinctRoutes(routes)
  {
  }

  lemma {:induction false} RoutesBytesGrow(routes: seq<RouteConfig>, i: nat)
    requires i <= |routes|
    ensures RoutesBytes(routes[..i]) <= RoutesBytes(routes)
    decreases |routes| - i
  {
    if i == |routes| {
      assert routes[..i] == routes;
    } else {
      assert routes[..i + 1][..i] == routes[..i];
      RoutesBytesGrow(routes, i + 1);
    }
  }

  function KeysOf(routes: seq<RouteConfig>): set<Bytes> {
    if routes == [] then {}
    else KeysOf(routes[..|routes| - 1]) + {RouteKey(routes[|routes| - 1].verb, routes[|routes| - 1].path)}
  }

  lemma {:induction false} KeysAreOfRoutes(routes: seq<RouteConfig>, key: Bytes)
    ensures key in KeysOf(routes) <==> exists j :: 0 <= j < |routes| && key == RouteKey(routes[j].verb, routes[j].path)
  {
    hide RouteKey;
    if routes != [] {
      var front := routes[..|routes| - 1];
      KeysAreOfRoutes(front, key);
      assert forall j | 0 <= j < |front| :: front[j] == routes[j];
    }
  }

  /** A route with a new key is distinct from those before it, and only such a route is. */
  lemma NewKeyIsDistinct(routes: seq<RouteConfig>, route: RouteConfig)
    requires DistinctRoutes(routes) && AllTokenBytes(route.verb) && forall j | 0 <= j < |routes| :: AllTokenBytes(routes[j].verb)
    ensures DistinctRoutes(routes + [route]) <==> RouteKey(route.verb, route.path) !in KeysOf(routes)
  {
    hide RouteKey, AllTokenBytes, KeysOf;
    var all := routes + [route];
    var key := RouteKey(route.verb, route.path);
    KeysAreOfRoutes(routes, key);
    if key in KeysOf(routes) {
      var j :| 0 <= j < |routes| && key == RouteKey(routes[j].verb, routes[j].path);
      RouteKeyIsInjective(route.verb, route.path, routes[j].verb, routes[j].path);
      assert all[j] == routes[j] && all[|routes|] == route;
    } else {
      assert forall j | 0 <= j < |routes| :: RouteKey(routes[j].verb, routes[j].path) != key;
    }
  }

  /** Accepts exactly the valid routes whose fixtures, with the `used` bytes of
      the services before, stay within the limit; the new total. */
  method ValidateRoutes(routes: seq<RouteConfig>, limit: int, used: nat) returns (total: Option<nat>)
    requires used <= MAX_FIXTURE_BYTES
    ensures total.Some? <==> ValidRoutes(routes, limit) && used + RoutesBytes(routes) <= MAX_FIXTURE_BYTES
    ensures total.Some? ==> total.value == used + RoutesBytes(routes)
  {
    hide ValidResponses, PathAllowed, AllTokenBytes, ResponsesBytes, DistinctRoutes, RouteKey;
    if |routes| > MAX_ROUTES {
      return None;
    }
    NoRoutesAreDistinct();
    assert routes[..0] == [];
    var sum := used;
    var seen: set<Bytes> := {};
    var i := 0;
    while i < |routes|
      invariant i <= |routes| && sum == used + RoutesBytes(routes[..i]) <= MAX_FIXTURE_BYTES
      invariant forall j | 0 <= j < i :: ValidRoute(routes[j], limit)
      invariant seen == KeysOf(routes[..i]) && DistinctRoutes(routes[..i])
    {
      var route := routes[i];
      if !VerbAllowed(route.verb) || !PathAllowed(route.path) || |route.classification| > MAX_CLASSIFICATION_BYTES {
        return None;
      }
      var key := RouteKey(route.verb, route.path);
      assert routes[..i + 1] == routes[..i] + [route] && routes[..i + 1][..i] == routes[..i];
      NewKeyIsDistinct(routes[..i], route);
      if key in seen {
        NotDistinct(routes, i + 1);
        return None;
      }
      seen := seen + {key};
      if |route.responses| == 0 || |route.responses| > MAX_RESPONSES {
        return None;
      }
      var bytes := ValidateRouteResponses(route, limit);
      if bytes.None? {
        return None;
      }
      sum := sum + bytes.value;
      if sum > MAX_FIXTURE_BYTES {
        RoutesBytesGrow(routes, i + 1);
        return None;
      }
      i := i + 1;
    }
    assert routes[..i] == routes;
    return Some(sum);
  }

  /** The checks of one service behind those of its listener. */
  method ValidateService(s: Service, limit: int, used: nat) returns (total: Option<nat>)
    requires used <= MAX_FIXTURE_BYTES
    ensures total.Some? <==>
              ValidService(s, limit) && used + RoutesBytes(s.routes) + FallbackBytes(s.fallback) <= MAX_FIXTURE_BYTES
    ensures total.Some? ==> total.value == used + RoutesBytes(s.routes) + FallbackBytes(s.fallback)
  {
    hide ValidHeaders, ValidRoutes, ValidFallback, RoutesBytes, FallbackBytes;
    var headersOk := ValidateHeaders(s.defaultHeaders);
    if !headersOk {
      return None;
    }
    total := ValidateRoutes(s.routes, limit, used);
    if total.None? {
      return;
    }
    var bytes := ValidateFallback(s.fallback, limit);
    if bytes.None? || total.value + bytes.value > MAX_FIXTURE_BYTES {
      return None;
    }
    return Some(total.value + bytes.value);
  }

  /** A service that validation accepts: one route with that response, and a fallback. */
  function SmallService(): Service {
    Service(map[], [RouteConfig(Text("GET"), [47], [], [EmptyInside()])], Fallback(404, map[], 0, Some([])))
  }

  lemma SmallServiceIsValid(limit: int)
    requires limit >= 2
    ensures ValidService(SmallService(), limit)
  {
    hide ValidResponse, ChunkTotal, NoFoldedDuplicates, NameAllowed, ValueAllowed, EqualFold, ToLower;
    EmptyChunkIsValid(limit);
    NoHeadersAreValid();
    GetIsAToken();
    EmptyIsNotConnect();
    var rs := SmallService().routes[0].responses;
    assert rs[..0] == [];
    assert Defaults(rs) == 1 && Numbers(rs) == [];
    assert EachOnce([]);
  }

  lemma GetIsOfTokenBytes()
    ensures TokenByte(71) && TokenByte(69) && TokenByte(84)
  {
  }

  lemma GetIsAToken()
    ensures VerbAllowed(Text("GET"))
  {
    hide TokenByte;
    var get := Text("GET");
    assert get == [71, 69, 84];
    GetIsOfTokenBytes();
    assert [71, 69, 84][1..] == [69, 84] && [69, 84][1..] == [84] && [84][1..] == [];
  }

  lemma EmptyIsNotConnect()
    ensures !EqualFold([], Text("CONNECT"))
  {
  }

  // ---------- choosing a response ----------

  datatype Request = Request(verb: Bytes, path: Bytes)

  datatype Source = RouteSequence | RouteDefault | ServiceDefault

  datatype Selection = Selection(route: Option<nat>, source: Source, sequence: Option<int>, plan: Plan)

  /** How often a request occurred. */
  function Count(history: seq<Request>, r: Request): nat {
    if history == [] then 0 else Count(history[..|history| - 1], r) + if history[|history| - 1] == r then 1 else 0
  }

  predicate Matches(route: RouteConfig, r: Request) {
    route.verb == r.verb && route.path == r.path
  }

  predicate HasNumber(r: ResponseConfig, n: int) {
    !r.isDefault && r.number == n
  }

  /** The decision the configuration promises: the k-th match of a route gets
      the response numbered k while there is one, and the default afterwards. */
  ghost predicate Promised(s: Service, history: seq<Request>, r: Request, close: bool, sel: Selection) {
    match sel.route
    case None =>
      && (forall i | 0 <= i < |s.routes| :: !Matches(s.routes[i], r))
      && sel.source == ServiceDefault && sel.sequence.None?
      && FallbackPlan(sel.plan, s.defaultHeaders, s.fallback, close)
    case Some(i) =>
      && i < |s.routes| && Matches(s.routes[i], r)
      && var responses := s.routes[i].responses;
         var k := Count(history, r) + 1;
         if k <= |Numbers(responses)| then
           && sel.source == RouteSequence && sel.sequence == Some(k)
           && exists j :: 0 <= j < |responses| && HasNumber(responses[j], k)
                          && ResponsePlan(sel.plan, s.defaultHeaders, responses[j], close)
         else
           && sel.source == RouteDefault && sel.sequence.None?
           && exists j :: 0 <= j < |responses| && responses[j].isDefault
                          && ResponsePlan(sel.plan, s.defaultHeaders, responses[j], close)
  }

  function BodyOf(body: Option<Bytes>): Bytes {
    match body case Some(b) => b case None => []
  }

  ghost predicate ResponsePlan(plan: Plan, defaults: HeaderMap, r: ResponseConfig, close: bool) {
    && plan.status == r.status
    && MergedFrom(plan.headers, defaults, r.headers)
    && plan.mode == (if r.mode == Unset then Immediate else r.mode)
    && plan.delay == r.delay && plan.close == close
    && plan.body == BodyOf(r.body)
    && |plan.chunks| == |r.chunks|
    && forall i | 0 <= i < |r.chunks| :: plan.chunks[i] == Chunk(r.chunks[i].delay, BodyOf(r.chunks[i].body))
  }

  /** And a client reads only the first of its two body bytes from every chunked answer planned from it. */
  lemma ValidButMisread(plan: Plan, defaults: HeaderMap, close: bool)
    requires ResponsePlan(plan, defaults, EmptyInside(), close)
    ensures ValidResponse(Text("GET"), EmptyInside(), 2)
    ensures PlainBody(plan.chunks) == [97, 98]
    ensures DecodeChunked(ChunkedBody(plan.chunks)).Some? && DecodeChunked(ChunkedBody(plan.chunks)).value.body == [97]
  {
    hide MergedFrom, DecodeChunked, ChunkedBody, PlainBody, ValidResponse;
    EmptyChunkIsValid(2);
    assert plan.chunks == [Chunk(0, [97]), Chunk(0, []), Chunk(0, [98])];
    EmptyChunkTruncates();
  }

  ghost predicate FallbackPlan(plan: Plan, defaults: HeaderMap, f: Fallback, close: bool) {
    && plan.status == f.status
    && MergedFrom(plan.headers, defaults, f.headers)
    && plan.mode == Immediate && plan.delay == f.delay && plan.close == close
    && plan.body == BodyOf(f.body) && plan.chunks == []
  }

  method PlanFromResponse(defaults: HeaderMap, r: ResponseConfig, close: bool) returns (plan: Plan)
    requires ValidHeaders(defaults) && ValidHeaders(r.headers)
    ensures ResponsePlan(plan, defaults, r, close)
  {
    hide MergedFrom, ValidHeaders;
    var headers := MergeHeaders(defaults, r.headers);
    var chunks: seq<Chunk> := [];
    var i := 0;
    while i < |r.chunks|
      invariant i <= |r.chunks| && |chunks| == i
      invariant forall j | 0 <= j < i :: chunks[j] == Chunk(r.chunks[j].delay, BodyOf(r.chunks[j].body))
    {
      chunks := chunks + [Chunk(r.chunks[i].delay, BodyOf(r.chunks[i].body))];
      i := i + 1;
    }
    plan := Plan(r.status, headers, if r.mode == Unset then Immediate else r.mode, r.delay, BodyOf(r.body), chunks, close);
  }

  method PlanFromFallback(defaults: HeaderMap, f: Fallback, close: bool) returns (plan: Plan)
    requires ValidHeaders(defaults) && ValidHeaders(f.headers)
    ensures FallbackPlan(plan, defaults, f, close)
  {
    hide MergedFrom, ValidHeaders;
    var headers := MergeHeaders(defaults, f.headers);
    plan := Plan(f.status, headers, Immediate, f.delay, BodyOf(f.body), [], close);
  }

  // ---------- what validation gives to routing ----------

  ghost predicate SomeNumber(rs: seq<ResponseConfig>, n: int) {
    exists j :: 0 <= j < |rs| && HasNumber(rs[j], n)
  }

  ghost predicate OneNumber(rs: seq<ResponseConfig>, n: int) {
    forall i, j | 0 <= i < |rs| && 0 <= j < |rs| && HasNumber(rs[i], n) && HasNumber(rs[j], n) :: i == j
  }

  lemma NumbersGrow(front: seq<ResponseConfig>, last: ResponseConfig, n: int)
    ensures multiset(Numbers(front + [last]))[n] == multiset(Numbers(front))[n] + if HasNumber(last, n) then 1 else 0
  {
    assert (front + [last])[..|front|] == front;
    assert multiset(Numbers(front + [last]))
        == multiset(Numbers(front)) + if last.isDefault then multiset{} else multiset{last.number};
  }

  lemma SomeNumberGrows(front: seq<ResponseConfig>, last: ResponseConfig, n: int)
    ensures SomeNumber(front + [last], n) <==> SomeNumber(front, n) || HasNumber(last, n)
    ensures OneNumber(front + [last], n) <==> OneNumber(front, n) && !(SomeNumber(front, n) && HasNumber(last, n))
  {
    hide HasNumber;
    var rs := front + [last];
    assert forall j | 0 <= j < |front| :: rs[j] == front[j];
    assert rs[|front|] == last;
  }

  lemma {:induction false} NumberIsConfigured(rs: seq<ResponseConfig>, n: int)
    ensures multiset(Numbers(rs))[n] >= 1 <==> SomeNumber(rs, n)
    ensures multiset(Numbers(rs))[n] <= 1 <==> OneNumber(rs, n)
  {
    hide HasNumber, SomeNumber, OneNumber;
    if rs == [] {
      NothingNumbered(n);
    } else {
      var front, last := rs[..|rs| - 1], rs[|rs| - 1];
      assert rs == front + [last];
      NumberIsConfigured(front, n);
      NumbersGrow(front, last, n);
      SomeNumberGrows(front, last, n);
    }
  }

  lemma NothingNumbered(n: int)
    ensures !SomeNumber([], n) && OneNumber([], n)
  {
  }

  lemma {:induction false} DefaultIsConfigured(rs: seq<ResponseConfig>)
    ensures Defaults(rs) == 0 <==> forall j | 0 <= j < |rs| :: !rs[j].isDefault
    ensures Defaults(rs) <= 1 ==>
              forall i, j | 0 <= i < |rs| && 0 <= j < |rs| && rs[i].isDefault && rs[j].isDefault :: i == j
  {
    if rs != [] {
      var front := rs[..|rs| - 1];
      DefaultIsConfigured(front);
      assert forall j | 0 <= j < |front| :: front[j] == rs[j];
    }
  }

  /** In a validated route every number up to N is configured, on exactly one
      response; so is the default; no number beyond N is. */
  lemma ChoiceExistsAndIsUnique(route: RouteConfig, limit: int, k: int)
    requires ValidResponses(route, limit) && k >= 1
    ensures var rs := route.responses;
            && (k <= |Numbers(rs)| <==> SomeNumber(rs, k))
            && OneNumber(rs, k)
            && (exists j :: 0 <= j < |rs| && rs[j].isDefault)
            && (forall i, j | 0 <= i < |rs| && 0 <= j < |rs| && rs[i].isDefault && rs[j].isDefault :: i == j)
  {
    hide ValidResponse, HasNumber, SomeNumber, OneNumber, Numbers;
    var rs := route.responses;
    NumberIsConfigured(rs, k);
    DefaultIsConfigured(rs);
  }

  lemma {:induction false} CountAfter(history: seq<Request>, more: Request, r: Request)
    ensures Count(history + [more], r) == Count(history, r) + if more == r then 1 else 0
  {
    assert (history + [more])[..|history|] == history;
  }

  /** A request for anything else, matched or not, leaves a route's next choice as it was. */
  lemma RoutesDoNotInterfere(s: Service, history: seq<Request>, other: Request, r: Request, close: bool, sel: Selection)
    requires other != r
    ensures Promised(s, history + [other], r, close, sel) <==> Promised(s, history, r, close, sel)
  {
    hide ResponsePlan, FallbackPlan;
    CountAfter(history, other, r);
  }

  /** Two selections for the same request after the same history agree on
      everything: the promise determines the choice. */
  lemma PromiseIsDeterministic(s: Service, limit: int, history: seq<Request>, r: Request, close: bool, a: Selection, b: Selection)
    requires ValidService(s, limit) && Promised(s, history, r, close, a) && Promised(s, history, r, close, b)
    ensures a.route == b.route && a.source == b.source && a.sequence == b.sequence && a.plan == b.plan
  {
    hide MergedFrom, ValidHeaders, ValidResponses, PathAllowed, VerbAllowed, StatusAllowed;
    if a.route.Some? && b.route.Some? {
      assert a.route.value == b.route.value;
      var route := s.routes[a.route.value];
      var rs := route.responses;
      var k := Count(history, r) + 1;
      assert ValidRoute(route, limit);
      ChoiceExistsAndIsUnique(route, limit, k);
      var numbered := k <= |Numbers(rs)|;
      var i :| 0 <= i < |rs| && (if numbered then HasNumber(rs[i], k) else rs[i].isDefault)
               && ResponsePlan(a.plan, s.defaultHeaders, rs[i], close);
      var j :| 0 <= j < |rs| && (if numbered then HasNumber(rs[j], k) else rs[j].isDefault)
               && ResponsePlan(b.plan, s.defaultHeaders, rs[j], close);
      assert i == j;
      ResponseHeadersAreValid(route, limit, i);
      PlanIsDeterministic(a.plan, b.plan, s.defaultHeaders, rs[i], close);
    } else if a.route.None? && b.route.None? {
      MergeIsDeterministic(a.plan.headers, b.plan.headers, s.defaultHeaders, s.fallback.headers);
    }
  }

  lemma PlanIsDeterministic(a: Plan, b: Plan, defaults: HeaderMap, r: ResponseConfig, close: bool)
    requires ResponsePlan(a, defaults, r, close) && ResponsePlan(b, defaults, r, close)
    requires ValidHeaders(defaults) && ValidHeaders(r.headers)
    ensures a == b
  {
    hide MergedFrom, ValidHeaders;
    MergeIsDeterministic(a.headers, b.headers, defaults, r.headers);
    assert a.chunks == b.chunks;
  }

  lemma ResponseHeadersAreValid(route: RouteConfig, limit: int, i: nat)
    requires ValidResponses(route, limit) && i < |route.responses|
    ensures ValidHeaders(route.responses[i].headers) && route.responses[i].mode != Unknown
  {
    hide ValidHeaders;
    assert ValidResponse(route.verb, route.responses[i], limit);
  }

  lemma MergeIsDeterministic(a: HeaderMap, b: HeaderMap, defaults: HeaderMap, overrides: HeaderMap)
    requires ValidHeaders(defaults) && ValidHeaders(overrides)
    requires MergedFrom(a, defaults, overrides) && MergedFrom(b, defaults, overrides)
    ensures a == b
  {
    hide Canonical, ToLower, IsToken, Prohibited, ValidHeaders, Names;
    forall c | c in a.Keys
      ensures a[c] == b[c]
    {
      if c in Names(overrides.Keys) {
        var k := MergedName(overrides, c);
      } else {
        var k := MergedName(defaults, c);
        if Overridden(k, overrides) {
          var o :| o in overrides && EqualFold(o, k);
          ValidNames(overrides, o, o);
          CanonicalOfTokens(o, k);
          NameOf(overrides, o);
        }
      }
    }
  }

  lemma NameOf(headers: HeaderMap, k: Bytes)
    requires k in headers
    ensures Canonical(k) in Names(headers.Keys)
  {
    hide Canonical;
  }

  /** A plan chosen from a validated service renders over HTTP/1.0 and 1.1, and
      its headers meet what the printer and its framing rely on. */
  lemma ChosenPlansRender(s: Service, limit: int, history: seq<Request>, r: Request, close: bool, sel: Selection, c: Context)
    requires ValidService(s, limit) && Promised(s, history, r, close, sel) && (IsHttp10(c) || IsHttp11(c))
    ensures Fault(c, sel.plan).None? && sel.plan.close == close
    ensures CanonicalNamesDiffer(sel.plan.headers)
    ensures SafeHeaders(sel.plan.headers) && 200 <= sel.plan.status <= 599
  {
    hide Canonical, ToLower, Prohibited, IsToken, NoFoldedDuplicates;
    if sel.route.Some? {
      var route := s.routes[sel.route.value];
      assert ValidRoute(route, limit);
    }
  }

  /** What was validated holds of every plan that is chosen: its delays are at
      most a day, its content is within the limit, and a response that has no
      content gets none. */
  lemma ChosenPlansAreWithinLimits(s: Service, limit: int, history: seq<Request>, r: Request, close: bool, sel: Selection)
    requires ValidService(s, limit) && Promised(s, history, r, close, sel) && limit >= 0
    ensures 0 <= sel.plan.delay <= 86_400_000
    ensures forall i | 0 <= i < |sel.plan.chunks| :: 0 <= sel.plan.chunks[i].delay <= 86_400_000
    ensures |sel.plan.body| <= limit && TotalBody(sel.plan.chunks) <= limit && |sel.plan.chunks| <= 4096
    ensures sel.plan.status in [204, 304] ==> sel.plan.body == [] && sel.plan.chunks == []
  {
    hide ValidHeaders, MergedFrom, StatusAllowed, Numbers, ResponsePlan, ValidResponse;
    if sel.route.Some? {
      var route := s.routes[sel.route.value];
      assert ValidRoute(route, limit);
      var j :| 0 <= j < |route.responses| && ResponsePlan(sel.plan, s.defaultHeaders, route.responses[j], close);
      ResponseIsValid(route, limit, j);
      PlanIsWithinLimits(sel.plan, s.defaultHeaders, route.verb, route.responses[j], close, limit);
    } else {
      assert TotalBody([]) == 0;
    }
  }

  lemma PlanIsWithinLimits(plan: Plan, defaults: HeaderMap, verb: Bytes, r: ResponseConfig, close: bool, limit: int)
    requires ResponsePlan(plan, defaults, r, close) && ValidResponse(verb, r, limit) && limit >= 0
    ensures 0 <= plan.delay <= 86_400_000
    ensures forall i | 0 <= i < |plan.chunks| :: 0 <= plan.chunks[i].delay <= 86_400_000
    ensures |plan.body| <= limit && TotalBody(plan.chunks) <= limit && |plan.chunks| <= 4096
    ensures plan.status in [204, 304] ==> plan.body == [] && plan.chunks == []
  {
    hide ValidHeaders, MergedFrom, StatusAllowed;
    TotalOfChunks(plan.chunks, r.chunks);
  }

  lemma ResponseIsValid(route: RouteConfig, limit: int, j: nat)
    requires ValidResponses(route, limit) && j < |route.responses|
    ensures ValidResponse(route.verb, route.responses[j], limit)
  {
    hide ValidResponse;
  }

  lemma {:induction false} TotalOfChunks(chunks: seq<Chunk>, configured: seq<ChunkConfig>)
    requires |chunks| == |configured|
    requires forall i | 0 <= i < |chunks| :: chunks[i] == Chunk(configured[i].delay, BodyOf(configured[i].body))
    ensures TotalBody(chunks) == ChunkTotal(configured)
  {
    if chunks != [] {
      TotalOfChunks(chunks[..|chunks| - 1], configured[..|configured| - 1]);
    }
  }

  // ---------- the responses of a route, one after the other ----------

  lemma {:induction false} CountOfRepeats(r: Request, n: nat)
    ensures Count(seq(n, _ => r), r) == n
  {
    if n > 0 {
      CountOfRepeats(r, n - 1);
      assert seq(n, _ => r)[..n - 1] == seq(n - 1, _ => r);
    }
  }

  /** Asked for the same thing again and again, a route gives its responses
      numbered 1, 2, 3 and so on to its last number, and then its default each time. */
  lemma ResponsesComeInOrder(s: Service, limit: int, r: Request, close: bool, sels: seq<Selection>, k: nat)
    requires ValidService(s, limit) && k < |sels| && sels[k].route.Some?
    requires forall i: nat | i < |sels| :: Promised(s, seq(i, _ => r), r, close, sels[i])
    ensures var i := sels[k].route.value;
            && i < |s.routes| && s.routes[i].verb == r.verb && s.routes[i].path == r.path
            && var numbered := |Numbers(s.routes[i].responses)|;
               && sels[k].sequence == (if k < numbered then Some(k + 1) else None)
               && sels[k].source == (if k < numbered then RouteSequence else RouteDefault)
  {
    hide ValidService, ResponsePlan, FallbackPlan, Numbers;
    CountOfRepeats(r, k);
    assert Promised(s, seq(k, _ => r), r, close, sels[k]);
  }
}
