/** One request on a matched route: the middleware around the view, and the retries around both. */
module Dispatch {
  import opened Json
  import opened Options
  import opened ConnectionPool
  import opened Retry

  datatype Verb = GET | POST | DELETE | OPTIONS | OTHER

  /** The body is the sequence of JSON documents written to it, since every answer is appended. */
  datatype Response = Response(status: nat, headers: map<string, string>, body: seq<Json>)

  const EMPTY: Response := Response(200, map[], [])

  function SetResponse(response: Response, data: Json, status: nat): Response {
    response.(status := status, body := response.body + [data])
  }

  /** How the lookup of the domain ends. */
  datatype Lookup = Found | NotFound | Threw(exception: Exception)

  /** What the environment does during one attempt: whether libvirt drops the cached connection before it,
      whether the user exists, what an open would give, how the domain lookup ends, whether libvirt drops
      the connection after the open, and what the view does to the response and throws. */
  datatype Attempt = Attempt(
    lostBefore: bool,
    knownUser: bool,
    opening: Opening,
    lookup: Lookup,
    lostDuring: bool,
    view: Response -> (Response, Outcome))

  /** What a request works on. The counters only observe. */
  datatype World = World(entries: Entries, response: Response, attempts: nat, opens: nat)

  type Handler = (Attempt, World) -> (World, Outcome)

  datatype Route = Route(methods: seq<Verb>, needsDomain: bool)

  function VerbName(verb: Verb): string {
    match verb
    case GET => "GET"
    case POST => "POST"
    case DELETE => "DELETE"
    case OPTIONS => "OPTIONS"
    case OTHER => ""
  }

  function Allow(methods: seq<Verb>): string {
    if methods == [] then "OPTIONS" else VerbName(methods[0]) + ", " + Allow(methods[1..])
  }

  function WithMethods(methods: seq<Verb>, verb: Verb, next: Handler): Handler {
    (a: Attempt, w: World) =>
      var allowed := w.(response := w.response.(headers := w.response.headers["Allow" := Allow(methods)]));
      if verb == OPTIONS then (allowed, Done)
      else if verb !in methods then (allowed.(response := allowed.response.(status := 405)), Done)
      else next(a, allowed)
  }

  function WithUser(next: Handler): Handler {
    (a: Attempt, w: World) =>
      if !a.knownUser then
        (w.(response := SetResponse(w.response, Detail("Unable to locate user"), 404)), Done)
      else next(a, w)
  }

  /** Runtime errors of the lookup in the connection cache are caught; those of the route are not. */
  function WithConnection(user: User, next: Handler): Handler {
    (a: Attempt, w: World) =>
      var (entries, outcome) := Got(w.entries, user, a.opening);
      var got := w.(entries := entries, opens := w.opens + if IsOpen(w.entries, user) then 0 else 1);
      if outcome.Thrown? && outcome.exception.IsRuntime() then
        (got.(response := SetResponse(got.response, Detail("Unable to connect to libvirt"), 500)), Done)
      else if outcome.Thrown? then (got, outcome)
      else next(a, if a.lostDuring then got.(entries := ClosedEntry(got.entries, user)) else got)
  }

  function WithLibvirt(user: User, next: Handler): Handler {
    WithUser(WithConnection(user, next))
  }

  function WithDomain(user: User, next: Handler): Handler {
    WithLibvirt(user, (a: Attempt, w: World) =>
      if a.lookup.NotFound? || (a.lookup.Threw? && a.lookup.exception.DomainError?) then
        (w.(response := SetResponse(w.response, Detail("Domain not found"), 404)), Done)
      else if a.lookup.Threw? then (w, Thrown(a.lookup.exception))
      else next(a, w))
  }

  function ViewHandler(): Handler {
    (a: Attempt, w: World) =>
      var (response, outcome) := a.view(w.response);
      (w.(response := response), outcome)
  }

  function LibvirtHandler(route: Route, user: User): Handler {
    if route.needsDomain then WithDomain(user, ViewHandler()) else WithLibvirt(user, ViewHandler())
  }

  function RouteHandler(route: Route, verb: Verb, user: User): Handler {
    WithMethods(route.methods, verb, LibvirtHandler(route, user))
  }

  /** One attempt: it starts from an empty response. */
  function Attempted(route: Route, verb: Verb, user: User, env: nat -> Attempt, w: World): (World, Outcome) {
    var a := env(w.attempts);
    var entries := if a.lostBefore then ClosedEntry(w.entries, user) else w.entries;
    RouteHandler(route, verb, user)(a, World(entries, EMPTY, w.attempts + 1, w.opens))
  }

  function AttemptFunction(route: Route, verb: Verb, user: User, env: nat -> Attempt): World -> (World, Outcome) {
    (w: World) => Attempted(route, verb, user, env, w)
  }

  function Settled(w: World, outcome: Outcome): World {
    match outcome
    case Done => w
    case Thrown(e) => w.(response := SetResponse(w.response, Detail(e.what), 500))
  }

  const RETRIES: nat := 5

  function Served(route: Route, verb: Verb, user: User, env: nat -> Attempt, entries: Entries, prior: Response): World {
    var r := Run(AttemptFunction(route, verb, user, env), World(entries, prior, 0, 0), RETRIES);
    Settled(r.0, r.1)
  }

  /** What the router does once a route has matched. */
  method Serve(route: Route, verb: Verb, user: User, env: nat -> Attempt, entries: Entries, prior: Response)
    returns (w: World)
    ensures w == Served(route, verb, user, env, entries, prior)
  {
    var end, outcome, _ := Retrying(AttemptFunction(route, verb, user, env), World(entries, prior, 0, 0), RETRIES);
    w := Settled(end, outcome);
  }

  // ----- Requests that lose libvirt

  predicate Permitted(route: Route, verb: Verb) {
    verb != OPTIONS && verb in route.methods
  }

  /** The empty response once the middleware has put the header in. */
  function Allowed(route: Route): Response {
    Response(200, map["Allow" := Allow(route.methods)], [])
  }

  /** The user exists, the open succeeds if it is needed, and then libvirt goes away: the entry is closed
      and a retry error comes out of the domain lookup or of the view. */
  ghost predicate Loses(route: Route, a: Attempt) {
    && a.knownUser && a.opening.Opened? && a.lostDuring
    && if route.needsDomain && a.lookup != Found
       then a.lookup.Threw? && a.lookup.exception.RetryError?
       else AsksForRetry(a.view(Allowed(route)).1)
  }

  /** Whether the cached connection is open when an attempt begins. */
  predicate OpenFor(a: Attempt, entries: Entries, user: User) {
    IsOpen(entries, user) && !a.lostBefore
  }

  /** What the libvirt middleware and the view make of a world, spelled out. */
  function Reached(route: Route, user: User, a: Attempt, w: World): (World, Outcome) {
    var (got, connected) := Got(w.entries, user, a.opening);
    var held := if a.lostDuring then ClosedEntry(got, user) else got;
    var opens := w.opens + if IsOpen(w.entries, user) then 0 else 1;
    if !a.knownUser then (w.(response := SetResponse(w.response, Detail("Unable to locate user"), 404)), Done)
    else if connected.Thrown? then
      (World(got, SetResponse(w.response, Detail("Unable to connect to libvirt"), 500), w.attempts, opens), Done)
    else if route.needsDomain && (a.lookup.NotFound? || (a.lookup.Threw? && a.lookup.exception.DomainError?)) then
      (World(held, SetResponse(w.response, Detail("Domain not found"), 404), w.attempts, opens), Done)
    else if route.needsDomain && a.lookup.Threw? then
      (World(held, w.response, w.attempts, opens), Thrown(a.lookup.exception))
    else
      var (response, outcome) := a.view(w.response);
      (World(held, response, w.attempts, opens), outcome)
  }

  lemma ReachedIs(route: Route, user: User, a: Attempt, w: World)
    ensures LibvirtHandler(route, user)(a, w) == Reached(route, user, a, w)
  {
  }

  /** A whole route, with the combinators unfolded. */
  lemma HandlerIs(route: Route, verb: Verb, user: User, a: Attempt, w: World)
    requires w.response == EMPTY
    ensures
      var allowed := w.(response := Allowed(route));
      RouteHandler(route, verb, user)(a, w) ==
      if verb == OPTIONS then (allowed, Done)
      else if verb !in route.methods then (allowed.(response := Allowed(route).(status := 405)), Done)
      else Reached(route, user, a, allowed)
  {
    assert EMPTY.headers["Allow" := Allow(route.methods)] == map["Allow" := Allow(route.methods)];
    assert EMPTY.(headers := EMPTY.headers["Allow" := Allow(route.methods)]) == Allowed(route);
    ReachedIs(route, user, a, w.(response := Allowed(route)));
  }

  lemma AttemptIs(route: Route, verb: Verb, user: User, env: nat -> Attempt, w: World)
    ensures
      var a := env(w.attempts);
      var entries := if a.lostBefore then ClosedEntry(w.entries, user) else w.entries;
      var allowed := World(entries, Allowed(route), w.attempts + 1, w.opens);
      Attempted(route, verb, user, env, w) ==
      if verb == OPTIONS then (allowed, Done)
      else if verb !in route.methods then (allowed.(response := Allowed(route).(status := 405)), Done)
      else Reached(route, user, a, allowed)
  {
    var a := env(w.attempts);
    var entries := if a.lostBefore then ClosedEntry(w.entries, user) else w.entries;
    HandlerIs(route, verb, user, a, World(entries, EMPTY, w.attempts + 1, w.opens));
  }

  lemma LostAttempt(route: Route, verb: Verb, user: User, env: nat -> Attempt, w: World)
    requires Permitted(route, verb) && Loses(route, env(w.attempts))
    ensures var (v, outcome) := Attempted(route, verb, user, env, w);
            && AsksForRetry(outcome)
            && v.attempts == w.attempts + 1
            && !IsOpen(v.entries, user)
            && v.opens == w.opens + if OpenFor(env(w.attempts), w.entries, user) then 0 else 1
  {
    AttemptIs(route, verb, user, env, w);
  }

  /** A cache with an open connection for the user, or with none. */
  function Cached(user: User, open: bool): Entries {
    if open then map[user := View(Some(0), 0, false, user)] else map[]
  }

  /** The response and outcome of an attempt on its own, given whether the cached connection is open. */
  function Solo(route: Route, verb: Verb, user: User, a: Attempt, open: bool): (Response, Outcome) {
    var (w, outcome) := RouteHandler(route, verb, user)(a, World(Cached(user, open), EMPTY, 0, 0));
    (w.response, outcome)
  }

  /** The cache bears on an attempt only by being open or not. */
  lemma AttemptIsSolo(route: Route, verb: Verb, user: User, env: nat -> Attempt, w: World)
    ensures var a := env(w.attempts);
            var (v, outcome) := Attempted(route, verb, user, env, w);
            && (v.response, outcome) == Solo(route, verb, user, a, OpenFor(a, w.entries, user))
            && v.attempts == w.attempts + 1
            && v.opens == w.opens
                 + if Permitted(route, verb) && a.knownUser && !OpenFor(a, w.entries, user) then 1 else 0
  {
    var a := env(w.attempts);
    var open := OpenFor(a, w.entries, user);
    var entries := if a.lostBefore then ClosedEntry(w.entries, user) else w.entries;
    AttemptIs(route, verb, user, env, w);
    HandlerIs(route, verb, user, a, World(Cached(user, open), EMPTY, 0, 0));
    assert IsOpen(entries, user) == open == IsOpen(Cached(user, open), user);
    ReachedAlone(route, user, a, World(entries, Allowed(route), w.attempts + 1, w.opens),
                 World(Cached(user, open), Allowed(route), 0, 0));
  }

  lemma ReachedAlone(route: Route, user: User, a: Attempt, w: World, x: World)
    requires IsOpen(w.entries, user) == IsOpen(x.entries, user) && w.response == x.response
    ensures var (v, outcome) := Reached(route, user, a, w);
            var (y, alone) := Reached(route, user, a, x);
            && (v.response, outcome) == (y.response, alone)
            && v.attempts == w.attempts
            && v.opens == w.opens + if a.knownUser && !IsOpen(w.entries, user) then 1 else 0
  {
  }

  /** A step that takes an open entry away, opening it first if need be. */
  ghost predicate LosingStep(f: World -> (World, Outcome), user: User, lostBefore: bool, w: World) {
    var (v, outcome) := f(w);
    && AsksForRetry(outcome)
    && v.attempts == w.attempts + 1
    && !IsOpen(v.entries, user)
    && v.opens == w.opens + if IsOpen(w.entries, user) && !lostBefore then 0 else 1
  }

  lemma {:induction false} LosingRun(
    f: World -> (World, Outcome), user: User, lostBefore: nat -> bool, start: World, k: nat)
    requires start.attempts == 0 && start.opens == 0
    requires forall w: World :: w.attempts < k ==> LosingStep(f, user, lostBefore(w.attempts), w)
    ensures var w := StateAt(f, start, k);
            && w.attempts == k
            && (k > 0 ==> !IsOpen(w.entries, user))
            && (k > 0 ==> w.opens == k - if IsOpen(start.entries, user) && !lostBefore(0) then 1 else 0)
            && (k == 0 ==> w == start)
    ensures forall j :: 0 <= j < k ==> AsksForRetry(OutcomeAt(f, start, j))
  {
    if k > 0 {
      LosingRun(f, user, lostBefore, start, k - 1);
      var w := StateAt(f, start, k - 1);
      assert LosingStep(f, user, lostBefore(w.attempts), w);
    }
  }

  lemma AfterLosses(
    route: Route, verb: Verb, user: User, env: nat -> Attempt, entries: Entries, prior: Response, k: nat)
    requires Permitted(route, verb) && forall j :: 0 <= j < k ==> Loses(route, env(j))
    ensures var f, start := AttemptFunction(route, verb, user, env), World(entries, prior, 0, 0);
            var w := StateAt(f, start, k);
            && w.attempts == k
            && (k > 0 ==> !IsOpen(w.entries, user))
            && (k > 0 ==> w.opens == k - if OpenFor(env(0), entries, user) then 1 else 0)
            && (k == 0 ==> w == start)
            && forall j :: 0 <= j < k ==> AsksForRetry(OutcomeAt(f, start, j))
  {
    var f := AttemptFunction(route, verb, user, env);
    var lostBefore := (i: nat) => env(i).lostBefore;
    forall w: World | w.attempts < k ensures LosingStep(f, user, lostBefore(w.attempts), w) {
      LostAttempt(route, verb, user, env, w);
    }
    LosingRun(f, user, lostBefore, World(entries, prior, 0, 0), k);
  }

  /** A request that loses libvirt in its first k attempts, k at most five, gets exactly the response of
      attempt k+1 by itself, from an empty response and, after a loss, a closed cache entry; it opens k
      connections, and one more if the entry was not open at the start. */
  lemma Recovers(
    route: Route, verb: Verb, user: User, env: nat -> Attempt, entries: Entries, prior: Response, k: nat)
    requires Permitted(route, verb) && k <= RETRIES
    requires forall j :: 0 <= j < k ==> Loses(route, env(j))
    requires !AsksForRetry(Solo(route, verb, user, env(k), k == 0 && OpenFor(env(0), entries, user)).1)
    ensures var w := Served(route, verb, user, env, entries, prior);
            var (response, outcome) := Solo(route, verb, user, env(k), k == 0 && OpenFor(env(0), entries, user));
            && w.response == Settled(World(entries, response, 0, 0), outcome).response
            && w.attempts == k + 1
            && (env(k).knownUser ==> w.opens == k + if OpenFor(env(0), entries, user) then 0 else 1)
  {
    var f := AttemptFunction(route, verb, user, env);
    var start := World(entries, prior, 0, 0);
    AfterLosses(route, verb, user, env, entries, prior, k);
    var w := StateAt(f, start, k);
    AttemptIsSolo(route, verb, user, env, w);
    FirstSettled(f, start, RETRIES, k);
    assert StateAt(f, start, k + 1) == f(w).0;
  }

  /** If all six attempts lose libvirt, the last message comes back with status 500, behind whatever the
      last attempt had written already. */
  lemma Exhausts(route: Route, verb: Verb, user: User, env: nat -> Attempt, entries: Entries, prior: Response)
    requires Permitted(route, verb)
    requires forall j :: 0 <= j <= RETRIES ==> Loses(route, env(j))
    ensures var w := Served(route, verb, user, env, entries, prior);
            var (partial, outcome) := Solo(route, verb, user, env(RETRIES), false);
            && outcome.Thrown?
            && w.response == SetResponse(partial, Detail(outcome.exception.what), 500)
            && w.attempts == RETRIES + 1
            && w.opens == RETRIES + if OpenFor(env(0), entries, user) then 0 else 1
  {
    var f := AttemptFunction(route, verb, user, env);
    var start := World(entries, prior, 0, 0);
    AfterLosses(route, verb, user, env, entries, prior, RETRIES);
    AfterLosses(route, verb, user, env, entries, prior, RETRIES + 1);
    AttemptIsSolo(route, verb, user, env, StateAt(f, start, RETRIES));
    NeverSettled(f, start, RETRIES);
  }

  /** A refused open is the end, the first as well as a later one: status 500 and no further attempt. */
  lemma ReopenRefused(
    route: Route, verb: Verb, user: User, env: nat -> Attempt, entries: Entries, prior: Response, k: nat)
    requires Permitted(route, verb) && k <= RETRIES
    requires forall j :: 0 <= j < k ==> Loses(route, env(j))
    requires k == 0 ==> !OpenFor(env(0), entries, user)
    requires env(k).knownUser && env(k).opening.Refused?
    ensures var w := Served(route, verb, user, env, entries, prior);
            && w.response.status == 500 && w.response.headers == map["Allow" := Allow(route.methods)]
            && w.response.body == [Detail("Unable to connect to libvirt")]
            && w.attempts == k + 1
  {
    var (response, outcome) := Solo(route, verb, user, env(k), false);
    var f := AttemptFunction(route, verb, user, env);
    var start := World(entries, prior, 0, 0);
    AfterLosses(route, verb, user, env, entries, prior, k);
    AttemptIs(route, verb, user, env, StateAt(f, start, k));
    AttemptIsSolo(route, verb, user, env, StateAt(f, start, k));
    assert outcome == Done;
    assert response.body == [Detail("Unable to connect to libvirt")];
    Recovers(route, verb, user, env, entries, prior, k);
  }

  /** What the response held before is lost: a matched route answers alike whatever it was. */
  lemma PriorLost(
    route: Route, verb: Verb, user: User, env: nat -> Attempt, entries: Entries, prior: Response, other: Response)
    ensures Served(route, verb, user, env, entries, prior) == Served(route, verb, user, env, entries, other)
  {
    var f := AttemptFunction(route, verb, user, env);
    SameFirstStep(f, World(entries, prior, 0, 0), World(entries, other, 0, 0), RETRIES);
  }

  lemma SameFirstStep<S>(f: S -> (S, Outcome), x: S, y: S, left: nat)
    requires f(x) == f(y)
    ensures Run(f, x, left) == Run(f, y, left)
  {
  }

  /** A method that is not served, or an unknown user, never gets as far as libvirt. */
  lemma LibvirtUntouched(route: Route, verb: Verb, user: User, env: nat -> Attempt, entries: Entries, prior: Response)
    requires !Permitted(route, verb) || !env(0).knownUser
    ensures var w := Served(route, verb, user, env, entries, prior);
            && w.opens == 0 && w.attempts == 1
            && w.entries == (if env(0).lostBefore then ClosedEntry(entries, user) else entries)
            && w.response.headers == map["Allow" := Allow(route.methods)]
            && w.response.status == (if verb == OPTIONS then 200 else if verb !in route.methods then 405 else 404)
  {
    var f := AttemptFunction(route, verb, user, env);
    var start := World(entries, prior, 0, 0);
    AttemptIs(route, verb, user, env, start);
    assert OutcomeAt(f, start, 0) == Done;
    FirstSettled(f, start, RETRIES, 0);
    assert StateAt(f, start, 1) == f(StateAt(f, start, 0)).0;
  }

  // ----- The answers in full

  lemma AllowOne(verb: Verb)
    ensures Allow([verb]) == VerbName(verb) + ", " + "OPTIONS"
  {
    assert [verb][1..] == [];
  }

  lemma AllowTwo(first: Verb, second: Verb)
    ensures Allow([first, second]) == VerbName(first) + ", " + Allow([second])
  {
    assert [first, second][1..] == [second];
  }

  /** The text of the header that lists the methods. */
  lemma AllowGet()
    ensures Allow([GET]) == "GET, OPTIONS"
  {
    AllowOne(GET);
  }

  lemma AllowPost()
    ensures Allow([POST]) == "POST, OPTIONS"
  {
    AllowOne(POST);
  }

  lemma AllowPostDelete()
    ensures Allow([POST, DELETE]) == "POST, DELETE, OPTIONS"
  {
    AllowTwo(POST, DELETE);
    AllowOne(DELETE);
  }

  /** The attempt reaches the view: the user exists, the connection is open or opens, and the domain, if the
      route needs one, is found. */
  predicate ReachesView(route: Route, a: Attempt, open: bool) {
    a.knownUser && (open || a.opening.Opened?) && (route.needsDomain ==> a.lookup.Found?)
  }

  /** How a single attempt on a method that is served ends before it reaches the view. */
  lemma SoloBeforeView(route: Route, verb: Verb, user: User, a: Attempt, open: bool)
    requires verb != OPTIONS && verb in route.methods
    ensures var allow := map["Allow" := Allow(route.methods)];
            var (r, outcome) := Solo(route, verb, user, a, open);
            && (!a.knownUser ==>
                  outcome == Done && r == Response(404, allow, [Detail("Unable to locate user")]))
            && (a.knownUser && !open && a.opening.Refused? ==>
                  outcome == Done && r == Response(500, allow, [Detail("Unable to connect to libvirt")]))
            && (a.knownUser && (open || a.opening.Opened?) && route.needsDomain ==>
                 && (a.lookup.NotFound? || (a.lookup.Threw? && a.lookup.exception.DomainError?) ==>
                       outcome == Done && r == Response(404, allow, [Detail("Domain not found")]))
                 && (a.lookup.Threw? && !a.lookup.exception.DomainError? ==>
                       outcome == Thrown(a.lookup.exception) && r == Response(200, allow, [])))
  {
    HandlerIs(route, verb, user, a, World(Cached(user, open), EMPTY, 0, 0));
  }

  lemma SoloView(route: Route, verb: Verb, user: User, a: Attempt, open: bool)
    requires verb != OPTIONS && verb in route.methods && ReachesView(route, a, open)
    ensures Solo(route, verb, user, a, open) == a.view(Response(200, map["Allow" := Allow(route.methods)], []))
  {
    HandlerIs(route, verb, user, a, World(Cached(user, open), EMPTY, 0, 0));
  }

  /** Settling: a normal end leaves the response, an exception adds its text to the body with status 500. */
  lemma SettledIs(response: Response, outcome: Outcome)
    ensures var r := Settled(World(map[], response, 0, 0), outcome).response;
            && (outcome == Done ==> r == response)
            && (outcome.Thrown? ==>
                  r == Response(500, response.headers, response.body + [Detail(outcome.exception.what)]))
  {
  }

  lemma SettledAlike(w: World, x: World, outcome: Outcome)
    requires w.response == x.response
    ensures Settled(w, outcome).response == Settled(x, outcome).response
  {
  }

  /** After k losses, k at most five, attempt k+1 decides the answer: an exception that is not a retry error
      comes back as status 500 with its text at the end of the body, whatever its kind; a normal end leaves
      what was written. */
  lemma LastAttemptAnswers(
    route: Route, verb: Verb, user: User, env: nat -> Attempt, entries: Entries, prior: Response, k: nat)
    requires verb != OPTIONS && verb in route.methods && k <= 5
    requires forall j :: 0 <= j < k ==> Loses(route, env(j))
    ensures var w := Served(route, verb, user, env, entries, prior);
            var (r, outcome) := Solo(route, verb, user, env(k), k == 0 && OpenFor(env(0), entries, user));
            && (outcome == Done ==> w.response == r && w.attempts == k + 1)
            && (outcome.Thrown? && !outcome.exception.RetryError? ==>
                  && w.response
                     == Response(500, r.headers, r.body + [Object(map["detail" := String(outcome.exception.what)])])
                  && w.attempts == k + 1)
  {
    var (r, outcome) := Solo(route, verb, user, env(k), k == 0 && OpenFor(env(0), entries, user));
    SettledIs(r, outcome);
    SettledAlike(World(entries, r, 0, 0), World(map[], r, 0, 0), outcome);
    if !AsksForRetry(outcome) {
      Recovers(route, verb, user, env, entries, prior, k);
    }
  }

  /** The answer of a request that ends in the view. */
  lemma ViewAnswers(
    route: Route, verb: Verb, user: User, env: nat -> Attempt, entries: Entries, prior: Response, k: nat)
    requires verb != OPTIONS && verb in route.methods && k <= 5
    requires forall j :: 0 <= j < k ==> Loses(route, env(j))
    requires ReachesView(route, env(k), k == 0 && OpenFor(env(0), entries, user))
    ensures var w := Served(route, verb, user, env, entries, prior);
            var (r, outcome) := env(k).view(Response(200, map["Allow" := Allow(route.methods)], []));
            && (outcome == Done ==> w.response == r && w.attempts == k + 1)
            && (outcome.Thrown? && !outcome.exception.RetryError? ==>
                  && w.response
                     == Response(500, r.headers, r.body + [Object(map["detail" := String(outcome.exception.what)])])
                  && w.attempts == k + 1)
  {
    LastAttemptAnswers(route, verb, user, env, entries, prior, k);
    SoloView(route, verb, user, env(k), k == 0 && OpenFor(env(0), entries, user));
  }

  /** The answers of a request that does not get as far as the view. */
  lemma MiddlewareAnswers(
    route: Route, verb: Verb, user: User, env: nat -> Attempt, entries: Entries, prior: Response, k: nat)
    requires verb != OPTIONS && verb in route.methods && k <= 5
    requires forall j :: 0 <= j < k ==> Loses(route, env(j))
    ensures var r, a := Served(route, verb, user, env, entries, prior).response, env(k);
            var open, allow := k == 0 && OpenFor(env(0), entries, user), map["Allow" := Allow(route.methods)];
            && (!a.knownUser ==>
                  r == Response(404, allow, [Object(map["detail" := String("Unable to locate user")])]))
            && (a.knownUser && !open && a.opening.Refused? ==>
                  r == Response(500, allow, [Object(map["detail" := String("Unable to connect to libvirt")])]))
            && (a.knownUser && (open || a.opening.Opened?) && route.needsDomain ==>
                 && (a.lookup.NotFound? || (a.lookup.Threw? && a.lookup.exception.DomainError?) ==>
                       r == Response(404, allow, [Object(map["detail" := String("Domain not found")])]))
                 && (a.lookup.Threw? && !a.lookup.exception.DomainError? && !a.lookup.exception.RetryError? ==>
                       r == Response(500, allow, [Object(map["detail" := String(a.lookup.exception.what)])])))
  {
    LastAttemptAnswers(route, verb, user, env, entries, prior, k);
    SoloBeforeView(route, verb, user, env(k), k == 0 && OpenFor(env(0), entries, user));
  }

  /** The end of a request that loses libvirt six times: status 500, and the last text at the end of what the
      sixth attempt had written. */
  lemma SixLosses(route: Route, verb: Verb, user: User, env: nat -> Attempt, entries: Entries, prior: Response)
    requires verb != OPTIONS && verb in route.methods
    requires forall j :: 0 <= j < 6 ==> Loses(route, env(j))
    ensures var w, a := Served(route, verb, user, env, entries, prior), env(5);
            var allow := map["Allow" := Allow(route.methods)];
            && w.attempts == 6
            && if route.needsDomain && a.lookup.Threw? then
                 w.response == Response(500, allow, [Object(map["detail" := String(a.lookup.exception.what)])])
               else
                 var (r, outcome) := a.view(Response(200, allow, []));
                 && outcome.Thrown?
                 && w.response
                    == Response(500, r.headers, r.body + [Object(map["detail" := String(outcome.exception.what)])])
  {
    Exhausts(route, verb, user, env, entries, prior);
    if route.needsDomain && env(5).lookup.Threw? {
      SoloBeforeView(route, verb, user, env(5), false);
    } else {
      SoloView(route, verb, user, env(5), false);
    }
  }

  /** OPTIONS and the methods that are not served, in full. */
  lemma UnservedAnswers(
    route: Route, verb: Verb, user: User, env: nat -> Attempt, entries: Entries, prior: Response)
    ensures var r, allow := Served(route, verb, user, env, entries, prior).response,
                            map["Allow" := Allow(route.methods)];
            && (verb == OPTIONS ==> r == Response(200, allow, []))
            && (verb != OPTIONS && verb !in route.methods ==> r == Response(405, allow, []))
  {
    if verb == OPTIONS || verb !in route.methods {
      var f := AttemptFunction(route, verb, user, env);
      var start := World(entries, prior, 0, 0);
      AttemptIs(route, verb, user, env, start);
      assert OutcomeAt(f, start, 0) == Done;
      FirstSettled(f, start, RETRIES, 0);
      assert StateAt(f, start, 1) == f(StateAt(f, start, 0)).0;
    }
  }
}
