/** The router: a table of routes, the loop that picks one, and the request from path to response. */
module Router {
  import opened Json
  import opened Options
  import opened ConnectionPool
  import R = Routes
  import opened Dispatch

  /** What a request comes out as: nothing, or the route, its handler and the captures. */
  type Found<H> = Option<(R.Route, H, seq<string>)>

  /** The table, kept as two maps with the same keys: what a pattern is served by, and its compiled form. */
  class Table<H> {
    var routes: map<R.Route, H>
    var regex: map<R.Route, R.Pattern>

    constructor ()
      ensures Valid() && routes == map[]
    {
      routes, regex := map[], map[];
    }

    ghost predicate Valid()
      reads this
    {
      && routes.Keys == regex.Keys
      && forall r :: r in regex ==> regex[r] == R.Compile(r)
    }

    method Add(route: R.Route, handler: H)
      requires Valid()
      modifies this
      ensures Valid() && routes == old(routes)[route := handler]
    {
      routes := routes[route := handler];
      regex := regex[route := R.Compile(route)];
    }

    /** Tries the routes in the order the map yields them, whichever that is, and stops at the first that
        matches. The result does not depend on the order, and the compiled form is always found. */
    method Find(uri: string, order: seq<R.Route>) returns (found: Found<H>)
      requires Valid() && forall r :: r in order <==> r in routes
      ensures forall r, handler, captures ::
                found == Some((r, handler, captures))
                <==> r in routes && routes[r] == handler && R.MatchRoute(r, uri) == Some(captures)
    {
      for i := 0 to |order|
        invariant forall j :: 0 <= j < i ==> R.MatchRoute(order[j], uri).None?
      {
        assert order[i] in routes;
        var captures := R.MatchPattern(regex[order[i]], uri);
        if captures.Some? {
          forall r | R.MatchRoute(r, uri).Some? ensures r == order[i] {
            R.AtMostOneRoute(r, order[i], uri);
          }
          return Some((order[i], routes[order[i]], captures.value));
        }
      }
      found := None;
    }
  }

  /** What a route is served by: the redirect, or a view behind the middleware. */
  datatype Handler = Redirecting | Serving(route: Route)

  /** The handler the daemon registers for a route. */
  function HandlerOf(route: R.Route): Handler {
    match route
    case Redirect => Redirecting
    case Websocket | Host | Networks | Domains => Serving(Route([GET], false))
    case Show => Serving(Route([GET], true))
    case Autostart | Bootmenu => Serving(Route([POST, DELETE], true))
    case Metadata | Start | Shutdown => Serving(Route([POST], true))
  }

  /** The registrations of the application's constructor, in its order. */
  const REGISTRATIONS: seq<(R.Route, Handler)> := [
    (R.Redirect, Redirecting),
    (R.Websocket, Serving(Route([GET], false))),
    (R.Host, Serving(Route([GET], false))),
    (R.Networks, Serving(Route([GET], false))),
    (R.Domains, Serving(Route([GET], false))),
    (R.Show, Serving(Route([GET], true))),
    (R.Autostart, Serving(Route([POST, DELETE], true))),
    (R.Metadata, Serving(Route([POST], true))),
    (R.Bootmenu, Serving(Route([POST, DELETE], true))),
    (R.Start, Serving(Route([POST], true))),
    (R.Shutdown, Serving(Route([POST], true)))]

  lemma RegisteredAs(i: nat)
    requires i < |REGISTRATIONS|
    ensures REGISTRATIONS[i].1 == HandlerOf(REGISTRATIONS[i].0)
  {
  }

  lemma Registered(route: R.Route) returns (i: nat)
    ensures i < |REGISTRATIONS| && REGISTRATIONS[i].0 == route
  {
    match route
    case Redirect => i := 0;
    case Websocket => i := 1;
    case Host => i := 2;
    case Networks => i := 3;
    case Domains => i := 4;
    case Show => i := 5;
    case Autostart => i := 6;
    case Metadata => i := 7;
    case Bootmenu => i := 8;
    case Start => i := 9;
    case Shutdown => i := 10;
  }

  /** The table as the application fills it: every route, served by its own handler. */
  method Filled() returns (table: Table<Handler>)
    ensures fresh(table) && table.Valid()
    ensures forall r :: r in table.routes && table.routes[r] == HandlerOf(r)
  {
    table := new Table();
    for i := 0 to |REGISTRATIONS|
      invariant fresh(table) && table.Valid()
      invariant forall r :: r in table.routes ==> table.routes[r] == HandlerOf(r)
      invariant forall j :: 0 <= j < i ==> REGISTRATIONS[j].0 in table.routes
    {
      RegisteredAs(i);
      table.Add(REGISTRATIONS[i].0, REGISTRATIONS[i].1);
    }
    forall r: R.Route ensures r in table.routes {
      var i := Registered(r);
    }
  }

  datatype Request = Request(verb: Verb, uri: string)

  /** What the response holds before a route is picked. */
  const PRIOR: Response := Response(200, map["Content-Type" := "application/json"], [])

  function NotFound(verb: Verb): Response {
    Response(404, PRIOR.headers, if verb == OPTIONS then [] else [Detail("Not Found")])
  }

  function Redirected(uri: string): Response {
    Response(307, map["Location" := R.RedirectTarget(uri)], [])
  }

  /** The first capture; one that is not there reads as empty. */
  function UserOf(captures: seq<string>): string {
    if captures == [] then "" else captures[0]
  }

  /** The response to a request, given what matches its path. */
  function Answer(request: Request, found: Found<Handler>, env: nat -> Attempt, entries: Entries): Response {
    match found
    case None => NotFound(request.verb)
    case Some((_, Redirecting, _)) => Redirected(request.uri)
    case Some((_, Serving(route), captures)) =>
      Dispatch.Served(route, request.verb, UserOf(captures), env, entries, PRIOR).response
  }

  /** The router: it runs the handler stored for the matched route with its retries, and answers itself if
      no route matches. */
  method Run(table: Table<Handler>, request: Request, order: seq<R.Route>, env: nat -> Attempt, entries: Entries)
    returns (response: Response, found: Found<Handler>)
    requires table.Valid() && forall r :: r in order <==> r in table.routes
    ensures forall r, handler, captures ::
              found == Some((r, handler, captures))
              <==> r in table.routes && table.routes[r] == handler && R.MatchRoute(r, request.uri) == Some(captures)
    ensures response == Answer(request, found, env, entries)
  {
    found := table.Find(request.uri, order);
    if found.None? {
      return NotFound(request.verb), found;
    }
    var (_, handler, captures) := found.value;
    match handler {
      case Redirecting =>
        response := Redirected(request.uri);
      case Serving(route) =>
        var w := Serve(route, request.verb, UserOf(captures), env, entries, PRIOR);
        response := w.response;
    }
  }

  /** What the application's table finds for a path, by the contract of `Run`. */
  ghost predicate FoundInApp(uri: string, found: Found<Handler>) {
    forall r, handler, captures ::
      found == Some((r, handler, captures))
      <==> handler == HandlerOf(r) && R.MatchRoute(r, uri) == Some(captures)
  }

  /** From path to response: with the application's table, in whatever order it is tried, the path of a
      user and a domain is answered by its own route, for that user. */
  lemma PathsAnswered(
    route: R.Route, user: string, domain: string, verb: Verb, env: nat -> Attempt, entries: Entries,
    found: Found<Handler>)
    requires route != R.Redirect && R.Segment(user) && (R.OnDomain(route) ==> R.Segment(domain))
    requires FoundInApp(R.Path(route, user, domain), found)
    ensures found == Some((route, HandlerOf(route), R.Filled(route, user, domain)))
    ensures Answer(Request(verb, R.Path(route, user, domain)), found, env, entries)
         == Dispatch.Served(HandlerOf(route).route, verb, user, env, entries, PRIOR).response
  {
    R.RoundTrip(route, user, domain);
  }

  /** The request is found to be for the route, with a handler of the given methods and need of a domain,
      and answered by it for the user captured first. */
  ghost predicate AnsweredAs(
    uri: string, route: R.Route, served: Route, captures: seq<string>, verb: Verb,
    env: nat -> Attempt, entries: Entries, found: Found<Handler>)
    requires captures != []
  {
    && found == Some((route, Serving(served), captures))
    && Answer(Request(verb, uri), found, env, entries)
       == Dispatch.Served(served, verb, captures[0], env, entries, PRIOR).response
  }

  lemma AnsweredBy(
    route: R.Route, served: Route, uri: string, captures: seq<string>, verb: Verb, env: nat -> Attempt,
    entries: Entries, found: Found<Handler>)
    requires FoundInApp(uri, found) && captures != [] && HandlerOf(route) == Serving(served)
    ensures R.MatchRoute(route, uri) == Some(captures) ==>
              AnsweredAs(uri, route, served, captures, verb, env, entries, found)
  {
    assert R.MatchRoute(route, uri) == Some(captures) ==> found == Some((route, Serving(served), captures));
  }

  /** The paths of a user in full: all are read, and none needs a domain. */
  lemma UserPathsAnswered(
    uri: string, u: string, verb: Verb, env: nat -> Attempt, entries: Entries, found: Found<Handler>)
    requires u != "" && '/' !in u && FoundInApp(uri, found)
    ensures uri == "/users/" + u + "/websocket/" ==>
              AnsweredAs(uri, R.Websocket, Route([GET], false), [u], verb, env, entries, found)
    ensures uri == "/users/" + u + "/host/" ==>
              AnsweredAs(uri, R.Host, Route([GET], false), [u], verb, env, entries, found)
    ensures uri == "/users/" + u + "/host/networks/" ==>
              AnsweredAs(uri, R.Networks, Route([GET], false), [u], verb, env, entries, found)
    ensures uri == "/users/" + u + "/domains/" ==>
              AnsweredAs(uri, R.Domains, Route([GET], false), [u], verb, env, entries, found)
  {
    R.UserRoutes(uri, u);
    AnsweredBy(R.Websocket, Route([GET], false), uri, [u], verb, env, entries, found);
    AnsweredBy(R.Host, Route([GET], false), uri, [u], verb, env, entries, found);
    AnsweredBy(R.Networks, Route([GET], false), uri, [u], verb, env, entries, found);
    AnsweredBy(R.Domains, Route([GET], false), uri, [u], verb, env, entries, found);
  }

  /** The paths of a domain in full, with the methods they take: all need the domain. */
  lemma DomainPathsAnswered(
    uri: string, u: string, d: string, verb: Verb, env: nat -> Attempt, entries: Entries, found: Found<Handler>)
    requires u != "" && '/' !in u && d != "" && '/' !in d && FoundInApp(uri, found)
    ensures uri == "/users/" + u + "/domains/" + d + "/" ==>
              AnsweredAs(uri, R.Show, Route([GET], true), [u, d], verb, env, entries, found)
    ensures uri == "/users/" + u + "/domains/" + d + "/autostart/" ==>
              AnsweredAs(uri, R.Autostart, Route([POST, DELETE], true), [u, d], verb, env, entries, found)
    ensures uri == "/users/" + u + "/domains/" + d + "/metadata/" ==>
              AnsweredAs(uri, R.Metadata, Route([POST], true), [u, d], verb, env, entries, found)
  {
    R.DomainRoutes(uri, u, d);
    AnsweredBy(R.Show, Route([GET], true), uri, [u, d], verb, env, entries, found);
    AnsweredBy(R.Autostart, Route([POST, DELETE], true), uri, [u, d], verb, env, entries, found);
    AnsweredBy(R.Metadata, Route([POST], true), uri, [u, d], verb, env, entries, found);
  }

  lemma PowerPathsAnswered(
    uri: string, u: string, d: string, verb: Verb, env: nat -> Attempt, entries: Entries, found: Found<Handler>)
    requires u != "" && '/' !in u && d != "" && '/' !in d && FoundInApp(uri, found)
    ensures uri == "/users/" + u + "/domains/" + d + "/bootmenu/" ==>
              AnsweredAs(uri, R.Bootmenu, Route([POST, DELETE], true), [u, d], verb, env, entries, found)
    ensures uri == "/users/" + u + "/domains/" + d + "/start/" ==>
              AnsweredAs(uri, R.Start, Route([POST], true), [u, d], verb, env, entries, found)
    ensures uri == "/users/" + u + "/domains/" + d + "/shutdown/" ==>
              AnsweredAs(uri, R.Shutdown, Route([POST], true), [u, d], verb, env, entries, found)
  {
    R.PowerRoutes(uri, u, d);
    AnsweredBy(R.Bootmenu, Route([POST, DELETE], true), uri, [u, d], verb, env, entries, found);
    AnsweredBy(R.Start, Route([POST], true), uri, [u, d], verb, env, entries, found);
    AnsweredBy(R.Shutdown, Route([POST], true), uri, [u, d], verb, env, entries, found);
  }

  /** Whatever else is long enough and has no slash at its end is redirected to itself with one. */
  lemma UnslashedRedirected(
    uri: string, verb: Verb, env: nat -> Attempt, entries: Entries, found: Found<Handler>)
    requires FoundInApp(uri, found)
    requires |uri| >= 2 && uri[|uri| - 1] != '/'
    requires '\n' !in uri[..|uri| - 1] && '\r' !in uri[..|uri| - 1]
    ensures Answer(Request(verb, uri), found, env, entries) == Response(307, map["Location" := uri + "/"], [])
  {
    R.RedirectTakes(uri);
    R.CapturesOf(R.Redirect, uri);
    assert found == Some((R.Redirect, Redirecting, []));
  }

  /** A path that no route matches is not found, and OPTIONS gets no body. */
  lemma UnmatchedNotFound(
    uri: string, verb: Verb, env: nat -> Attempt, entries: Entries, found: Found<Handler>)
    requires FoundInApp(uri, found) && forall r :: R.MatchRoute(r, uri).None?
    ensures Answer(Request(verb, uri), found, env, entries)
         == Response(404, map["Content-Type" := "application/json"],
                     if verb == OPTIONS then [] else [Object(map["detail" := String("Not Found")])])
  {
    FoundMatches(uri, found);
  }

  lemma FoundMatches(uri: string, found: Found<Handler>)
    requires FoundInApp(uri, found)
    ensures found.Some? ==> R.MatchRoute(found.value.0, uri) == Some(found.value.2)
  {
    if found.Some? {
      assert found == Some((found.value.0, found.value.1, found.value.2));
    }
  }

  /** The same path without its last slash is answered with a redirect to it. */
  lemma ShortPathsRedirected(
    route: R.Route, user: string, domain: string, short: string, verb: Verb, env: nat -> Attempt, entries: Entries,
    found: Found<Handler>)
    requires route != R.Redirect && R.Segment(user) && (R.OnDomain(route) ==> R.Segment(domain))
    requires forall c :: c in user + domain ==> !R.LineTerminator(c)
    requires R.RedirectTarget(short) == R.Path(route, user, domain)
    requires FoundInApp(short, found)
    ensures Answer(Request(verb, short), found, env, entries)
         == Response(307, map["Location" := R.Path(route, user, domain)], [])
  {
    R.RedirectRepairs(route, user, domain, short);
    assert found == Some((R.Redirect, Redirecting, []));
  }

  /** The content type set before a route is picked does not outlive a match. */
  lemma ContentTypeLost(request: Request, found: Found<Handler>, env: nat -> Attempt, entries: Entries, other: Response)
    requires found.Some? && found.value.1.Serving?
    ensures Answer(request, found, env, entries)
         == Dispatch.Served(
              found.value.1.route, request.verb, UserOf(found.value.2), env, entries, other).response
  {
    PriorLost(found.value.1.route, request.verb, UserOf(found.value.2), env, entries, PRIOR, other);
  }
}
