/** The route table: which request paths match which route, with what captures. */
module Routes {
  import opened Options

  /** A path pattern is literal text and captures of one or more characters other than a slash. */
  datatype Piece = Literal(text: string) | Capture

  predicate SlashFree(s: string) {
    '/' !in s
  }

  /** A text a capture can stand for. */
  predicate Segment(s: string) {
    s != "" && SlashFree(s)
  }

  function Captures(pieces: seq<Piece>): nat {
    if pieces == [] then 0 else Captures(pieces[1..]) + if pieces[0].Capture? then 1 else 0
  }

  predicate Fits(pieces: seq<Piece>, captures: seq<string>) {
    |captures| == Captures(pieces) && forall c :: c in captures ==> Segment(c)
  }

  /** The path with the captures filled in. */
  function Print(pieces: seq<Piece>, captures: seq<string>): string
    requires |captures| == Captures(pieces)
  {
    if pieces == [] then ""
    else if pieces[0].Literal? then pieces[0].text + Print(pieces[1..], captures)
    else captures[0] + Print(pieces[1..], captures[1..])
  }

  /** The length of the longest prefix without a slash. */
  function RunLength(s: string): (n: nat)
    ensures n <= |s| && SlashFree(s[..n])
    ensures n < |s| ==> s[n] == '/'
  {
    if s == "" || s[0] == '/' then 0
    else
      var n := RunLength(s[1..]);
      assert s[..n + 1] == [s[0]] + s[1..][..n];
      n + 1
  }

  /** Matching as a backtracking engine does it: a capture takes as much as it can, then less and less. */
  function Match(pieces: seq<Piece>, uri: string): Option<seq<string>>
    decreases |pieces|, 0, 0
  {
    if pieces == [] then (if uri == "" then Some([]) else None)
    else if pieces[0].Literal? then
      var text := pieces[0].text;
      if text <= uri then Match(pieces[1..], uri[|text|..]) else None
    else MatchCapture(pieces, uri, RunLength(uri))
  }

  function MatchCapture(pieces: seq<Piece>, uri: string, n: nat): Option<seq<string>>
    requires pieces != [] && n <= |uri|
    decreases |pieces| - 1, 1, n
  {
    if n == 0 then None
    else
      match Match(pieces[1..], uri[n..])
      case Some(captures) => Some([uri[..n]] + captures)
      case None => MatchCapture(pieces, uri, n - 1)
  }

  lemma {:induction false} MatchSound(pieces: seq<Piece>, uri: string)
    requires Match(pieces, uri).Some?
    ensures Fits(pieces, Match(pieces, uri).value)
    ensures Print(pieces, Match(pieces, uri).value) == uri
    decreases |pieces|, 0, 0
  {
    if pieces != [] {
      if pieces[0].Literal? {
        MatchSound(pieces[1..], uri[|pieces[0].text|..]);
      } else {
        MatchCaptureSound(pieces, uri, RunLength(uri));
      }
    }
  }

  lemma {:induction false} MatchCaptureSound(pieces: seq<Piece>, uri: string, n: nat)
    requires pieces != [] && pieces[0].Capture? && n <= |uri| && SlashFree(uri[..n])
    requires MatchCapture(pieces, uri, n).Some?
    ensures Fits(pieces, MatchCapture(pieces, uri, n).value)
    ensures Print(pieces, MatchCapture(pieces, uri, n).value) == uri
    decreases |pieces| - 1, 1, n
  {
    var rest := Match(pieces[1..], uri[n..]);
    if rest.Some? {
      MatchSound(pieces[1..], uri[n..]);
      var captures := [uri[..n]] + rest.value;
      assert captures[1..] == rest.value;
    } else {
      assert uri[..n - 1] == uri[..n][..n - 1];
      MatchCaptureSound(pieces, uri, n - 1);
    }
  }

  lemma {:induction false} RunLengthCovers(s: string, t: string)
    requires SlashFree(s)
    ensures RunLength(s + t) >= |s|
  {
    if s != "" {
      assert s[0] in s;
      assert (s + t)[1..] == s[1..] + t;
      RunLengthCovers(s[1..], t);
    }
  }

  lemma {:induction false} MatchComplete(pieces: seq<Piece>, captures: seq<string>)
    requires Fits(pieces, captures)
    ensures Match(pieces, Print(pieces, captures)).Some?
    decreases |pieces|, 0, 0
  {
    if pieces != [] {
      var uri := Print(pieces, captures);
      if pieces[0].Literal? {
        var rest := Print(pieces[1..], captures);
        assert uri[|pieces[0].text|..] == rest;
        MatchComplete(pieces[1..], captures);
      } else {
        var rest := Print(pieces[1..], captures[1..]);
        assert captures[0] in captures;
        RunLengthCovers(captures[0], rest);
        assert uri[|captures[0]|..] == rest;
        MatchComplete(pieces[1..], captures[1..]);
        MatchCaptureComplete(pieces, uri, |captures[0]|, RunLength(uri));
      }
    }
  }

  lemma {:induction false} MatchCaptureComplete(pieces: seq<Piece>, uri: string, m: nat, n: nat)
    requires pieces != [] && 0 < m <= n <= |uri|
    requires Match(pieces[1..], uri[m..]).Some?
    ensures MatchCapture(pieces, uri, n).Some?
    decreases n
  {
    if m < n {
      MatchCaptureComplete(pieces, uri, m, n - 1);
    }
  }

  /** Every capture is followed by the end or by a slash. */
  predicate Separated(pieces: seq<Piece>) {
    forall i :: 0 <= i < |pieces| - 1 && pieces[i].Capture? ==>
      pieces[i + 1].Literal? && pieces[i + 1].text != "" && pieces[i + 1].text[0] == '/'
  }

  lemma {:induction false} SegmentsSplit(a: string, b: string, s: string, t: string)
    requires SlashFree(a) && SlashFree(b) && a + s == b + t
    requires s == "" || s[0] == '/'
    requires t == "" || t[0] == '/'
    ensures a == b && s == t
  {
    assert a == "" ==> a + s == s;
    assert b == "" ==> b + t == t;
    if a != "" && b != "" {
      assert (a + s)[0] == a[0] && (b + t)[0] == b[0];
      assert (a + s)[1..] == a[1..] + s && (b + t)[1..] == b[1..] + t;
      SegmentsSplit(a[1..], b[1..], s, t);
    }
  }

  lemma SamePrefix(p: string, x: string, y: string)
    requires p + x == p + y
    ensures x == y
  {
    assert (p + x)[|p|..] == x && (p + y)[|p|..] == y;
  }

  lemma Regroup(a: string, b: string, c: string)
    ensures a + b + c == a + (b + c)
  {
  }

  /** A path determines the captures it is printed from. */
  lemma {:induction false} PrintInjective(pieces: seq<Piece>, c: seq<string>, d: seq<string>)
    requires Separated(pieces) && Fits(pieces, c) && Fits(pieces, d)
    requires Print(pieces, c) == Print(pieces, d)
    ensures c == d
    decreases |pieces|
  {
    if pieces != [] {
      assert forall i :: 0 <= i < |pieces[1..]| ==> pieces[1..][i] == pieces[i + 1];
      if pieces[0].Literal? {
        var n := |pieces[0].text|;
        assert Print(pieces, c)[n..] == Print(pieces[1..], c);
        assert Print(pieces, d)[n..] == Print(pieces[1..], d);
        PrintInjective(pieces[1..], c, d);
      } else {
        assert c[0] in c && d[0] in d;
        SegmentsSplit(c[0], d[0], Print(pieces[1..], c[1..]), Print(pieces[1..], d[1..]));
        PrintInjective(pieces[1..], c[1..], d[1..]);
      }
    }
  }

  // ----- The eleven routes

  datatype Route =
    | Redirect
    | Websocket | Host | Networks | Domains
    | Show | Autostart | Metadata | Bootmenu | Start | Shutdown

  predicate OnDomain(route: Route) {
    route.Show? || route.Autostart? || route.Metadata? || route.Bootmenu? || route.Start? || route.Shutdown?
  }

  /** What follows the user, or on a domain route the domain. */
  function Tail(route: Route): string {
    match route
    case Redirect => ""
    case Websocket => "/websocket/"
    case Host => "/host/"
    case Networks => "/host/networks/"
    case Domains => "/domains/"
    case Show => "/"
    case Autostart => "/autostart/"
    case Metadata => "/metadata/"
    case Bootmenu => "/bootmenu/"
    case Start => "/start/"
    case Shutdown => "/shutdown/"
  }

  function Pieces(route: Route): seq<Piece>
    requires route != Redirect
  {
    if OnDomain(route) then [Literal("/users/"), Capture, Literal("/domains/"), Capture, Literal(Tail(route))]
    else [Literal("/users/"), Capture, Literal(Tail(route))]
  }

  predicate LineTerminator(c: char) {
    c == '\n' || c == '\r'
  }

  /** At least two characters, the last not a slash, no line terminator before it. */
  predicate MatchesRedirect(uri: string) {
    && |uri| >= 2
    && uri[|uri| - 1] != '/'
    && forall i :: 0 <= i < |uri| - 1 ==> !LineTerminator(uri[i])
  }

  /** A compiled pattern: the redirect's, or pieces. */
  datatype Pattern = Unslashed | Sequence(pieces: seq<Piece>)

  function Compile(route: Route): Pattern {
    if route == Redirect then Unslashed else Sequence(Pieces(route))
  }

  function MatchPattern(pattern: Pattern, uri: string): Option<seq<string>> {
    match pattern
    case Unslashed => if MatchesRedirect(uri) then Some([]) else None
    case Sequence(pieces) => Match(pieces, uri)
  }

  function MatchRoute(route: Route, uri: string): Option<seq<string>> {
    MatchPattern(Compile(route), uri)
  }

  /** A captured user, and a domain where the route has one, filled into a route. */
  function Path(route: Route, user: string, domain: string): string
    requires route != Redirect
  {
    "/users/" + user + AfterUser(route, domain)
  }

  /** What comes after the user. */
  function AfterUser(route: Route, domain: string): string
    requires route != Redirect
  {
    if OnDomain(route) then "/domains/" + domain + Tail(route) else Tail(route)
  }

  function Filled(route: Route, user: string, domain: string): seq<string> {
    if OnDomain(route) then [user, domain] else [user]
  }

  lemma PrintOne(before: string, rest: seq<Piece>, captures: seq<string>, capture: string)
    requires |captures| == Captures(rest)
    ensures var pieces := [Literal(before), Capture] + rest;
            && Captures(pieces) == |captures| + 1
            && Print(pieces, [capture] + captures) == before + capture + Print(rest, captures)
  {
    var pieces := [Literal(before), Capture] + rest;
    assert pieces[1..] == [Capture] + rest;
    assert pieces[1..][1..] == rest;
    assert ([capture] + captures)[1..] == captures;
  }

  lemma PrintTwo(a: string, b: string, tail: string, x: string, y: string)
    ensures var pieces := [Literal(a), Capture, Literal(b), Capture, Literal(tail)];
            && Captures(pieces) == 2
            && Print(pieces, [x, y]) == a + x + (b + y + tail)
  {
    var last, inner := [Literal(tail)], [Literal(b), Capture, Literal(tail)];
    assert last[1..] == [];
    PrintOne(b, last, [], y);
    assert inner == [Literal(b), Capture] + last;
    assert [y] + [] == [y];
    PrintOne(a, inner, [y], x);
    assert [Literal(a), Capture, Literal(b), Capture, Literal(tail)] == [Literal(a), Capture] + inner;
    assert [x] + [y] == [x, y];
  }

  lemma PrintSingle(a: string, tail: string, x: string)
    ensures var pieces := [Literal(a), Capture, Literal(tail)];
            && Captures(pieces) == 1
            && Print(pieces, [x]) == a + x + tail
  {
    var last := [Literal(tail)];
    assert last[1..] == [];
    PrintOne(a, last, [], x);
    assert [Literal(a), Capture, Literal(tail)] == [Literal(a), Capture] + last;
    assert [x] + [] == [x];
  }

  lemma PathIsPrint(route: Route, user: string, domain: string)
    requires route != Redirect
    ensures Captures(Pieces(route)) == |Filled(route, user, domain)|
    ensures Print(Pieces(route), Filled(route, user, domain)) == Path(route, user, domain)
  {
    if OnDomain(route) {
      PrintTwo("/users/", "/domains/", Tail(route), user, domain);
    } else {
      PrintSingle("/users/", Tail(route), user);
    }
  }

  lemma RoutesSeparated(route: Route)
    requires route != Redirect
    ensures Separated(Pieces(route))
  {
  }

  /** A match is exactly a way to read the path as printed from captures. */
  lemma MatchIsPrint(route: Route, uri: string)
    requires route != Redirect
    ensures MatchRoute(route, uri).Some? ==>
              && Fits(Pieces(route), MatchRoute(route, uri).value)
              && Print(Pieces(route), MatchRoute(route, uri).value) == uri
    ensures forall captures | Fits(Pieces(route), captures) && Print(Pieces(route), captures) == uri ::
              MatchRoute(route, uri) == Some(captures)
  {
    if MatchRoute(route, uri).Some? {
      MatchSound(Pieces(route), uri);
    }
    forall captures | Fits(Pieces(route), captures) && Print(Pieces(route), captures) == uri
      ensures MatchRoute(route, uri) == Some(captures)
    {
      MatchComplete(Pieces(route), captures);
      MatchSound(Pieces(route), uri);
      RoutesSeparated(route);
      PrintInjective(Pieces(route), captures, MatchRoute(route, uri).value);
    }
  }

  /** Printing and matching are inverse: the path of a user and a domain matches its route with exactly
      those captures, and whatever matches is such a path. */
  lemma RoundTrip(route: Route, user: string, domain: string)
    requires route != Redirect && Segment(user) && (OnDomain(route) ==> Segment(domain))
    ensures MatchRoute(route, Path(route, user, domain)) == Some(Filled(route, user, domain))
  {
    PathIsPrint(route, user, domain);
    MatchIsPrint(route, Path(route, user, domain));
    assert Fits(Pieces(route), Filled(route, user, domain));
  }

  lemma MatchedIsPath(route: Route, uri: string) returns (user: string, domain: string)
    requires route != Redirect && MatchRoute(route, uri).Some?
    ensures Segment(user) && Segment(domain)
    ensures uri == Path(route, user, domain) && MatchRoute(route, uri) == Some(Filled(route, user, domain))
  {
    MatchIsPrint(route, uri);
    var captures := MatchRoute(route, uri).value;
    PathIsPrint(route, "u", "d");
    user, domain := Fill(route, captures);
    PathIsPrint(route, user, domain);
  }

  lemma Fill(route: Route, captures: seq<string>) returns (user: string, domain: string)
    requires |captures| == (if OnDomain(route) then 2 else 1) && forall c :: c in captures ==> Segment(c)
    ensures Segment(user) && Segment(domain) && captures == Filled(route, user, domain)
  {
    user := captures[0];
    domain := if OnDomain(route) then captures[1] else "d";
  }

  // ----- The texts of the routes

  lemma OneCapture(route: Route, tail: string, uri: string, u: string)
    requires route != Redirect && !OnDomain(route) && Tail(route) == tail
    ensures MatchRoute(route, uri) == Some([u])
       <==> u != "" && '/' !in u && uri == "/users/" + u + tail
  {
    PathIsPrint(route, u, "");
    MatchIsPrint(route, uri);
    assert [u][0] in [u];
  }

  lemma TwoCaptures(route: Route, tail: string, uri: string, u: string, d: string)
    requires OnDomain(route) && Tail(route) == tail
    ensures MatchRoute(route, uri) == Some([u, d])
       <==> && u != "" && '/' !in u && d != "" && '/' !in d
            && uri == "/users/" + u + "/domains/" + d + tail
  {
    PathIsPrint(route, u, d);
    MatchIsPrint(route, uri);
    assert [u, d][0] in [u, d] && [u, d][1] in [u, d];
    Regroup("/users/" + u, "/domains/" + d, tail);
    Regroup("/users/" + u, "/domains/", d);
  }

  /** Which path each route with captures has, in full. */
  lemma UserRoutes(uri: string, u: string)
    ensures MatchRoute(Websocket, uri) == Some([u])
       <==> u != "" && '/' !in u && uri == "/users/" + u + "/websocket/"
    ensures MatchRoute(Host, uri) == Some([u])
       <==> u != "" && '/' !in u && uri == "/users/" + u + "/host/"
    ensures MatchRoute(Networks, uri) == Some([u])
       <==> u != "" && '/' !in u && uri == "/users/" + u + "/host/networks/"
    ensures MatchRoute(Domains, uri) == Some([u])
       <==> u != "" && '/' !in u && uri == "/users/" + u + "/domains/"
  {
    OneCapture(Websocket, "/websocket/", uri, u);
    OneCapture(Host, "/host/", uri, u);
    OneCapture(Networks, "/host/networks/", uri, u);
    OneCapture(Domains, "/domains/", uri, u);
  }

  lemma DomainRoutes(uri: string, u: string, d: string)
    ensures MatchRoute(Show, uri) == Some([u, d])
       <==> && u != "" && '/' !in u && d != "" && '/' !in d
            && uri == "/users/" + u + "/domains/" + d + "/"
    ensures MatchRoute(Autostart, uri) == Some([u, d])
       <==> && u != "" && '/' !in u && d != "" && '/' !in d
            && uri == "/users/" + u + "/domains/" + d + "/autostart/"
    ensures MatchRoute(Metadata, uri) == Some([u, d])
       <==> && u != "" && '/' !in u && d != "" && '/' !in d
            && uri == "/users/" + u + "/domains/" + d + "/metadata/"
  {
    TwoCaptures(Show, "/", uri, u, d);
    TwoCaptures(Autostart, "/autostart/", uri, u, d);
    TwoCaptures(Metadata, "/metadata/", uri, u, d);
  }

  lemma PowerRoutes(uri: string, u: string, d: string)
    ensures MatchRoute(Bootmenu, uri) == Some([u, d])
       <==> && u != "" && '/' !in u && d != "" && '/' !in d
            && uri == "/users/" + u + "/domains/" + d + "/bootmenu/"
    ensures MatchRoute(Start, uri) == Some([u, d])
       <==> && u != "" && '/' !in u && d != "" && '/' !in d
            && uri == "/users/" + u + "/domains/" + d + "/start/"
    ensures MatchRoute(Shutdown, uri) == Some([u, d])
       <==> && u != "" && '/' !in u && d != "" && '/' !in d
            && uri == "/users/" + u + "/domains/" + d + "/shutdown/"
  {
    TwoCaptures(Bootmenu, "/bootmenu/", uri, u, d);
    TwoCaptures(Start, "/start/", uri, u, d);
    TwoCaptures(Shutdown, "/shutdown/", uri, u, d);
  }

  /** Nothing else matches a route: every match has the one capture, or the two. */
  lemma CapturesOf(route: Route, uri: string)
    requires MatchRoute(route, uri).Some?
    ensures |MatchRoute(route, uri).value|
         == match route
            case Redirect => 0
            case Websocket | Host | Networks | Domains => 1
            case _ => 2
  {
    if route != Redirect {
      MatchIsPrint(route, uri);
      PathIsPrint(route, "u", "d");
    }
  }

  /** The redirect takes what is at least two characters long and does not end in a slash, unless a line
      ends before its last character. */
  lemma RedirectTakes(uri: string)
    ensures MatchRoute(Redirect, uri).Some?
       <==> && |uri| >= 2 && uri[|uri| - 1] != '/'
            && '\n' !in uri[..|uri| - 1] && '\r' !in uri[..|uri| - 1]
  {
    if |uri| >= 2 {
      var init := uri[..|uri| - 1];
      assert forall i :: 0 <= i < |init| ==> init[i] == uri[i];
    }
  }

  // ----- Disjointness

  lemma TailsDiffer(r: Route, q: Route)
    requires r != Redirect && q != Redirect && OnDomain(r) == OnDomain(q) && Tail(r) == Tail(q)
    ensures r == q
  {
  }

  lemma NotADomainPath(r: Route, tail: string)
    requires r != Redirect && !OnDomain(r) && Tail(r) == "/domains/" + tail
    ensures tail == ""
  {
    assert Tail(r)[1] == ("/domains/" + tail)[1] == 'd';
  }

  lemma DomainDetermines(r: Route, d: string, q: Route, e: string)
    requires OnDomain(r) && OnDomain(q) && Segment(d) && Segment(e)
    requires d + Tail(r) == e + Tail(q)
    ensures r == q
  {
    SegmentsSplit(d, e, Tail(r), Tail(q));
    TailsDiffer(r, q);
  }

  lemma DomainPathIsNoOther(r: Route, q: Route, tail: string)
    requires q != Redirect && !OnDomain(q) && tail != ""
    ensures "/domains/" + tail != Tail(q)
  {
    if "/domains/" + tail == Tail(q) {
      NotADomainPath(q, tail);
    }
  }

  lemma AfterUserDetermines(r: Route, d: string, q: Route, e: string)
    requires r != Redirect && q != Redirect && Segment(d) && Segment(e)
    requires AfterUser(r, d) == AfterUser(q, e)
    ensures r == q
  {
    Regroup("/domains/", d, Tail(r));
    Regroup("/domains/", e, Tail(q));
    if OnDomain(r) && OnDomain(q) {
      SamePrefix("/domains/", d + Tail(r), e + Tail(q));
      DomainDetermines(r, d, q, e);
    } else if !OnDomain(r) && !OnDomain(q) {
      TailsDiffer(r, q);
    } else if !OnDomain(q) {
      DomainPathIsNoOther(r, q, d + Tail(r));
    } else {
      DomainPathIsNoOther(q, r, e + Tail(q));
    }
  }

  lemma AfterUserSlash(r: Route, d: string)
    requires r != Redirect
    ensures AfterUser(r, d) != "" && AfterUser(r, d)[0] == '/'
  {
  }

  /** The path of a route ends in a slash. */
  lemma PathEndsInSlash(route: Route, user: string, domain: string)
    requires route != Redirect
    ensures Path(route, user, domain) != "" && Path(route, user, domain)[|Path(route, user, domain)| - 1] == '/'
  {
    var tail := Tail(route);
    assert tail[|tail| - 1] == '/';
  }

  lemma PathDetermines(r: Route, u: string, d: string, q: Route, v: string, e: string)
    requires r != Redirect && q != Redirect
    requires Segment(u) && Segment(d) && Segment(v) && Segment(e)
    requires Path(r, u, d) == Path(q, v, e)
    ensures r == q
  {
    var x, y := AfterUser(r, d), AfterUser(q, e);
    Regroup("/users/", u, x);
    Regroup("/users/", v, y);
    SamePrefix("/users/", u + x, v + y);
    AfterUserSlash(r, d);
    AfterUserSlash(q, e);
    SegmentsSplit(u, v, x, y);
    AfterUserDetermines(r, d, q, e);
  }

  lemma NotRedirected(route: Route, uri: string)
    requires route != Redirect && MatchRoute(route, uri).Some?
    ensures !MatchesRedirect(uri)
  {
    var user, domain := MatchedIsPath(route, uri);
    PathEndsInSlash(route, user, domain);
  }

  /** No path matches two routes. */
  lemma AtMostOneRoute(r: Route, q: Route, uri: string)
    requires MatchRoute(r, uri).Some? && MatchRoute(q, uri).Some?
    ensures r == q
  {
    if r != Redirect && q != Redirect {
      var u, d := MatchedIsPath(r, uri);
      var v, e := MatchedIsPath(q, uri);
      PathDetermines(r, u, d, q, v, e);
    } else if r != Redirect {
      NotRedirected(r, uri);
    } else if q != Redirect {
      NotRedirected(q, uri);
    }
  }

  // ----- Redirects

  function RedirectTarget(uri: string): string {
    uri + "/"
  }

  /** A redirect target is never redirected again. */
  lemma NoRedirectLoop(uri: string)
    ensures !MatchesRedirect(RedirectTarget(uri))
  {
    assert RedirectTarget(uri)[|RedirectTarget(uri)| - 1] == '/';
  }

  /** Every path that a route serves, sent without its last slash, matches the redirect and no route, so
      it is sent back to the path. */
  lemma RedirectRepairs(route: Route, user: string, domain: string, short: string)
    requires route != Redirect && Segment(user) && (OnDomain(route) ==> Segment(domain))
    requires forall c :: c in user + domain ==> !LineTerminator(c)
    requires RedirectTarget(short) == Path(route, user, domain)
    ensures MatchRoute(Redirect, short) == Some([])
    ensures forall r | MatchRoute(r, short).Some? :: r == Redirect
  {
    var path := Path(route, user, domain);
    NoTerminators(route, user, domain);
    BeforeLastSlash(route, user, domain);
    forall i | 0 <= i < |short| ensures !LineTerminator(short[i]) {
      assert RedirectTarget(short)[i] in path;
    }
    assert short[|short| - 1] == path[|path| - 2];
    forall r | MatchRoute(r, short).Some? ensures r == Redirect {
      AtMostOneRoute(r, Redirect, short);
    }
  }

  lemma BeforeLastSlash(route: Route, user: string, domain: string)
    requires route != Redirect && (OnDomain(route) ==> Segment(domain))
    ensures var path := Path(route, user, domain);
            |path| > 2 && path[|path| - 2] != '/'
  {
    var after, path := AfterUser(route, domain), Path(route, user, domain);
    assert |after| > 2 && after[|after| - 2] != '/' by {
      if route == Show {
        assert after[|after| - 2] == domain[|domain| - 1];
      }
    }
    assert path[|path| - 2] == after[|after| - 2];
  }

  lemma NoTerminators(route: Route, user: string, domain: string)
    requires route != Redirect
    requires forall c :: c in user + domain ==> !LineTerminator(c)
    ensures forall c :: c in Path(route, user, domain) ==> !LineTerminator(c)
  {
    forall c | c in user || c in domain ensures !LineTerminator(c) {
      assert c in user + domain;
    }
    TailWithoutTerminators(route);
    assert Terminated("/users/") == Terminated("/domains/") == false;
    TerminatedConcat("/users/", user);
    TerminatedConcat("/domains/", domain);
    TerminatedConcat("/domains/" + domain, Tail(route));
    TerminatedConcat("/users/" + user, AfterUser(route, domain));
  }

  predicate Terminated(s: string) {
    exists c :: c in s && LineTerminator(c)
  }

  lemma TerminatedConcat(s: string, t: string)
    ensures Terminated(s + t) <==> Terminated(s) || Terminated(t)
  {
    if Terminated(s) {
      var c :| c in s && LineTerminator(c);
      assert c in s + t;
    } else if Terminated(t) {
      var c :| c in t && LineTerminator(c);
      assert c in s + t;
    }
  }

  lemma TailWithoutTerminators(route: Route)
    requires route != Redirect
    ensures !Terminated(Tail(route))
  {
  }
}
