/** How a request finds its instance: the relay's route table, the authority it connects to,
    the redirects it repairs, and the gateway's choice of instance for root-rooted requests. */
module Routing {
  import opened Text
  import opened Rewriter
  import opened RewriterProperties
  import opened Registry
  import opened Ports

  datatype Route = Route(prefix: string, upstream: string)

  /** Where a request goes: the upstream, the path it is asked for, the prefix stripped. */
  datatype Resolved = Resolved(upstream: string, path: string, prefix: string)

  function Through(route: Route, path: string): Resolved
    requires PathMatches(route.prefix, path)
  {
    var rest := path[|route.prefix|..];
    Resolved(route.upstream, if rest == "" then "/" else rest, route.prefix)
  }

  /** The route that claims a path: the longest matching prefix, the first of equals. */
  predicate Claims(routes: seq<Route>, path: string, i: nat) {
    && i < |routes|
    && PathMatches(routes[i].prefix, path)
    && (forall j :: 0 <= j < |routes| && PathMatches(routes[j].prefix, path) ==>
          |routes[j].prefix| < |routes[i].prefix| || (|routes[j].prefix| == |routes[i].prefix| && i <= j))
  }

  ghost predicate IsResolution(routes: seq<Route>, fallback: string, path: string, r: Resolved) {
    if exists i: nat :: Claims(routes, path, i)
    then exists i: nat :: Claims(routes, path, i) && r == Through(routes[i], path)
    else r == Resolved(fallback, path, "") && forall j :: 0 <= j < |routes| ==> !PathMatches(routes[j].prefix, path)
  }

  /** `RelayConfig::resolve`: one pass over the routes, keeping the best so far. */
  method Resolve(routes: seq<Route>, fallback: string, path: string) returns (r: Resolved)
    ensures IsResolution(routes, fallback, path, r)
  {
    var best: Option<nat> := None;
    var k := 0;
    while k < |routes|
      invariant k <= |routes|
      invariant best.None? ==> forall j :: 0 <= j < k ==> !PathMatches(routes[j].prefix, path)
      invariant best.Some? ==> Claims(routes[..k], path, best.value)
    {
      if PathMatches(routes[k].prefix, path) {
        if best.None? || |routes[k].prefix| > |routes[best.value].prefix| {
          best := Some(k);
        }
      }
      k := k + 1;
    }
    assert routes[..k] == routes;
    match best
    case None => r := Resolved(fallback, path, "");
    case Some(i) => r := Through(routes[i], path);
  }

  /** At most one result satisfies the specification. */
  lemma ResolutionUnique(routes: seq<Route>, fallback: string, path: string, r: Resolved, i: nat)
    requires IsResolution(routes, fallback, path, r) && Claims(routes, path, i)
    ensures r == Through(routes[i], path)
  {
    var k: nat :| Claims(routes, path, k) && r == Through(routes[k], path);
    assert k == i;
  }

  /** No matching prefix is longer than the one that was stripped, and of equal ones the first
      route decides. */
  lemma LongestWins(routes: seq<Route>, fallback: string, path: string, r: Resolved, j: nat)
    requires IsResolution(routes, fallback, path, r) && j < |routes| && PathMatches(routes[j].prefix, path)
    ensures |r.prefix| >= |routes[j].prefix|
    ensures routes[j].prefix == r.prefix && (forall i :: 0 <= i < j ==> routes[i].prefix != r.prefix) ==>
      r.upstream == routes[j].upstream
    ensures path == r.prefix + r.path || (path == r.prefix && r.path == "/")
  {
    var best := BestMatch(routes, path, j);
    ResolutionUnique(routes, fallback, path, r, best);
    if routes[j].prefix == r.prefix && best != j {
      assert best < j;
    }
  }

  /** If any route matches, one of them claims the path. */
  lemma {:induction false} BestMatch(routes: seq<Route>, path: string, j: nat) returns (best: nat)
    requires j < |routes| && PathMatches(routes[j].prefix, path)
    ensures Claims(routes, path, best)
  {
    var front, last := routes[..|routes| - 1], routes[|routes| - 1];
    if exists i: nat :: i < |front| && PathMatches(front[i].prefix, path) {
      var i: nat :| i < |front| && PathMatches(front[i].prefix, path);
      var before := BestMatch(front, path, i);
      best := if PathMatches(last.prefix, path) && |last.prefix| > |front[before].prefix| then |front| else before;
      BetterOf(routes, path, before, best);
    } else {
      best := |front|;
      assert forall k :: 0 <= k < |front| ==> routes[k] == front[k];
    }
  }

  lemma BetterOf(routes: seq<Route>, path: string, before: nat, best: nat)
    requires routes != [] && Claims(routes[..|routes| - 1], path, before)
    requires var last := routes[|routes| - 1];
      best == if PathMatches(last.prefix, path) && |last.prefix| > |routes[before].prefix| then |routes| - 1 else before
    ensures Claims(routes, path, best)
  {
    var front := routes[..|routes| - 1];
    assert forall k :: 0 <= k < |front| ==> routes[k] == front[k];
  }

  /** Without a match the request goes to the default upstream as it is. */
  lemma NoMatch(routes: seq<Route>, fallback: string, path: string, r: Resolved)
    requires IsResolution(routes, fallback, path, r)
    requires forall j :: 0 <= j < |routes| ==> !PathMatches(routes[j].prefix, path)
    ensures r.upstream == fallback && r.path == path && r.prefix == ""
  {
  }

  // ---------------------------------------------------------------- authority

  datatype Authority = Authority(host: string, port: Port) | ConfigInvalid

  function TrimEndSlashes(s: string): string {
    if s != [] && s[|s| - 1] == '/' then TrimEndSlashes(s[..|s| - 1]) else s
  }

  function AuthorityOf(upstream: string): Authority {
    if !StartsWith(upstream, "http://") then ConfigInvalid
    else
      var rest := TrimEndSlashes(upstream[7..]);
      match SplitOnce(rest, ':')
      case None => Authority(rest, 80)
      case Some((host, port)) =>
        match ParseU16(port)
        case None => ConfigInvalid
        case Some(n) => Authority(host, n)
  }

  function Upstream(port: Port): string {
    "http://127.0.0.1:" + Decimal(port)
  }

  lemma {:induction false} TrailingSlashes(s: string, slashes: string)
    requires s == "" || s[|s| - 1] != '/'
    requires forall i :: 0 <= i < |slashes| ==> slashes[i] == '/'
    ensures TrimEndSlashes(s + slashes) == s
    decreases |slashes|
  {
    if slashes == "" {
      assert s + slashes == s;
    } else {
      var n := |slashes| - 1;
      assert (s + slashes)[..|s + slashes| - 1] == s + slashes[..n];
      assert (s + slashes)[|s + slashes| - 1] == slashes[n];
      TrailingSlashes(s, slashes[..n]);
    }
  }

  /** Host and port are recovered from the text of an upstream, whatever the host, and however
      many slashes follow; a number that is no port is refused. */
  lemma AuthorityRoundTrip(host: string, port: nat, slashes: string)
    requires ':' !in host && forall i :: 0 <= i < |slashes| ==> slashes[i] == '/'
    ensures AuthorityOf("http://" + (host + ":" + Decimal(port) + slashes))
         == if port <= 65535 then Authority(host, port) else ConfigInvalid
  {
    var rest := host + [':'] + Decimal(port);
    assert host + ":" + Decimal(port) + slashes == rest + slashes;
    assert ("http://" + (rest + slashes))[7..] == rest + slashes;
    assert rest[|rest| - 1] == Decimal(port)[|Decimal(port)| - 1];
    TrailingSlashes(rest, slashes);
    SplitOnceExact(host, Decimal(port), ':');
    DecimalRoundTrip(port);
  }

  /** Nothing but `http` is accepted. */
  lemma SchemeRefused(upstream: string)
    ensures !("http://" <= upstream) ==> AuthorityOf(upstream) == ConfigInvalid
  {
  }

  /** No text with anything but digits in it is taken for a port. */
  lemma PortRefused(host: string, port: string, i: nat)
    requires ':' !in host && i < |port| && !IsDigit(port[i]) && port[0] != '+' && port[|port| - 1] != '/'
    ensures AuthorityOf("http://" + (host + [':'] + port)) == ConfigInvalid
  {
    var rest := host + [':'] + port;
    assert ("http://" + rest)[7..] == rest;
    assert rest[|rest| - 1] == port[|port| - 1];
    assert TrimEndSlashes(rest) == rest;
    SplitOnceExact(host, port, ':');
    assert !IsNumber(port);
  }

  /** Without a port the upstream is on port 80. */
  lemma AuthorityDefaultPort(host: string, slashes: string)
    requires ':' !in host && (host == "" || host[|host| - 1] != '/') && forall i :: 0 <= i < |slashes| ==> slashes[i] == '/'
    ensures AuthorityOf("http://" + (host + slashes)) == Authority(host, 80)
  {
    assert ("http://" + (host + slashes))[7..] == host + slashes;
    TrailingSlashes(host, slashes);
  }

  /** The port of an instance is recovered from the route's upstream. */
  lemma UpstreamAuthority(port: Port)
    ensures AuthorityOf(Upstream(port)) == Authority("127.0.0.1", port)
  {
    var u := Upstream(port);
    var rest := u[7..];
    assert rest == "127.0.0.1" + [':'] + Decimal(port);
    assert IsDigit(rest[|rest| - 1]) by {
      assert rest[|rest| - 1] == Decimal(port)[|Decimal(port)| - 1];
    }
    SplitOnceExact("127.0.0.1", Decimal(port), ':');
    DecimalRoundTrip(port);
  }

  // ---------------------------------------------------------------- routes of a registry

  function InstancePrefix(name: string): string {
    "/i/" + name
  }

  function RouteFor(doc: Document, name: string): Route
    requires name in doc.instances
  {
    Route(InstancePrefix(name), Upstream(doc.instances[name].port))
  }

  /** `routes` lists the routes of the registered instances, in any order. */
  predicate RoutesOf(doc: Document, routes: seq<Route>) {
    && (forall n :: n in doc.instances ==> RouteFor(doc, n) in routes)
    && (forall r :: r in routes ==> exists n :: n in doc.instances && r == RouteFor(doc, n))
  }

  /** A name is what stands before the first slash. */
  lemma FirstSegment(name: string, rest: string)
    requires '/' !in name && (rest == "" || rest[0] == '/')
    ensures Split(name + rest, '/')[0] == name
  {
    if rest == "" {
      assert name + rest == name;
      SplitSingle(name, '/');
    } else {
      assert name + rest == name + ['/'] + rest[1..];
      SplitCons(name, rest[1..], '/');
    }
  }

  /** An instance prefix determines the instance. */
  lemma PrefixNamesOne(a: string, b: string, rest: string)
    requires '/' !in a && '/' !in b && (rest == "" || rest[0] == '/')
    ensures PathMatches(InstancePrefix(a), InstancePrefix(b) + rest) <==> a == b
    ensures (InstancePrefix(b) + rest)[|InstancePrefix(b)|..] == rest
  {
    var p, path := InstancePrefix(a), InstancePrefix(b) + rest;
    if PathMatches(p, path) {
      var after := path[|p|..];
      assert path[3..] == b + rest;
      assert path == p + after;
      assert path[3..] == a + after;
      FirstSegment(a, after);
      FirstSegment(b, rest);
    }
  }

  /** `/i/<name><path>` reaches that instance's own port, with the original path or `/`,
      whatever the order of the routes. */
  lemma InstancePathResolves(doc: Document, routes: seq<Route>, fallback: string, name: string, rest: string, r: Resolved)
    requires Consistent(doc) && RoutesOf(doc, routes) && name in doc.instances
    requires rest == "" || rest[0] == '/'
    requires IsResolution(routes, fallback, InstancePrefix(name) + rest, r)
    ensures r == Resolved(Upstream(doc.instances[name].port), if rest == "" then "/" else rest, InstancePrefix(name))
    ensures AuthorityOf(r.upstream) == Authority("127.0.0.1", doc.instances[name].port)
  {
    var path := InstancePrefix(name) + rest;
    ValidNameChars(name);
    forall j | 0 <= j < |routes|
      ensures PathMatches(routes[j].prefix, path) <==> routes[j] == RouteFor(doc, name)
    {
      assert routes[j] in routes;
      var n :| n in doc.instances && routes[j] == RouteFor(doc, n);
      ValidNameChars(n);
      PrefixNamesOne(n, name, rest);
      PrefixNamesOne(name, name, rest);
    }
    var i := FirstIndex(routes, RouteFor(doc, name));
    assert Claims(routes, path, i);
    ResolutionUnique(routes, fallback, path, r, i);
    PrefixNamesOne(name, name, rest);
    UpstreamAuthority(doc.instances[name].port);
  }

  lemma {:induction false} FirstIndex(routes: seq<Route>, r: Route) returns (i: nat)
    requires r in routes
    ensures i < |routes| && routes[i] == r && forall j :: 0 <= j < i ==> routes[j] != r
  {
    if routes[0] == r {
      i := 0;
    } else {
      i := FirstIndex(routes[1..], r);
      i := i + 1;
    }
  }

  // ---------------------------------------------------------------- whole requests

  /** A request target cut at its first `?`. */
  function PathPart(target: string): string {
    match IndexOf(target, '?')
    case None => target
    case Some(q) => target[..q]
  }

  function QueryPart(target: string): string {
    target[|PathPart(target)|..]
  }

  /** `forward`: resolve the path, keep the query. The resolution is that of the path. */
  function ForwardedTarget(r: Resolved, target: string): string {
    r.path + QueryPart(target)
  }

  /** `prefix_request`, on the request target. */
  function PrefixRequest(target: string, name: string): string {
    InstancePrefix(name) + target
  }

  /** Resolving undoes `prefix_request`: every target put under an instance prefix is forwarded
      to that instance as it was, query included. */
  lemma PrefixedTargetComesBack(doc: Document, routes: seq<Route>, fallback: string, name: string, target: string, sent: string, r: Resolved)
    requires Consistent(doc) && RoutesOf(doc, routes) && name in doc.instances
    requires StartsWith(target, "/") && sent == PrefixRequest(target, name)
    requires IsResolution(routes, fallback, PathPart(sent), r)
    ensures r.upstream == Upstream(doc.instances[name].port)
    ensures AuthorityOf(r.upstream) == Authority("127.0.0.1", doc.instances[name].port)
    ensures r.prefix == InstancePrefix(name)
    ensures ForwardedTarget(r, sent) == target
  {
    assert '?' !in InstancePrefix(name) by {
      ValidNameChars(name);
    }
    PathPartPrefixed(InstancePrefix(name), target);
    InstancePathResolves(doc, routes, fallback, name, PathPart(target), r);
  }

  lemma PathPartPrefixed(prefix: string, target: string)
    requires '?' !in prefix && StartsWith(target, "/")
    ensures PathPart(prefix + target) == prefix + PathPart(target)
    ensures QueryPart(prefix + target) == QueryPart(target)
    ensures PathPart(target) + QueryPart(target) == target && StartsWith(PathPart(target), "/")
  {
    var whole := prefix + target;
    match IndexOf(target, '?')
    case None =>
      assert '?' !in whole;
    case Some(q) =>
      SplitOnceExact(prefix + target[..q], target[q + 1..], '?');
      assert whole == prefix + target[..q] + ['?'] + target[q + 1..];
      assert IndexOf(whole, '?') == Some(|prefix| + q) by {
        var i := IndexOf(whole, '?').value;
        assert whole[..i] == prefix + target[..q];
      }
  }

  /** Of a whole page: every URL the rewrite changed, requested as it now stands, reaches the
      page's own instance under the address the page originally carried. */
  lemma PageUrlComesBack(doc: Document, routes: seq<Route>, fallback: string, name: string, html: string, j: nat, r: Resolved)
    requires Consistent(doc) && RoutesOf(doc, routes) && name in doc.instances
    requires j < |Split(html, QUOTE)| == |Split(Rewrite(html, InstancePrefix(name)), QUOTE)|
    requires Inserted(html, InstancePrefix(name))[j]
    requires IsResolution(routes, fallback, PathPart(Split(Rewrite(html, InstancePrefix(name)), QUOTE)[j]), r)
    ensures ForwardedTarget(r, Split(Rewrite(html, InstancePrefix(name)), QUOTE)[j]) == Split(html, QUOTE)[j]
    ensures AuthorityOf(r.upstream) == Authority("127.0.0.1", doc.instances[name].port)
  {
    NoQuoteInPrefix(name);
    InsertedPiece(html, InstancePrefix(name), j);
    var sent := Split(Rewrite(html, InstancePrefix(name)), QUOTE)[j];
    PrefixedTargetComesBack(doc, routes, fallback, name, Split(html, QUOTE)[j], sent, r);
  }

  lemma NoQuoteInPrefix(name: string)
    requires IsValidName(name)
    ensures QUOTE !in InstancePrefix(name)
  {
    ValidNameChars(name);
  }

  lemma InsertedPiece(html: string, prefix: string, j: nat)
    requires QUOTE !in prefix && j < |Split(html, QUOTE)| && Inserted(html, prefix)[j]
    ensures j < |Split(Rewrite(html, prefix), QUOTE)| && Split(Rewrite(html, prefix), QUOTE)[j] == prefix + Split(html, QUOTE)[j]
    ensures StartsWith(Split(html, QUOTE)[j], "/")
  {
    RewriteOnlyInserts(html, prefix);
  }

  // ---------------------------------------------------------------- redirects

  function ReattachPrefix(location: string, prefix: string): Option<string> {
    if StartsWith(location, prefix) then None
    else if !StartsWith(location, "/") || StartsWith(location, "//") then None
    else if prefix == "" then None
    else Some(prefix + location)
  }

  /** A root-relative redirect, as it is sent on, stays with the instance exactly unless it
      begins with the prefix as text while its path does not lie under it; and one that is
      changed leads back to where the harness meant it to go. */
  lemma RedirectStaysIff(doc: Document, routes: seq<Route>, fallback: string, name: string, location: string, r: Resolved)
    requires Consistent(doc) && RoutesOf(doc, routes) && name in doc.instances
    requires StartsWith(location, "/") && !StartsWith(location, "//")
    requires IsResolution(routes, fallback, PathPart(ReattachPrefix(location, InstancePrefix(name)).GetOr(location)), r)
    ensures r.prefix == InstancePrefix(name)
      <==> !(StartsWith(location, InstancePrefix(name)) && !PathMatches(InstancePrefix(name), PathPart(location)))
    ensures r.prefix == InstancePrefix(name) ==> AuthorityOf(r.upstream) == Authority("127.0.0.1", doc.instances[name].port)
    ensures ReattachPrefix(location, InstancePrefix(name)).Some? ==>
      ForwardedTarget(r, ReattachPrefix(location, InstancePrefix(name)).value) == location
  {
    if ReattachPrefix(location, InstancePrefix(name)).Some? {
      PrefixedTargetComesBack(doc, routes, fallback, name, location, PrefixRequest(location, name), r);
    } else {
      SentAsItIs(doc, routes, fallback, name, PathPart(location), r);
    }
  }

  /** A path reaches an instance exactly if it lies under its prefix. */
  lemma SentAsItIs(doc: Document, routes: seq<Route>, fallback: string, name: string, path: string, r: Resolved)
    requires Consistent(doc) && RoutesOf(doc, routes) && name in doc.instances
    requires IsResolution(routes, fallback, path, r)
    ensures r.prefix == InstancePrefix(name) <==> PathMatches(InstancePrefix(name), path)
    ensures r.prefix == InstancePrefix(name) ==> AuthorityOf(r.upstream) == Authority("127.0.0.1", doc.instances[name].port)
  {
    var prefix := InstancePrefix(name);
    if PathMatches(prefix, path) {
      var rest := RestOf(prefix, path);
      ResolvesUnder(doc, routes, fallback, name, rest, path, r);
    } else {
      OtherPrefix(routes, fallback, path, r, prefix);
    }
  }

  lemma RestOf(prefix: string, path: string) returns (rest: string)
    requires prefix != "" && PathMatches(prefix, path)
    ensures path == prefix + rest && (rest == "" || rest[0] == '/')
  {
    rest := path[|prefix|..];
  }

  lemma ResolvesUnder(doc: Document, routes: seq<Route>, fallback: string, name: string, rest: string, path: string, r: Resolved)
    requires Consistent(doc) && RoutesOf(doc, routes) && name in doc.instances
    requires path == InstancePrefix(name) + rest && (rest == "" || rest[0] == '/')
    requires IsResolution(routes, fallback, path, r)
    ensures r.prefix == InstancePrefix(name) && AuthorityOf(r.upstream) == Authority("127.0.0.1", doc.instances[name].port)
  {
    InstancePathResolves(doc, routes, fallback, name, rest, r);
  }

  /** No resolution strips a prefix the path does not lie under. */
  lemma OtherPrefix(routes: seq<Route>, fallback: string, path: string, r: Resolved, prefix: string)
    requires IsResolution(routes, fallback, path, r) && prefix != "" && !PathMatches(prefix, path)
    ensures r.prefix != prefix
  {
    if exists i: nat :: Claims(routes, path, i) {
      var i: nat :| Claims(routes, path, i) && r == Through(routes[i], path);
    }
  }

  /** Redirects are meant to be treated like page URLs. They are, except for locations that
      begin with the prefix as text but not on a segment boundary: exactly those are left
      where they are. */
  lemma ReattachAgreesIff(location: string, prefix: string)
    ensures ReattachPrefix(location, prefix).GetOr(location) == Fix(location, prefix)
      <==> !(StartsWith(location, prefix) && NeedsPrefix(location, prefix))
    ensures StartsWith(location, "/") && !StartsWith(location, "//") ==>
      (PathMatches(prefix, ReattachPrefix(location, prefix).GetOr(location))
       <==> !(StartsWith(location, prefix) && NeedsPrefix(location, prefix)))
  {
    if NeedsPrefix(location, prefix) {
      assert |Fix(location, prefix)| > |location|;
      assert (prefix + location)[|prefix|..] == location;
    }
  }

  /** One such location: `/i/maintenance` under the prefix `/i/main`. */
  lemma ReattachMissesTextPrefix()
    ensures ReattachPrefix("/i/maintenance", InstancePrefix("main")) == None
    ensures NeedsPrefix("/i/maintenance", InstancePrefix("main"))
  {
    var location, prefix := "/i/maintenance", InstancePrefix("main");
    assert prefix == "/i/main";
    assert location[|prefix|..][0] == 't';
    assert location[1] == 'i';
  }

  // ---------------------------------------------------------------- root-rooted requests

  const COOKIE_PREFIX: string := "dsr-open-"

  /** What the gateway reads of a request: two headers and the names it serves. */
  datatype Request = Request(referer: Option<string>, cookie: Option<string>, known: seq<string>)

  function InstanceFromPath(path: string): Option<string> {
    if !StartsWith(path, "/i/") then None
    else
      var name := Split(path[3..], '/')[0];
      if name == "" then None else Some(name)
  }

  function AfterScheme(url: string): string {
    match Find(url, "://") case None => url case Some(i) => url[i + 3..]
  }

  function PathAfter(rest: string): string {
    "/" + match SplitOnce(rest, '/') case None => "" case Some((_, p)) => p
  }

  function InstanceNameInUrl(url: string): Option<string> {
    InstanceFromPath(PathAfter(AfterScheme(url)))
  }

  /** One cookie of the header, if it is an open marker with a name and a value. */
  function MarkedInstance(part: string): Option<string> {
    match SplitOnce(Trim(part), '=')
    case None => None
    case Some((key, value)) =>
      if !StartsWith(key, COOKIE_PREFIX) then None
      else
        var name := key[|COOKIE_PREFIX|..];
        if name == "" || value == "" then None else Some(name)
  }

  function MarkedInstances(parts: seq<string>): seq<string> {
    if parts == [] then []
    else
      var rest := MarkedInstances(parts[1..]);
      match MarkedInstance(parts[0])
      case None => rest
      case Some(name) => [name] + rest
  }

  function OpenInstances(cookie: Option<string>): seq<string> {
    match cookie
    case None => []
    case Some(text) => MarkedInstances(Split(text, ';'))
  }

  function ReplaceEquals(s: string): string {
    seq(|s|, i requires 0 <= i < |s| => if s[i] == '=' then '-' else s[i])
  }

  function InstanceCookie(name: string): string {
    COOKIE_PREFIX + ReplaceEquals(name)
  }

  function CurrentInstance(req: Request): Option<string> {
    var named := match req.referer case None => None case Some(url) => InstanceNameInUrl(url);
    if named.Some? && named.value in req.known then named
    else
      var open := OpenInstances(req.cookie);
      if |open| == 1 && open[0] in req.known then Some(open[0]) else None
  }

  /** A cookie the browser holds: an open marker, or any other one. */
  datatype Cookie = Marker(name: string) | Other(text: string)

  /** An open marker for `name`: `dsr-open-<name>=<value>`, white space around it aside. */
  predicate MarksFor(part: string, name: string, value: string) {
    name != "" && '=' !in name && value != "" && Trim(part) == "dsr-open-" + name + "=" + value
  }

  /** Exactly such parts of the header are read as markers. */
  lemma MarkedIff(part: string, name: string)
    ensures MarkedInstance(part) == Some(name) <==> exists value :: MarksFor(part, name, value)
  {
    if value :| MarksFor(part, name, value) {
      MarkReads(Trim(part), name, value);
    }
    if MarkedInstance(part) == Some(name) {
      var (key, value) := SplitOnce(Trim(part), '=').value;
      assert key == "dsr-open-" + name;
      MarkSpelled(Trim(part), key, name, value);
      assert MarksFor(part, name, value);
    }
  }

  lemma MarkSpelled(text: string, key: string, name: string, value: string)
    requires key == "dsr-open-" + name
    ensures text == key + ['='] + value <==> text == "dsr-open-" + name + "=" + value
    ensures '=' in name <==> '=' in key
  {
    assert forall i :: 0 <= i < |name| ==> key[9 + i] == name[i];
  }

  lemma MarkReads(text: string, name: string, value: string)
    requires name != "" && '=' !in name && value != "" && text == "dsr-open-" + name + "=" + value
    ensures SplitOnce(text, '=') == Some(("dsr-open-" + name, value))
    ensures ("dsr-open-" + name)[|COOKIE_PREFIX|..] == name
  {
    MarkSpelled(text, "dsr-open-" + name, name, value);
    SplitOnceExact("dsr-open-" + name, value, '=');
  }

  /** Markers are of valid names; other cookies are none. */
  ghost predicate IsCookie(c: Cookie) {
    match c
    case Marker(name) => IsValidName(name)
    case Other(text) => ';' !in text && forall name, value :: !MarksFor(text, name, value)
  }

  function CookieText(c: Cookie): string {
    match c
    case Marker(name) => InstanceCookie(name) + "=1"
    case Other(text) => text
  }

  /** The header a browser sends: the cookies joined with `; `. */
  function CookieParts(cookies: seq<Cookie>): seq<string> {
    seq(|cookies|, i requires 0 <= i < |cookies| => (if i == 0 then "" else " ") + CookieText(cookies[i]))
  }

  function CookieHeader(cookies: seq<Cookie>): string {
    if cookies == [] then "" else Join(CookieParts(cookies), ';')
  }

  /** The names of the markers among the cookies. */
  function MarkerNames(cookies: seq<Cookie>): seq<string> {
    if cookies == [] then []
    else (if cookies[0].Marker? then [cookies[0].name] else []) + MarkerNames(cookies[1..])
  }

  lemma MarkerTrims(lead: string, marker: string)
    requires (lead == "" || lead == " ") && marker != ""
    requires !IsWhitespace(marker[0]) && !IsWhitespace(marker[|marker| - 1])
    ensures Trim(lead + marker) == marker
  {
    assert TrimStart(marker) == marker && TrimEnd(marker) == marker;
    if lead == " " {
      assert (lead + marker)[1..] == marker;
      assert TrimStart(lead + marker) == TrimStart(marker);
    } else {
      assert lead + marker == marker;
    }
  }

  lemma CookieOf(name: string)
    requires '=' !in name
    ensures InstanceCookie(name) == COOKIE_PREFIX + name
  {
    assert ReplaceEquals(name) == name;
  }

  /** Whatever the name, the marker's key is not cut short when it is read. */
  lemma CookieKeyWhole(name: string)
    ensures '=' !in InstanceCookie(name) && |InstanceCookie(name)| == |COOKIE_PREFIX| + |name|
  {
    assert '=' !in ReplaceEquals(name);
    assert '=' !in COOKIE_PREFIX;
  }

  lemma MarkerReads(name: string, lead: string)
    requires '=' !in name && ';' !in name && name != "" && (lead == "" || lead == " ")
    ensures MarkedInstance(lead + (InstanceCookie(name) + "=1")) == Some(name)
    ensures ';' !in lead + (InstanceCookie(name) + "=1")
  {
    CookieOf(name);
    MarkerMarks(InstanceCookie(name) + "=1", name, lead);
    MarkedIff(lead + (InstanceCookie(name) + "=1"), name);
  }

  lemma MarkerMarks(marker: string, name: string, lead: string)
    requires '=' !in name && name != "" && (lead == "" || lead == " ")
    requires marker == COOKIE_PREFIX + name + "=1"
    ensures MarksFor(lead + marker, name, "1")
  {
    assert marker[0] == 'd' && marker[|marker| - 1] == '1';
    MarkerTrims(lead, marker);
    assert marker == "dsr-open-" + name + "=" + "1";
  }

  /** Another cookie is not read as a marker. */
  lemma OtherUnread(text: string, lead: string)
    requires (forall name, value :: !MarksFor(text, name, value)) && (lead == "" || lead == " ")
    ensures MarkedInstance(lead + text) == None
  {
    if lead == " " {
      assert (lead + text)[1..] == text;
      assert TrimStart(lead + text) == TrimStart(text);
    } else {
      assert lead + text == text;
    }
    var read := MarkedInstance(lead + text);
    if read.Some? {
      MarkedIff(lead + text, read.value);
      var value :| MarksFor(lead + text, read.value, value);
      assert MarksFor(text, read.value, value);
    }
  }

  /** Among any other cookies, the open markers parse back to the names they were written
      from, in order. */
  lemma MarkersRoundTrip(cookies: seq<Cookie>)
    requires forall i :: 0 <= i < |cookies| ==> IsCookie(cookies[i])
    ensures OpenInstances(Some(CookieHeader(cookies))) == MarkerNames(cookies)
  {
    if cookies == [] {
      NoCookies();
    } else {
      AllPartsRead(cookies);
      JoinedRead(CookieParts(cookies), cookies);
    }
  }

  lemma AllPartsRead(cookies: seq<Cookie>)
    requires forall i :: 0 <= i < |cookies| ==> IsCookie(cookies[i])
    ensures var parts := CookieParts(cookies);
      forall i :: 0 <= i < |parts| ==> MarkedInstance(parts[i]) == MarkerOf(cookies[i]) && ';' !in parts[i]
  {
    forall i | 0 <= i < |cookies|
      ensures MarkedInstance(CookieParts(cookies)[i]) == MarkerOf(cookies[i]) && ';' !in CookieParts(cookies)[i]
    {
      PartsRead(cookies, i);
    }
  }

  lemma NoCookies()
    ensures MarkedInstances(Split("", ';')) == []
  {
    assert Split("", ';') == [""];
  }

  lemma PartsRead(cookies: seq<Cookie>, i: nat)
    requires i < |cookies| && IsCookie(cookies[i])
    ensures MarkedInstance(CookieParts(cookies)[i]) == MarkerOf(cookies[i]) && ';' !in CookieParts(cookies)[i]
  {
    PartReads(cookies[i], if i == 0 then "" else " ");
  }

  lemma JoinedRead(parts: seq<string>, cookies: seq<Cookie>)
    requires |parts| == |cookies| >= 1
    requires forall i :: 0 <= i < |parts| ==> MarkedInstance(parts[i]) == MarkerOf(cookies[i]) && ';' !in parts[i]
    ensures MarkedInstances(Split(Join(parts, ';'), ';')) == MarkerNames(cookies)
  {
    SplitJoin(parts, ';');
    AllMarked(parts, cookies);
  }

  function MarkerOf(c: Cookie): Option<string> {
    match c
    case Marker(name) => Some(name)
    case Other(_) => None
  }

  lemma PartReads(c: Cookie, lead: string)
    requires IsCookie(c) && (lead == "" || lead == " ")
    ensures MarkedInstance(lead + CookieText(c)) == MarkerOf(c) && ';' !in lead + CookieText(c)
  {
    match c
    case Marker(name) =>
      ValidNameChars(name);
      MarkerReads(name, lead);
    case Other(text) => OtherUnread(text, lead);
  }

  lemma {:induction false} AllMarked(parts: seq<string>, cookies: seq<Cookie>)
    requires |parts| == |cookies|
    requires forall i :: 0 <= i < |cookies| ==> MarkedInstance(parts[i]) == MarkerOf(cookies[i])
    ensures MarkedInstances(parts) == MarkerNames(cookies)
  {
    if parts != [] {
      AllMarked(parts[1..], cookies[1..]);
      assert [] + MarkerNames(cookies[1..]) == MarkerNames(cookies[1..]);
    }
  }

  /** The parts of a URL: what stands before the first `://`, if that occurs, what stands
      before the next slash, and the rest. */
  datatype Url = Url(scheme: Option<string>, authority: string, path: string) {
    function Text(): string {
      (if scheme.Some? then scheme.value + "://" else "") + (authority + path)
    }

    predicate Parses() {
      && '/' !in authority && (path == "" || path[0] == '/')
      && Find(Text(), "://") == (if scheme.Some? then Some(|scheme.value|) else None)
    }

    /** The path is `/i/<name>`, or goes on below it. */
    predicate Names(name: string) {
      name != "" && '/' !in name && (path == "/i/" + name || StartsWith(path, "/i/" + name + "/"))
    }
  }

  /** Every text is a URL in that sense. */
  lemma EveryUrl(text: string) returns (url: Url)
    ensures url.Parses() && url.Text() == text
  {
    var rest := AfterScheme(text);
    var scheme := SchemeOf(text, rest);
    var authority, path := CutAtSlash(rest);
    url := Url(scheme, authority, path);
  }

  lemma SchemeOf(text: string, rest: string) returns (scheme: Option<string>)
    requires rest == AfterScheme(text)
    ensures Find(text, "://") == (if scheme.Some? then Some(|scheme.value|) else None)
    ensures text == (if scheme.Some? then scheme.value + "://" else "") + rest
  {
    match Find(text, "://")
    case None => scheme := None;
    case Some(i) => scheme := Some(text[..i]);
  }

  lemma CutAtSlash(rest: string) returns (authority: string, path: string)
    ensures '/' !in authority && (path == "" || path[0] == '/') && authority + path == rest
  {
    match IndexOf(rest, '/')
    case None => authority, path := rest, "";
    case Some(i) => authority, path := rest[..i], rest[i..];
  }

  lemma UrlPath(url: Url)
    requires url.Parses()
    ensures InstanceNameInUrl(url.Text()) == InstanceFromPath(if url.path == "" then "/" else url.path)
  {
    UrlRest(url);
    PathOf(url.authority, url.path);
  }

  lemma UrlRest(url: Url)
    requires url.Parses()
    ensures AfterScheme(url.Text()) == url.authority + url.path
  {
    var rest := url.authority + url.path;
    if url.scheme.Some? {
      assert (url.scheme.value + "://" + rest)[|url.scheme.value| + 3..] == rest;
    } else {
      assert "" + rest == rest;
    }
  }

  lemma PathOf(authority: string, path: string)
    requires '/' !in authority && (path == "" || path[0] == '/')
    ensures PathAfter(authority + path) == if path == "" then "/" else path
  {
    if path == "" {
      assert authority + path == authority;
    } else {
      assert authority + path == authority + ['/'] + path[1..];
      SplitOnceExact(authority, path[1..], '/');
      assert "/" + path[1..] == path;
    }
  }

  /** A URL names an instance exactly if its path is `/i/<name>` or goes on below it. */
  lemma UrlNamesIff(url: Url, name: string)
    requires url.Parses()
    ensures InstanceNameInUrl(url.Text()) == Some(name) <==> url.Names(name)
  {
    UrlPath(url);
    if StartsWith(url.path, "/i/") {
      BelowIff(url.path, name);
    }
  }

  lemma BelowIff(path: string, name: string)
    requires StartsWith(path, "/i/")
    ensures InstanceFromPath(path) == Some(name)
      <==> name != "" && '/' !in name && (path == "/i/" + name || StartsWith(path, "/i/" + name + "/"))
  {
    var tail := path[3..];
    assert path == "/i/" + tail;
    assert "/i/" + name + "/" == "/i/" + (name + "/");
    assert StartsWith(path, "/i/" + (name + "/")) <==> StartsWith(tail, name + "/");
    assert path == "/i/" + name <==> tail == name;
    FirstSegmentIff(tail, name);
  }

  lemma FirstSegmentIff(tail: string, name: string)
    ensures Split(tail, '/')[0] == name <==> '/' !in name && (tail == name || StartsWith(tail, name + "/"))
  {
    if '/' !in name && tail == name {
      SplitSingle(name, '/');
    } else if '/' !in name && StartsWith(tail, name + "/") {
      FirstSegment(name, tail[|name|..]);
      assert name + tail[|name|..] == tail;
    }
  }

  lemma Named(text: string, cookie: Option<string>, known: seq<string>, name: string)
    requires name in known
    ensures InstanceNameInUrl(text) == Some(name) ==> CurrentInstance(Request(Some(text), cookie, known)) == Some(name)
    ensures InstanceNameInUrl(text) != Some(name) ==> CurrentInstance(Request(Some(text), None, known)) != Some(name)
  {
  }

  /** A Referer decides for a name that is served, whatever the cookies say, exactly if its
      path is `/i/<name>` or goes on below it. Anything else after the name, a query too, is
      read as part of the name. */
  lemma RefererDecidesIff(url: Url, known: seq<string>, name: string)
    requires url.Parses() && name in known
    ensures (forall cookie :: CurrentInstance(Request(Some(url.Text()), cookie, known)) == Some(name)) <==> url.Names(name)
  {
    UrlNamesIff(url, name);
    Named(url.Text(), None, known, name);
    if url.Names(name) {
      forall cookie
        ensures CurrentInstance(Request(Some(url.Text()), cookie, known)) == Some(name)
      {
        Named(url.Text(), cookie, known, name);
      }
    }
  }

  lemma FallsBack(req: Request, open: seq<string>, name: string)
    requires open == OpenInstances(req.cookie)
    requires req.referer.Some? && InstanceNameInUrl(req.referer.value).Some? ==> InstanceNameInUrl(req.referer.value).value !in req.known
    ensures CurrentInstance(req) == Some(name) <==> name in req.known && open == [name]
  {
  }

  /** A Referer that names no instance that is served is as good as none: then a request goes
      to the one instance with a marker, if there is exactly one and it is served. With two
      open there is no choice to make. */
  lemma MarkerDecidesIff(referer: Option<Url>, cookies: seq<Cookie>, known: seq<string>, name: string)
    requires referer.Some? ==> referer.value.Parses() && forall n :: n in known ==> !referer.value.Names(n)
    requires forall i :: 0 <= i < |cookies| ==> IsCookie(cookies[i])
    ensures var text := if referer.Some? then Some(referer.value.Text()) else None;
      CurrentInstance(Request(text, Some(CookieHeader(cookies)), known)) == Some(name)
      <==> name in known && MarkerNames(cookies) == [name]
  {
    var text := if referer.Some? then Some(referer.value.Text()) else None;
    if referer.Some? {
      UnservedReferer(referer.value, known);
    }
    MarkersRoundTrip(cookies);
    FallsBack(Request(text, Some(CookieHeader(cookies)), known), MarkerNames(cookies), name);
  }

  lemma UnservedReferer(url: Url, known: seq<string>)
    requires url.Parses() && forall n :: n in known ==> !url.Names(n)
    ensures InstanceNameInUrl(url.Text()).Some? ==> InstanceNameInUrl(url.Text()).value !in known
  {
    var named := InstanceNameInUrl(url.Text());
    if named.Some? {
      UrlNamesIff(url, named.value);
    }
  }
}
