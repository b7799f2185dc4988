/** internal/controller/weftlocaldnsreflector/routes.go: which tunnels a reflector's proxy serves, and where. */
module Routes {
  import opened Order
  import opened Text
  import opened Api
  import opened LocalDns
  import opened Claims

  datatype Route = Route(hostname: string, source: string, destination: string, tunnel: string)

  datatype Reason =
    | DestinationScheme(scheme: Scheme) | UnparseableSource | SourceScheme(scheme: Scheme)
    | LoopbackSource(host: string) | AlreadyServed(destination: string)

  datatype RouteSet = RouteSet(routes: seq<Route>, unrouted: seq<string>, skipped: map<string, Reason>)

  function Key(t: Tunnel): string { t.namespace + "/" + t.name }

  predicate TunnelLess(a: Tunnel, b: Tunnel) {
    if a.namespace != b.namespace then Less(a.namespace, b.namespace) else Less(a.name, b.name)
  }

  lemma TunnelLessIsStrictWeak()
    ensures StrictWeak(TunnelLess)
  {
    LessIsStrictWeak();
    forall a, b, c | TunnelLess(a, c) ensures TunnelLess(a, b) || TunnelLess(b, c) {
      LessTotal(a.namespace, b.namespace);
      LessTotal(b.namespace, c.namespace);
    }
  }

  /** The API server holds one object per namespace and name; a namespace has no slash in it. */
  ghost predicate DistinctKeys(ts: seq<Tunnel>) {
    && (forall i, j :: 0 <= i < j < |ts| ==> ts[i].namespace != ts[j].namespace || ts[i].name != ts[j].name)
    && (forall i :: 0 <= i < |ts| ==> '/' !in ts[i].namespace)
  }

  lemma TunnelLessTotalOn(ts: seq<Tunnel>)
    requires DistinctKeys(ts)
    ensures TotalOn(ts, TunnelLess) && Distinct(ts)
  {
    forall x, y | x in ts && y in ts && x != y ensures TunnelLess(x, y) || TunnelLess(y, x) {
      LessTotal(x.namespace, y.namespace);
      LessTotal(x.name, y.name);
    }
  }

  lemma KeyInjective(a: Tunnel, b: Tunnel)
    requires '/' !in a.namespace && '/' !in b.namespace && Key(a) == Key(b)
    ensures a.namespace == b.namespace && a.name == b.name
  {
    KeyStart(a);
    KeyStart(b);
    assert a.name == Key(a)[|a.namespace| + 1..] && b.name == Key(b)[|b.namespace| + 1..];
  }

  lemma KeyStart(t: Tunnel)
    requires '/' !in t.namespace
    ensures Split(Key(t), '/')[0] == t.namespace
  {
    SplitPrefix(t.namespace, "/" + t.name, '/');
    assert Key(t) == t.namespace + ("/" + t.name);
    assert t.namespace + "" == t.namespace;
  }

  // ---- reflectTunnel ----

  /** net.JoinHostPort: a host holding a colon goes in brackets. */
  function JoinHostPort(host: string, port: string): string {
    if ':' in host then "[" + host + "]:" + port else host + ":" + port
  }

  function SchemeText(s: Scheme): string {
    match s
    case Http => "http"
    case Https => "https"
    case OtherScheme(text) => text
  }

  /** The port the proxy container listens on. */
  function ProxyPort(s: Scheme): string { if s.Https? then "8443" else "8080" }

  function Destination(host: string, dst: Url): string {
    SchemeText(dst.scheme) + "://" + dst.user + JoinHostPort(host, ProxyPort(dst.scheme))
    + (if dst.path == "" then "/" else dst.path) + dst.rest
  }

  predicate IsLoopback(src: SourceUrl) { src.hostname == "localhost" || src.loopbackIP }

  datatype Reflected = Served(route: Route) | Refused(reason: Reason)

  /** A tunnel as a proxy route, or why it cannot be one. */
  function Reflect(t: Tunnel): Reflected
    requires t.dst.Some?
  {
    var dst := t.dst.value;
    if !IsHttp(dst.scheme) then Refused(DestinationScheme(dst.scheme))
    else if t.src.None? then Refused(UnparseableSource)
    else if !IsHttp(t.src.value.scheme) then Refused(SourceScheme(t.src.value.scheme))
    else if IsLoopback(t.src.value) then Refused(LoopbackSource(t.src.value.hostname))
    else
      var host := Lower(dst.hostname);
      Served(Route(host, t.source, Destination(host, dst), Key(t)))
  }

  // ---- the selection rule ----

  /** The tunnel's URL parses and its host is one of `hostnames`. */
  predicate Relevant(hostnames: seq<string>, t: Tunnel) { t.dst.Some? && Names(hostnames, Lower(t.dst.value.hostname)) }

  predicate CanServe(hostnames: seq<string>, t: Tunnel) { Relevant(hostnames, t) && Reflect(t).Served? }

  function RouteOf(t: Tunnel): Route
    requires t.dst.Some? && Reflect(t).Served?
  {
    Reflect(t).route
  }

  /** No tunnel before `t` in namespace/name order can serve the same destination. */
  predicate Wins(hostnames: seq<string>, ts: seq<Tunnel>, t: Tunnel) {
    && CanServe(hostnames, t)
    && forall i :: 0 <= i < |ts| && CanServe(hostnames, ts[i]) && TunnelLess(ts[i], t) ==>
         RouteOf(ts[i]).destination != RouteOf(t).destination
  }

  /** The routes of the winners among `xs`, `ts` being all tunnels. */
  function WinningRoutes(hostnames: seq<string>, ts: seq<Tunnel>, xs: seq<Tunnel>): seq<Route> {
    if xs == [] then []
    else
      var done, t := WinningRoutes(hostnames, ts, xs[..|xs| - 1]), xs[|xs| - 1];
      if Wins(hostnames, ts, t) then done + [RouteOf(t)] else done
  }

  function ReasonFor(t: Tunnel): Reason
    requires t.dst.Some?
  {
    match Reflect(t)
    case Refused(reason) => reason
    case Served(route) => AlreadyServed(route.destination)
  }

  function SkippedAmong(hostnames: seq<string>, ts: seq<Tunnel>, xs: seq<Tunnel>): map<string, Reason> {
    if xs == [] then map[]
    else
      var done, t := SkippedAmong(hostnames, ts, xs[..|xs| - 1]), xs[|xs| - 1];
      if Relevant(hostnames, t) && !Wins(hostnames, ts, t) then done[Key(t) := ReasonFor(t)] else done
  }

  predicate RouteLess(a: Route, b: Route) { Less(a.destination, b.destination) }

  predicate HasRoute(routes: seq<Route>, host: string) { exists i :: 0 <= i < |routes| && routes[i].hostname == host }

  function ComputedRoutes(hostnames: seq<string>, ts: seq<Tunnel>): RouteSet {
    var sorted := Sort(ts, TunnelLess);
    var routes := WinningRoutes(hostnames, sorted, sorted);
    RouteSet(
      Sort(routes, RouteLess),
      SortStrings(Keep(hostnames, (h: string) => !HasRoute(routes, Lower(h)))),
      SkippedAmong(hostnames, sorted, sorted))
  }

  // ---- computeRoutes ----

  lemma SortedKeys(ts: seq<Tunnel>)
    requires DistinctKeys(ts)
    ensures DistinctKeys(Sort(ts, TunnelLess)) && StrictlySorted(Sort(ts, TunnelLess), TunnelLess)
    ensures forall t :: t in Sort(ts, TunnelLess) <==> t in ts
  {
    TunnelLessIsStrictWeak();
    TunnelLessTotalOn(ts);
    SortStrict(ts, TunnelLess);
    SortMembers(ts, TunnelLess);
    var s := Sort(ts, TunnelLess);
    assert forall i :: 0 <= i < |s| ==> s[i] in ts;
    forall i, j | 0 <= i < j < |s| ensures s[i].namespace != s[j].namespace || s[i].name != s[j].name {
      LessIrreflexive(s[i].name);
    }
  }

  /** Visiting in order, a tunnel wins exactly when its destination has not been served yet. */
  lemma WinsInOrder(hostnames: seq<string>, ts: seq<Tunnel>, i: nat)
    requires StrictlySorted(ts, TunnelLess) && i < |ts| && CanServe(hostnames, ts[i])
    ensures Wins(hostnames, ts, ts[i]) <==>
            forall k :: 0 <= k < i && CanServe(hostnames, ts[k]) ==>
              RouteOf(ts[k]).destination != RouteOf(ts[i]).destination
  {
    TunnelLessIsStrictWeak();
  }

  ghost predicate ServedUpTo(hostnames: seq<string>, ts: seq<Tunnel>, i: nat, served: set<string>)
    requires i <= |ts|
  {
    forall d :: d in served <==> exists k :: 0 <= k < i && CanServe(hostnames, ts[k]) && RouteOf(ts[k]).destination == d
  }

  lemma ServedSnoc(hostnames: seq<string>, ts: seq<Tunnel>, i: nat, served: set<string>)
    requires i < |ts| && ServedUpTo(hostnames, ts, i, served)
    ensures ServedUpTo(hostnames, ts, i + 1, if CanServe(hostnames, ts[i]) then served + {RouteOf(ts[i]).destination}
        else served)
  {
    var served' := if CanServe(hostnames, ts[i]) then served + {RouteOf(ts[i]).destination} else served;
    forall d
      ensures d in served' <==>
          exists k :: 0 <= k < i + 1 && CanServe(hostnames, ts[k]) && RouteOf(ts[k]).destination == d
    {
      if d in served {
        var k :| 0 <= k < i && CanServe(hostnames, ts[k]) && RouteOf(ts[k]).destination == d;
      }
    }
  }

  /** Against the destinations served so far. */
  lemma WinsUnserved(hostnames: seq<string>, ts: seq<Tunnel>, i: nat, served: set<string>)
    requires StrictlySorted(ts, TunnelLess) && i < |ts| && CanServe(hostnames, ts[i])
        && ServedUpTo(hostnames, ts, i, served)
    ensures Wins(hostnames, ts, ts[i]) <==> RouteOf(ts[i]).destination !in served
  {
    WinsInOrder(hostnames, ts, i);
  }

  ghost predicate RoutedSet(routed: set<string>, routes: seq<Route>)
  {
    forall h :: h in routed <==> HasRoute(routes, h)
  }

  lemma RoutedSetSnoc(routed: set<string>, routes: seq<Route>, r: Route)
    requires RoutedSet(routed, routes)
    ensures RoutedSet(routed + {r.hostname}, routes + [r])
  {
    HasRouteSnoc(routes, r);
  }

  /** How the loop treats a tunnel. */
  datatype Treatment = Ignored | Taken(taken: Route) | PassedOver(why: Reason)

  function Treat(hostnames: seq<string>, ts: seq<Tunnel>, t: Tunnel): Treatment {
    if !Relevant(hostnames, t) then Ignored
    else if Wins(hostnames, ts, t) then Taken(RouteOf(t))
    else PassedOver(ReasonFor(t))
  }

  lemma OneMoreTreated(hostnames: seq<string>, ts: seq<Tunnel>, i: nat)
    requires i < |ts|
    ensures var r, s := WinningRoutes(hostnames, ts, ts[..i]), SkippedAmong(hostnames, ts, ts[..i]);
            match Treat(hostnames, ts, ts[i])
            case Ignored =>
              WinningRoutes(hostnames, ts, ts[..i + 1]) == r && SkippedAmong(hostnames, ts, ts[..i + 1]) == s
            case Taken(route) =>
              WinningRoutes(hostnames, ts, ts[..i + 1]) == r + [route] && SkippedAmong(hostnames, ts, ts[..i + 1]) == s
            case PassedOver(why) =>
              WinningRoutes(hostnames, ts, ts[..i + 1]) == r
                && SkippedAmong(hostnames, ts, ts[..i + 1]) == s[Key(ts[i]) := why]
  {
    assert ts[..i + 1][..i] == ts[..i];
  }

  method TreatTunnel(
    hostnames: seq<string>, wanted: set<string>, ghost ts: seq<Tunnel>, ghost i: nat, t: Tunnel, served: set<string>)
    returns (r: Treatment, now: set<string>)
    requires StrictlySorted(ts, TunnelLess) && (forall h :: h in wanted <==> Names(hostnames, h))
    requires i < |ts| && ts[i] == t && ServedUpTo(hostnames, ts, i, served)
    ensures r == Treat(hostnames, ts, t) && ServedUpTo(hostnames, ts, i + 1, now)
  {
    TreatInOrder(hostnames, ts, i, served);
    if t.dst.None? || Lower(t.dst.value.hostname) !in wanted {
      return Ignored, served;
    }
    var reflected := Reflect(t);
    if reflected.Refused? {
      return PassedOver(reflected.reason), served;
    }
    if reflected.route.destination in served {
      return PassedOver(AlreadyServed(reflected.route.destination)), served;
    }
    return Taken(reflected.route), served + {reflected.route.destination};
  }

  /** How a tunnel is treated, decided from the destinations served before it. */
  lemma TreatInOrder(hostnames: seq<string>, ts: seq<Tunnel>, i: nat, served: set<string>)
    requires StrictlySorted(ts, TunnelLess) && i < |ts| && ServedUpTo(hostnames, ts, i, served)
    ensures Treat(hostnames, ts, ts[i]) ==
            if !Relevant(hostnames, ts[i]) then Ignored
            else if Reflect(ts[i]).Refused? then PassedOver(Reflect(ts[i]).reason)
            else if RouteOf(ts[i]).destination in served then PassedOver(AlreadyServed(RouteOf(ts[i]).destination))
            else Taken(Reflect(ts[i]).route)
    ensures ServedUpTo(hostnames, ts, i + 1,
        if CanServe(hostnames, ts[i]) then served + {Reflect(ts[i]).route.destination} else served)
    ensures CanServe(hostnames, ts[i]) && Reflect(ts[i]).route.destination in served ==>
        ServedUpTo(hostnames, ts, i + 1, served)
  {
    ServedSnoc(hostnames, ts, i, served);
    if CanServe(hostnames, ts[i]) {
      WinsUnserved(hostnames, ts, i, served);
      assert RouteOf(ts[i]).destination in served ==> served + {RouteOf(ts[i]).destination} == served;
    }
  }

  method VisitTunnels(hostnames: seq<string>, wanted: set<string>, ts: seq<Tunnel>)
    returns (routes: seq<Route>, skipped: map<string, Reason>, routed: set<string>)
    requires StrictlySorted(ts, TunnelLess) && forall h :: h in wanted <==> Names(hostnames, h)
    ensures routes == WinningRoutes(hostnames, ts, ts) && skipped == SkippedAmong(hostnames, ts, ts)
    ensures RoutedSet(routed, routes)
  {
    routes, skipped, routed := [], map[], {};
    var served: set<string> := {};
    var i := 0;
    while i < |ts|
      invariant 0 <= i <= |ts| && ServedUpTo(hostnames, ts, i, served)
      invariant routes == WinningRoutes(hostnames, ts, ts[..i]) && skipped == SkippedAmong(hostnames, ts, ts[..i])
      invariant RoutedSet(routed, routes)
    {
      var r: Treatment;
      r, served := TreatTunnel(hostnames, wanted, ts, i, ts[i], served);
      OneMoreTreated(hostnames, ts, i);
      if r.PassedOver? {
        skipped := skipped[Key(ts[i]) := r.why];
      } else if r.Taken? {
        RoutedSetSnoc(routed, routes, r.taken);
        routed := routed + {r.taken.hostname};
        routes := routes + [r.taken];
      }
      i := i + 1;
    }
    assert ts[..i] == ts;
  }

  lemma HasRouteSnoc(routes: seq<Route>, r: Route)
    ensures forall h :: HasRoute(routes + [r], h) <==> HasRoute(routes, h) || h == r.hostname
  {
    var all := routes + [r];
    forall h ensures HasRoute(all, h) <==> HasRoute(routes, h) || h == r.hostname {
      if HasRoute(routes, h) {
        var i :| 0 <= i < |routes| && routes[i].hostname == h;
        assert all[i].hostname == h;
      }
      assert all[|routes|] == r;
    }
  }

  method LowerSet(hostnames: seq<string>) returns (wanted: set<string>)
    ensures forall h :: h in wanted <==> Names(hostnames, h)
  {
    wanted := {};
    var i := 0;
    while i < |hostnames|
      invariant 0 <= i <= |hostnames| && forall h :: h in wanted <==> Names(hostnames[..i], h)
    {
      forall h ensures Names(hostnames[..i + 1], h) <==> Names(hostnames[..i], h) || h == Lower(hostnames[i]) {
        NamesSnoc(hostnames, i, h);
      }
      wanted := wanted + {Lower(hostnames[i])};
      i := i + 1;
    }
    assert hostnames[..i] == hostnames;
  }

  method ComputeRoutes(hostnames: seq<string>, ts: seq<Tunnel>) returns (out: RouteSet)
    requires DistinctKeys(ts)
    ensures out == ComputedRoutes(hostnames, ts)
  {
    var wanted := LowerSet(hostnames);
    SortedKeys(ts);
    var routes, skipped, routed := VisitTunnels(hostnames, wanted, Sort(ts, TunnelLess));
    var unrouted: seq<string> := [];
    var i := 0;
    while i < |hostnames|
      invariant 0 <= i <= |hostnames| && unrouted == Keep(hostnames[..i], (h: string) => !HasRoute(routes, Lower(h)))
    {
      assert hostnames[..i + 1][..i] == hostnames[..i];
      if Lower(hostnames[i]) !in routed {
        unrouted := unrouted + [hostnames[i]];
      }
      i := i + 1;
    }
    assert hostnames[..i] == hostnames;
    out := RouteSet(Sort(routes, RouteLess), SortStrings(unrouted), skipped);
  }

  // ---- the selection theorem ----

  lemma WinsSame(hostnames: seq<string>, a: seq<Tunnel>, b: seq<Tunnel>, t: Tunnel)
    requires forall x :: x in a <==> x in b
    ensures Wins(hostnames, a, t) <==> Wins(hostnames, b, t)
  {
    assert forall i :: 0 <= i < |a| ==> a[i] in b;
    assert forall i :: 0 <= i < |b| ==> b[i] in a;
  }

  /** `r` is the route of a winner. */
  ghost predicate Yields(hostnames: seq<string>, ts: seq<Tunnel>, t: Tunnel, r: Route)
  {
    Wins(hostnames, ts, t) && RouteOf(t) == r
  }

  lemma {:induction false} WinningMembers(hostnames: seq<string>, ts: seq<Tunnel>, xs: seq<Tunnel>)
    ensures forall r :: r in WinningRoutes(hostnames, ts, xs) <==> exists t :: t in xs && Yields(hostnames, ts, t, r)
  {
    if xs != [] {
      var n := |xs| - 1;
      WinningMembers(hostnames, ts, xs[..n]);
      assert xs == xs[..n] + [xs[n]];
      assert Wins(hostnames, ts, xs[n]) ==> Yields(hostnames, ts, xs[n], RouteOf(xs[n]));
    }
  }

  ghost predicate DistinctDestinations(rs: seq<Route>) {
    forall i, j :: 0 <= i < j < |rs| ==> rs[i].destination != rs[j].destination
  }

  lemma WinnersDiffer(hostnames: seq<string>, ts: seq<Tunnel>, k: nat, i: nat)
    requires StrictlySorted(ts, TunnelLess) && k < i < |ts| && Wins(hostnames, ts, ts[k]) && Wins(hostnames, ts, ts[i])
    ensures RouteOf(ts[k]).destination != RouteOf(ts[i]).destination
  {
    WinsInOrder(hostnames, ts, i);
  }

  lemma NewWinner(hostnames: seq<string>, ts: seq<Tunnel>, n: nat, r: Route)
    requires StrictlySorted(ts, TunnelLess) && n < |ts| && Wins(hostnames, ts, ts[n])
    requires r in WinningRoutes(hostnames, ts, ts[..n])
    ensures r.destination != RouteOf(ts[n]).destination
  {
    WinningMembers(hostnames, ts, ts[..n]);
    var o :| o in ts[..n] && Yields(hostnames, ts, o, r);
    var k :| 0 <= k < n && ts[..n][k] == o;
    WinnersDiffer(hostnames, ts, k, n);
  }

  lemma DistinctSnoc(rs: seq<Route>, r: Route)
    requires DistinctDestinations(rs) && forall x :: x in rs ==> x.destination != r.destination
    ensures DistinctDestinations(rs + [r])
  {
    assert forall i :: 0 <= i < |rs| ==> rs[i] in rs;
  }

  lemma {:induction false} WinningDistinct(hostnames: seq<string>, ts: seq<Tunnel>, n: nat)
    requires n <= |ts| && StrictlySorted(ts, TunnelLess)
    ensures DistinctDestinations(WinningRoutes(hostnames, ts, ts[..n]))
  {
    if n > 0 {
      assert ts[..n][..n - 1] == ts[..n - 1];
      WinningDistinct(hostnames, ts, n - 1);
      var done, t := WinningRoutes(hostnames, ts, ts[..n - 1]), ts[n - 1];
      if Wins(hostnames, ts, t) {
        forall r | r in done ensures r.destination != RouteOf(t).destination { NewWinner(hostnames, ts, n - 1, r); }
        DistinctSnoc(done, RouteOf(t));
      }
    }
  }

  lemma SortRoutes(rs: seq<Route>)
    requires DistinctDestinations(rs)
    ensures StrictlySorted(Sort(rs, RouteLess), RouteLess)
    ensures forall r :: r in Sort(rs, RouteLess) <==> r in rs
  {
    LessIsStrictWeak();
    forall a: Route, b: Route, c: Route | RouteLess(a, c) ensures RouteLess(a, b) || RouteLess(b, c) {}
    forall x, y | x in rs && y in rs && x != y ensures RouteLess(x, y) || RouteLess(y, x) {
      LessTotal(x.destination, y.destination);
    }
    SortStrict(rs, RouteLess);
    SortMembers(rs, RouteLess);
  }

  /** Routes are the winners' routes, strictly sorted by destination. */
  lemma RoutesExact(hostnames: seq<string>, ts: seq<Tunnel>)
    requires DistinctKeys(ts)
    ensures var rs := ComputedRoutes(hostnames, ts).routes;
            && StrictlySorted(rs, RouteLess)
            && forall r :: r in rs <==> exists t :: t in ts && Yields(hostnames, ts, t, r)
  {
    var sorted := Sort(ts, TunnelLess);
    SortedKeys(ts);
    assert sorted[..|sorted|] == sorted;
    WinningDistinct(hostnames, sorted, |sorted|);
    WinningMembers(hostnames, sorted, sorted);
    SortRoutes(WinningRoutes(hostnames, sorted, sorted));
    forall t, r ensures Yields(hostnames, ts, t, r) <==> Yields(hostnames, sorted, t, r) {
      WinsSame(hostnames, ts, sorted, t);
    }
  }

  lemma {:induction false} SkippedMembers(hostnames: seq<string>, ts: seq<Tunnel>, xs: seq<Tunnel>)
    requires DistinctKeys(xs)
    ensures forall k :: k in SkippedAmong(hostnames, ts, xs) ==> exists t :: t in xs && Key(t) == k
    ensures forall t :: t in xs ==>
        (Key(t) in SkippedAmong(hostnames, ts, xs) <==> Relevant(hostnames, t) && !Wins(hostnames, ts, t))
    ensures forall t :: t in xs && Relevant(hostnames, t) && !Wins(hostnames, ts, t) ==>
        SkippedAmong(hostnames, ts, xs)[Key(t)] == ReasonFor(t)
  {
    if xs != [] {
      var n := |xs| - 1;
      SkippedMembers(hostnames, ts, xs[..n]);
      assert xs == xs[..n] + [xs[n]];
      forall t | t in xs[..n] ensures Key(t) != Key(xs[n]) {
        var i :| 0 <= i < n && xs[i] == t;
        if Key(t) == Key(xs[n]) { KeyInjective(t, xs[n]); }
      }
    }
  }

  /** A route carries this key. */
  ghost predicate RoutedAs(routes: seq<Route>, key: string) { exists i :: 0 <= i < |routes| && routes[i].tunnel == key }

  lemma OneWithKey(ts: seq<Tunnel>, a: Tunnel, b: Tunnel)
    requires DistinctKeys(ts) && a in ts && b in ts && Key(a) == Key(b)
    ensures a == b
  {
    KeyInjective(a, b);
    var i :| 0 <= i < |ts| && ts[i] == a;
    var j :| 0 <= j < |ts| && ts[j] == b;
    assert i == j;
  }

  lemma RoutedExact(hostnames: seq<string>, ts: seq<Tunnel>, t: Tunnel)
    requires DistinctKeys(ts) && t in ts
    ensures RoutedAs(ComputedRoutes(hostnames, ts).routes, Key(t)) <==> Wins(hostnames, ts, t)
  {
    var rs := ComputedRoutes(hostnames, ts).routes;
    RoutesExact(hostnames, ts);
    if Wins(hostnames, ts, t) {
      assert Yields(hostnames, ts, t, RouteOf(t));
      RoutedByMember(rs, t);
    }
    if RoutedAs(rs, Key(t)) {
      var i :| 0 <= i < |rs| && rs[i].tunnel == Key(t);
      var o := RouteOrigin(hostnames, ts, rs[i]);
      RouteShape(o);
      OneWithKey(ts, o, t);
    }
  }

  lemma RoutedByMember(rs: seq<Route>, t: Tunnel)
    requires t.dst.Some? && Reflect(t).Served? && RouteOf(t) in rs
    ensures RoutedAs(rs, Key(t))
  {
    var i :| 0 <= i < |rs| && rs[i] == RouteOf(t);
  }

  lemma RouteOrigin(hostnames: seq<string>, ts: seq<Tunnel>, r: Route) returns (t: Tunnel)
    requires DistinctKeys(ts) && r in ComputedRoutes(hostnames, ts).routes
    ensures t in ts && Yields(hostnames, ts, t, r)
  {
    RoutesExact(hostnames, ts);
    t :| t in ts && Yields(hostnames, ts, t, r);
  }

  lemma RouteShape(t: Tunnel)
    requires t.dst.Some? && Reflect(t).Served?
    ensures RouteOf(t).tunnel == Key(t) && RouteOf(t).hostname == Lower(t.dst.value.hostname)
  {
  }

  /** A tunnel that could serve yields only to an earlier winner with the same destination. */
  lemma LeastServes(hostnames: seq<string>, ts: seq<Tunnel>, t: Tunnel) returns (w: Tunnel)
    requires DistinctKeys(ts) && t in ts && CanServe(hostnames, t)
    ensures w in ts && Wins(hostnames, ts, w) && RouteOf(w).destination == RouteOf(t).destination
        && (w == t || TunnelLess(w, t))
  {
    TunnelLessIsStrictWeak();
    TunnelLessTotalOn(ts);
    var k :| 0 <= k < |ts| && ts[k] == t;
    var p := (o: Tunnel) => CanServe(hostnames, o) && RouteOf(o).destination == RouteOf(t).destination;
    var m := LeastExists(ts, p, TunnelLess, k);
    w := ts[m];
    assert p(w);
  }

  /**
   * Route selection. A tunnel whose dstURL parses for a wanted host is in exactly one of Routes
   * and Skipped: in Routes when no earlier tunnel can serve its destination, else in Skipped with
   * the reason.
   */
  lemma RouteSelection(hostnames: seq<string>, ts: seq<Tunnel>, t: Tunnel)
    requires DistinctKeys(ts) && t in ts && Relevant(hostnames, t)
    ensures var r := ComputedRoutes(hostnames, ts);
            && (RoutedAs(r.routes, Key(t)) <==> Wins(hostnames, ts, t))
            && (Key(t) in r.skipped <==> !Wins(hostnames, ts, t))
            && (Key(t) in r.skipped ==> r.skipped[Key(t)] == ReasonFor(t))
  {
    var sorted := Sort(ts, TunnelLess);
    SortedKeys(ts);
    RoutedExact(hostnames, ts, t);
    WinsSame(hostnames, ts, sorted, t);
    SkippedMembers(hostnames, sorted, sorted);
    assert t in sorted;
  }

  /** Skipped names only tunnels that were passed in. */
  lemma SkippedAreTunnels(hostnames: seq<string>, ts: seq<Tunnel>, k: string)
    requires DistinctKeys(ts) && k in ComputedRoutes(hostnames, ts).skipped
    ensures exists t :: t in ts && Key(t) == k && Relevant(hostnames, t)
  {
    var sorted := Sort(ts, TunnelLess);
    SortedKeys(ts);
    SkippedMembers(hostnames, sorted, sorted);
    var t :| t in sorted && Key(t) == k;
    assert t in ts;
  }

  lemma HasRouteSame(a: seq<Route>, b: seq<Route>, h: string)
    requires forall r :: r in a <==> r in b
    ensures HasRoute(a, h) <==> HasRoute(b, h)
  {
    assert forall i :: 0 <= i < |a| ==> a[i] in b;
    assert forall i :: 0 <= i < |b| ==> b[i] in a;
  }

  /** Unrouted is exactly the hostnames without a route, sorted. */
  lemma UnroutedExact(hostnames: seq<string>, ts: seq<Tunnel>)
    ensures var r := ComputedRoutes(hostnames, ts);
            && Sorted(r.unrouted, Less)
            && forall h :: h in r.unrouted <==> h in hostnames && !HasRoute(r.routes, Lower(h))
  {
    var sorted := Sort(ts, TunnelLess);
    var routes := WinningRoutes(hostnames, sorted, sorted);
    SortMembers(routes, RouteLess);
    var p := (h: string) => !HasRoute(routes, Lower(h));
    KeepMembers(hostnames, p);
    SortStringsProperties(Keep(hostnames, p));
    forall h ensures HasRoute(routes, h) <==> HasRoute(Sort(routes, RouteLess), h) {
      HasRouteSame(routes, Sort(routes, RouteLess), h);
    }
  }

  /** The listing order of the tunnels never matters. */
  lemma RoutesIgnoreOrder(hostnames: seq<string>, ts: seq<Tunnel>, ts': seq<Tunnel>)
    requires DistinctKeys(ts) && multiset(ts) == multiset(ts')
    ensures ComputedRoutes(hostnames, ts) == ComputedRoutes(hostnames, ts')
  {
    TunnelLessIsStrictWeak();
    TunnelLessTotalOn(ts);
    SortPermutation(ts, ts', TunnelLess);
  }

  // ---- RoutedHostnames ----

  function HostsOf(rs: seq<Route>): seq<string> {
    if rs == [] then []
    else
      var done, h := HostsOf(rs[..|rs| - 1]), rs[|rs| - 1].hostname;
      if h in done then done else done + [h]
  }

  function RoutedHostnames(rs: seq<Route>): seq<string> { SortStrings(HostsOf(rs)) }

  method ComputeRoutedHostnames(rs: seq<Route>) returns (out: seq<string>)
    ensures out == RoutedHostnames(rs)
  {
    var seen: set<string> := {};
    out := [];
    var i := 0;
    while i < |rs|
      invariant 0 <= i <= |rs| && out == HostsOf(rs[..i]) && forall h :: h in seen <==> h in out
    {
      assert rs[..i + 1][..i] == rs[..i];
      if rs[i].hostname !in seen {
        seen := seen + {rs[i].hostname};
        out := out + [rs[i].hostname];
      }
      i := i + 1;
    }
    assert rs[..i] == rs;
    out := SortStrings(out);
  }

  lemma {:induction false} HostsOfMembers(rs: seq<Route>)
    ensures Distinct(HostsOf(rs)) && forall h :: h in HostsOf(rs) <==> HasRoute(rs, h)
  {
    if rs != [] {
      var n := |rs| - 1;
      HostsOfMembers(rs[..n]);
      HasRouteSnoc(rs[..n], rs[n]);
      assert rs == rs[..n] + [rs[n]];
    }
  }

  /** Each routed hostname once, sorted; all of them wanted. */
  lemma RoutedHostnamesExact(hostnames: seq<string>, ts: seq<Tunnel>)
    requires DistinctKeys(ts)
    ensures var rs := ComputedRoutes(hostnames, ts).routes;
            && StrictlySorted(RoutedHostnames(rs), Less)
            && (forall h :: h in RoutedHostnames(rs) <==> HasRoute(rs, h))
            && (forall h :: h in RoutedHostnames(rs) ==> Names(hostnames, h))
  {
    var rs := ComputedRoutes(hostnames, ts).routes;
    HostsOfMembers(rs);
    SortStringsProperties(HostsOf(rs));
    forall h | h in RoutedHostnames(rs) ensures Names(hostnames, h) {
      var i :| 0 <= i < |rs| && rs[i].hostname == h;
      var t := RouteOrigin(hostnames, ts, rs[i]);
      RouteShape(t);
    }
  }

  // ---- routes spelled out ----

  /** The destination is the tunnel's URL moved to the proxy's port: 8443 for https, 8080 for http. */
  lemma DestinationSpelled(host: string, dst: Url)
    ensures var at := if ':' in host then "[" + host + "]" else host;
            var tail := (if dst.path == "" then "/" else dst.path) + dst.rest;
            && (dst.scheme.Https? ==> Destination(host, dst) == "https://" + dst.user + (at + ":8443") + tail)
            && (dst.scheme.Http? ==> Destination(host, dst) == "http://" + dst.user + (at + ":8080") + tail)
  {
    var port := ProxyPort(dst.scheme);
    assert ':' in host ==> "[" + host + "]:" + port == "[" + host + "]" + ":" + port;
    assert JoinHostPort(host, port) == (if ':' in host then "[" + host + "]" else host) + (":" + port);
    var path := if dst.path == "" then "/" else dst.path;
    var front := SchemeText(dst.scheme) + "://" + dst.user + JoinHostPort(host, port);
    assert front + path + dst.rest == front + (path + dst.rest);
  }

  /** A tunnel can be a route exactly when both its URLs are http(s) and its source is not a loopback address. */
  lemma ReflectSpelled(t: Tunnel)
    requires t.dst.Some?
    ensures Reflect(t).Served? <==>
            && (t.dst.value.scheme.Http? || t.dst.value.scheme.Https?)
            && t.src.Some? && (t.src.value.scheme.Http? || t.src.value.scheme.Https?)
            && t.src.value.hostname != "localhost" && !t.src.value.loopbackIP
    ensures Reflect(t).Served? ==>
              var r := Reflect(t).route;
              && r.hostname == Lower(t.dst.value.hostname) && r.source == t.source
              && r.tunnel == t.namespace + "/" + t.name && r.destination == Destination(r.hostname, t.dst.value)
    ensures t.dst.value.scheme.OtherScheme? ==> Reflect(t) == Refused(DestinationScheme(t.dst.value.scheme))
    ensures !t.dst.value.scheme.OtherScheme? && t.src.None? ==> Reflect(t) == Refused(UnparseableSource)
    ensures !t.dst.value.scheme.OtherScheme? && t.src.Some? && t.src.value.scheme.OtherScheme? ==>
              Reflect(t) == Refused(SourceScheme(t.src.value.scheme))
    ensures var readable := !t.dst.value.scheme.OtherScheme? && t.src.Some? && !t.src.value.scheme.OtherScheme?;
            readable && Reflect(t).Refused? ==> Reflect(t) == Refused(LoopbackSource(t.src.value.hostname))
  {
  }

  /** Routes are strictly sorted by the text of their destination. */
  lemma RoutesAreSorted(hostnames: seq<string>, ts: seq<Tunnel>)
    requires DistinctKeys(ts)
    ensures var rs := ComputedRoutes(hostnames, ts).routes;
            forall i, j :: 0 <= i < j < |rs| ==> Less(rs[i].destination, rs[j].destination)
  {
    RoutesExact(hostnames, ts);
  }

  /** Of two tunnels for one destination the one with the greater namespace, then name, is skipped as already served. */
  lemma LaterTunnelIsSkipped(hostnames: seq<string>, ts: seq<Tunnel>, a: Tunnel, b: Tunnel)
    requires DistinctKeys(ts) && a in ts && b in ts
    requires Relevant(hostnames, a) && Relevant(hostnames, b) && Reflect(a).Served? && Reflect(b).Served?
    requires Reflect(a).route.destination == Reflect(b).route.destination
    requires Less(a.namespace, b.namespace) || (a.namespace == b.namespace && Less(a.name, b.name))
    ensures var r := ComputedRoutes(hostnames, ts);
            && !RoutedAs(r.routes, Key(b)) && Key(b) in r.skipped
            && r.skipped[Key(b)] == AlreadyServed(Reflect(b).route.destination)
  {
    LessIsStrictWeak();
    var i :| 0 <= i < |ts| && ts[i] == a;
    LaterLosesTo(hostnames, ts, i, b);
    RouteSelection(hostnames, ts, b);
  }

  lemma LaterLosesTo(hostnames: seq<string>, ts: seq<Tunnel>, i: nat, b: Tunnel)
    requires i < |ts| && CanServe(hostnames, ts[i]) && CanServe(hostnames, b) && TunnelLess(ts[i], b)
    requires RouteOf(ts[i]).destination == RouteOf(b).destination
    ensures !Wins(hostnames, ts, b)
  {
  }

  /** The first tunnel for a destination, by namespace and then name, is the one that serves it. */
  lemma FirstTunnelServes(hostnames: seq<string>, ts: seq<Tunnel>, t: Tunnel)
    requires DistinctKeys(ts) && t in ts && Relevant(hostnames, t) && Reflect(t).Served?
    requires forall o :: o in ts && o != t && Relevant(hostnames, o) && Reflect(o).Served? ==>
               || Reflect(o).route.destination != Reflect(t).route.destination
               || Less(t.namespace, o.namespace) || (t.namespace == o.namespace && Less(t.name, o.name))
    ensures Reflect(t).route in ComputedRoutes(hostnames, ts).routes
  {
    var w := LeastServes(hostnames, ts, t);
    LessIsStrictWeak();
    assert w == t;
    RoutesExact(hostnames, ts);
    assert Yields(hostnames, ts, t, RouteOf(t));
  }
}
