/** internal/controller/weftgateway/reconciler.go: when the hostnames of a route and of a listener overlap. */
module Hostnames {
  import opened Text
  import opened Api
  import opened LocalDns

  // ---- Gateway API hostnames ----

  predicate IsLabel(l: string) {
    && l != "" && IsAlphanumeric(l[0]) && IsAlphanumeric(l[|l| - 1])
    && forall i :: 0 <= i < |l| ==> IsAlphanumeric(l[i]) || l[i] == '-'
  }

  predicate IsDotted(h: string) { forall i :: 0 <= i < |Split(h, '.')| ==> IsLabel(Split(h, '.')[i]) }

  /** A name a client can ask for. */
  predicate IsConcrete(h: string) { |h| <= 253 && IsDotted(h) }

  predicate IsWildcard(h: string) { |h| >= 2 && h[0] == '*' && h[1] == '.' }

  /** A precise name, or `*.` and a precise name. */
  predicate IsHostname(h: string) { |h| <= 253 && if IsWildcard(h) then IsDotted(h[2..]) else IsDotted(h) }

  /** `c` is one of the names `pattern` stands for; a wildcard stands for proper subdomains, at any depth. */
  predicate StandsFor(pattern: string, c: string) {
    if IsWildcard(pattern) then |c| > |pattern| - 1 && HasSuffix(c, pattern[1..]) else c == pattern
  }

  // ---- hostnameMatches ----

  predicate HostnameMatches(a: string, b: string) {
    || a == b
    || (IsWildcard(a) && HasSuffix(b, a[1..]))
    || (IsWildcard(b) && HasSuffix(a, b[1..]))
  }

  lemma MatchesSymmetric(a: string, b: string)
    ensures HostnameMatches(a, b) <==> HostnameMatches(b, a)
  {
  }

  lemma SuffixOfSuffix(c: string, s: string, t: string)
    requires HasSuffix(c, s) && HasSuffix(c, t) && |s| <= |t|
    ensures HasSuffix(t, s)
  {
    assert t[|t| - |s|..] == c[|c| - |s|..];
  }

  lemma SuffixTransitive(c: string, t: string, s: string)
    requires HasSuffix(c, t) && HasSuffix(t, s)
    ensures HasSuffix(c, s)
  {
    assert c[|c| - |s|..] == t[|t| - |s|..];
  }

  lemma ProperSuffix(b: string, s: string)
    requires HasSuffix(b, s) && s != "" && b[0] != s[0]
    ensures |s| < |b|
  {
    assert b[|b| - |s|..][0] == b[|b| - |s|];
  }

  /** A dotted name does not start with a dot or a star. */
  lemma DottedStart(h: string)
    requires IsDotted(h)
    ensures h != "" && h[0] != '.' && h[0] != '*'
  {
    assert IsLabel(Split(h, '.')[0]);
  }

  /** A name a hostname stands for. */
  function Sample(h: string): string { if IsWildcard(h) then "a" + h[1..] else h }

  lemma SampleIsConcrete(h: string)
    requires IsHostname(h)
    ensures IsConcrete(Sample(h)) && StandsFor(h, Sample(h))
  {
    if IsWildcard(h) {
      var s := h[2..];
      assert h[1..] == "." + s;
      SplitPrefix("a", "." + s, '.');
      assert ("." + s)[1..] == s;
      assert "a" + "" == "a";
      assert Split("a" + ("." + s), '.') == ["a"] + Split(s, '.');
    }
  }

  /** Wildcard `a` matching `b`: whatever `b` stands for, its sample is also one of `a`'s. */
  lemma WildcardCoversSample(a: string, b: string)
    requires IsHostname(b) && IsWildcard(a) && HasSuffix(b, a[1..])
    ensures StandsFor(a, Sample(b))
  {
    if IsWildcard(b) {
      ProperSuffix(b, a[1..]);
      SuffixOfSuffix(b, a[1..], b[1..]);
      SuffixTransitive(Sample(b), b[1..], a[1..]);
    } else {
      DottedStart(b);
      ProperSuffix(b, a[1..]);
    }
  }

  lemma MatchMeansOverlap(a: string, b: string)
    requires IsHostname(a) && IsHostname(b) && HostnameMatches(a, b)
    ensures exists c :: IsConcrete(c) && StandsFor(a, c) && StandsFor(b, c)
  {
    SampleIsConcrete(a);
    SampleIsConcrete(b);
    if IsWildcard(a) && HasSuffix(b, a[1..]) {
      WildcardCoversSample(a, b);
      assert IsConcrete(Sample(b)) && StandsFor(a, Sample(b)) && StandsFor(b, Sample(b));
    } else if IsWildcard(b) && HasSuffix(a, b[1..]) {
      WildcardCoversSample(b, a);
      assert IsConcrete(Sample(a)) && StandsFor(a, Sample(a)) && StandsFor(b, Sample(a));
    } else {
      assert IsConcrete(Sample(a)) && StandsFor(a, Sample(a)) && StandsFor(b, Sample(a));
    }
  }

  lemma OverlapMeansMatch(a: string, b: string, c: string)
    requires StandsFor(a, c) && StandsFor(b, c)
    ensures HostnameMatches(a, b)
  {
    if IsWildcard(a) && IsWildcard(b) {
      if |a| <= |b| {
        SuffixOfSuffix(c, a[1..], b[1..]);
        SuffixTransitive(b, b[1..], a[1..]);
      } else {
        SuffixOfSuffix(c, b[1..], a[1..]);
        SuffixTransitive(a, a[1..], b[1..]);
      }
    }
  }

  /** Matching is exact: two hostnames match exactly when some name is one of both. */
  lemma MatchesExactly(a: string, b: string)
    requires IsHostname(a) && IsHostname(b)
    ensures HostnameMatches(a, b) <==> exists c :: IsConcrete(c) && StandsFor(a, c) && StandsFor(b, c)
  {
    if HostnameMatches(a, b) { MatchMeansOverlap(a, b); }
    if c :| IsConcrete(c) && StandsFor(a, c) && StandsFor(b, c) { OverlapMeansMatch(a, b, c); }
  }

  // ---- hostnamesIntersect ----

  predicate Intersects(route: seq<string>, listener: Option<string>) {
    || listener.None? || listener.value == "" || route == []
    || exists i :: 0 <= i < |route| && HostnameMatches(route[i], listener.value)
  }

  method HostnamesIntersect(route: seq<string>, listener: Option<string>) returns (r: bool)
    ensures r <==> Intersects(route, listener)
  {
    if listener.None? || listener.value == "" {
      return true;
    }
    if |route| == 0 {
      return true;
    }
    var i := 0;
    while i < |route|
      invariant 0 <= i <= |route| && forall k :: 0 <= k < i ==> !HostnameMatches(route[k], listener.value)
    {
      if HostnameMatches(route[i], listener.value) {
        return true;
      }
      i := i + 1;
    }
    return false;
  }

  /** An absent or empty listener hostname stands for every name. */
  predicate ListenerAccepts(listener: Option<string>, c: string) {
    listener.None? || listener.value == "" || StandsFor(listener.value, c)
  }

  /** A route without hostnames takes the listener's. */
  predicate RouteAsksFor(route: seq<string>, c: string) {
    route == [] || exists i :: 0 <= i < |route| && StandsFor(route[i], c)
  }

  /** Some name reaches the route through the listener. */
  ghost predicate Overlap(route: seq<string>, listener: Option<string>) {
    exists c :: IsConcrete(c) && RouteAsksFor(route, c) && ListenerAccepts(listener, c)
  }

  lemma SomeName()
    ensures IsConcrete("a")
  {
    SplitPrefix("a", "", '.');
    assert "a" + "" == "a";
  }

  /** hostnamesIntersect is true exactly when some concrete name is in both sets. */
  lemma IntersectsExactly(route: seq<string>, listener: Option<string>)
    requires forall i :: 0 <= i < |route| ==> IsHostname(route[i])
    requires listener.Some? && listener.value != "" ==> IsHostname(listener.value)
    ensures Intersects(route, listener) <==> Overlap(route, listener)
  {
    if listener.None? || listener.value == "" {
      if route == [] {
        SomeName();
        assert RouteAsksFor(route, "a") && ListenerAccepts(listener, "a");
      } else {
        SampleIsConcrete(route[0]);
        assert RouteAsksFor(route, Sample(route[0])) && ListenerAccepts(listener, Sample(route[0]));
      }
    } else if route == [] {
      SampleIsConcrete(listener.value);
      assert RouteAsksFor(route, Sample(listener.value)) && ListenerAccepts(listener, Sample(listener.value));
    } else {
      if Intersects(route, listener) {
        var i :| 0 <= i < |route| && HostnameMatches(route[i], listener.value);
        MatchMeansOverlap(route[i], listener.value);
        var c :| IsConcrete(c) && StandsFor(route[i], c) && StandsFor(listener.value, c);
        assert RouteAsksFor(route, c) && ListenerAccepts(listener, c);
      }
      if Overlap(route, listener) {
        var c :| IsConcrete(c) && RouteAsksFor(route, c) && ListenerAccepts(listener, c);
        var i :| 0 <= i < |route| && StandsFor(route[i], c);
        OverlapMeansMatch(route[i], listener.value, c);
      }
    }
  }
}
