/** internal/controller/weftlocaldnsreflector/claims.go: which hostnames each reflector serves. */
module Claims {
  import opened Order
  import opened Text
  import opened Api
  import opened LocalDns

  /** Creation time, a zero time last, then name. */
  predicate Older(a: Reflector, b: Reflector) {
    if a.created != b.created then
      a.created.Some? && (b.created.None? || a.created.value < b.created.value)
    else Less(a.name, b.name)
  }

  lemma OlderIsStrictWeak()
    ensures StrictWeak(Older)
  {
    LessIsStrictWeak();
    forall a, b, c | Older(a, b) && Older(b, c) ensures Older(a, c) {}
    forall a, b, c | Older(a, c) ensures Older(a, b) || Older(b, c) {}
  }

  ghost predicate DistinctNames(rs: seq<Reflector>) {
    forall i, j :: 0 <= i < j < |rs| ==> rs[i].name != rs[j].name
  }

  lemma OlderTotalOn(rs: seq<Reflector>)
    requires DistinctNames(rs)
    ensures TotalOn(rs, Older)
  {
    forall x, y | x in rs && y in rs && x != y ensures Older(x, y) || Older(y, x) { LessTotal(x.name, y.name); }
  }

  // ---- tunnel hostnames ----

  predicate IsHttp(s: Scheme) { s.Http? || s.Https? }

  /** The hostname a tunnel offers to `allHostnames` reflectors. */
  predicate Offers(t: Tunnel) { t.dst.Some? && IsHttp(t.dst.value.scheme) && Servable(Lower(t.dst.value.hostname)) }

  function Offered(ts: seq<Tunnel>): seq<string> {
    if ts == [] then []
    else
      var done, t := Offered(ts[..|ts| - 1]), ts[|ts| - 1];
      if Offers(t) then done + [Lower(t.dst.value.hostname)] else done
  }

  function TunnelHostnames(ts: seq<Tunnel>): seq<string> { SortedNames(Offered(ts)) }

  method ComputeTunnelHostnames(ts: seq<Tunnel>) returns (out: seq<string>)
    ensures out == TunnelHostnames(ts)
  {
    var hosts: seq<string> := [];
    var i := 0;
    while i < |ts|
      invariant 0 <= i <= |ts| && hosts == Offered(ts[..i])
    {
      assert ts[..i + 1][..i] == ts[..i];
      if ts[i].dst.Some? && IsHttp(ts[i].dst.value.scheme) {
        var h := Lower(ts[i].dst.value.hostname);
        if Servable(h) {
          hosts := hosts + [h];
        }
      }
      i := i + 1;
    }
    assert ts[..i] == ts;
    out := ComputeSortedNames(hosts);
  }

  lemma {:induction false} OfferedMembers(ts: seq<Tunnel>)
    ensures forall h :: h in Offered(ts) <==> exists t :: t in ts && Offers(t) && Lower(t.dst.value.hostname) == h
    ensures forall h :: h in Offered(ts) ==> Servable(h)
  {
    if ts != [] {
      OfferedMembers(ts[..|ts| - 1]);
      assert ts == ts[..|ts| - 1] + [ts[|ts| - 1]];
    }
  }

  /** Strictly sorted, and a name is listed exactly when some http(s) tunnel has it and CoreDNS can serve it. */
  lemma TunnelHostnamesMembers(ts: seq<Tunnel>)
    ensures StrictlySorted(TunnelHostnames(ts), Less)
    ensures forall h :: h in TunnelHostnames(ts) <==>
              exists t :: t in ts && t.dst.Some? && (t.dst.value.scheme.Http? || t.dst.value.scheme.Https?)
                          && Servable(Lower(t.dst.value.hostname)) && Lower(t.dst.value.hostname) == h
    ensures forall h :: h in TunnelHostnames(ts) ==> Servable(h)
  {
    OfferedMembers(ts);
    SortedNamesMembers(Offered(ts));
    forall h ensures h in TunnelHostnames(ts) <==> h in Offered(ts) {
      if h in Offered(ts) {
        var i :| 0 <= i < |Offered(ts)| && Offered(ts)[i] == h;
        ServableChars(h);
        assert Lower(Offered(ts)[i]) == h;
      }
      if Names(Offered(ts), h) {
        var i :| 0 <= i < |Offered(ts)| && Lower(Offered(ts)[i]) == h;
        assert Offered(ts)[i] in Offered(ts);
        ServableChars(Offered(ts)[i]);
      }
    }
  }

  // ---- ownership, stated once for everybody ----

  /** `r` lists `h` in its spec. */
  predicate Explicit(r: Reflector, h: string) { !r.allHostnames && Names(r.hostnames, h) }

  /** The reflectors that count, as `self` sees them: its own copy instead of the listed one. */
  function Live(self: Reflector, all: seq<Reflector>): seq<Reflector> {
    Keep(all, (r: Reflector) => !r.deleting && r.name != self.name) + [self]
  }

  /** No other live reflector with property `p` is older. */
  predicate OldestWith(live: seq<Reflector>, r: Reflector, p: Reflector -> bool) {
    p(r) && forall i :: 0 <= i < |live| && p(live[i]) ==> live[i].name == r.name || Older(r, live[i])
  }

  /** The rule: the oldest explicit claimant; failing any, the oldest `allHostnames` reflector for a tunnel's name. */
  predicate Owns(live: seq<Reflector>, offered: seq<string>, r: Reflector, h: string) {
    || OldestWith(live, r, (o: Reflector) => Explicit(o, h))
    || (h in offered && OldestWith(live, r, (o: Reflector) => o.allHostnames) && forall i :: 0 <= i < |live| ==>
         !Explicit(live[i], h))
  }

  function Wanted(r: Reflector, offered: seq<string>): seq<string> {
    if r.allHostnames then offered else SortedNames(r.hostnames)
  }

  function Claimed(self: Reflector, all: seq<Reflector>, ts: seq<Tunnel>): seq<string> {
    var offered, live := TunnelHostnames(ts), Live(self, all);
    Keep(Wanted(self, offered), (h: string) => Owns(live, offered, self, h))
  }

  function Conflicting(self: Reflector, all: seq<Reflector>, ts: seq<Tunnel>): seq<string> {
    var offered, live := TunnelHostnames(ts), Live(self, all);
    Keep(Wanted(self, offered), (h: string) => !Owns(live, offered, self, h))
  }

  // ---- resolveClaims ----

  /** The first reflector of the sorted list to name `h`. */
  function FirstExplicit(rs: seq<Reflector>, h: string): Option<string> {
    if rs == [] then None
    else
      var done := FirstExplicit(rs[..|rs| - 1], h);
      if done.Some? then done else if Explicit(rs[|rs| - 1], h) then Some(rs[|rs| - 1].name) else None
  }

  ghost predicate Records(owner: map<string, string>, rs: seq<Reflector>) {
    forall h :: (if h in owner then Some(owner[h]) else None) == FirstExplicit(rs, h)
  }

  /** One reflector's turn in the explicit-claim loop. */
  method TakeNames(
    owner0: map<string, string>, ghost before: seq<Reflector>, r: Reflector)
    returns (owner: map<string, string>)
    requires Records(owner0, before)
    ensures Records(owner, before + [r])
  {
    owner := owner0;
    var i := 0;
    while i < |r.hostnames| && !r.allHostnames
      invariant 0 <= i <= |r.hostnames|
      invariant r.allHostnames ==> owner == owner0
      invariant forall h :: h in owner0 ==> h in owner && owner[h] == owner0[h]
      invariant forall h :: h in owner && h !in owner0 ==>
          owner[h] == r.name && !r.allHostnames && Names(r.hostnames[..i], h)
      invariant !r.allHostnames ==> forall h :: Names(r.hostnames[..i], h) ==> h in owner
    {
      var h := Lower(r.hostnames[i]);
      var now := r.hostnames[..i + 1];
      assert now[..i] == r.hostnames[..i];
      forall x ensures Names(now, x) <==> Names(r.hostnames[..i], x) || x == h {
        NamesSnoc(r.hostnames, i, x);
      }
      if h !in owner {
        owner := owner[h := r.name];
      }
      i := i + 1;
    }
    assert (before + [r])[..|before|] == before;
    assert !r.allHostnames ==> r.hostnames[..i] == r.hostnames;
    forall h ensures (if h in owner then Some(owner[h]) else None) == FirstExplicit(before + [r], h) {
      assert (if h in owner0 then Some(owner0[h]) else None) == FirstExplicit(before, h);
    }
  }

  lemma NamesSnoc(xs: seq<string>, i: nat, x: string)
    requires i < |xs|
    ensures Names(xs[..i + 1], x) <==> Names(xs[..i], x) || x == Lower(xs[i])
  {
    var now := xs[..i + 1];
    if Names(now, x) {
      var k :| 0 <= k < |now| && Lower(now[k]) == x;
      assert k < i ==> xs[..i][k] == now[k];
    }
    if Names(xs[..i], x) {
      var k :| 0 <= k < i && Lower(xs[..i][k]) == x;
      assert now[k] == xs[..i][k];
    }
    assert now[i] == xs[i];
  }

  lemma {:induction false} FirstExplicitIndex(rs: seq<Reflector>, h: string) returns (k: nat)
    ensures k <= |rs| && forall i :: 0 <= i < k ==> !Explicit(rs[i], h)
    ensures k < |rs| ==> Explicit(rs[k], h) && FirstExplicit(rs, h) == Some(rs[k].name)
    ensures k == |rs| ==> FirstExplicit(rs, h) == None
  {
    k := 0;
    if rs != [] {
      var n := |rs| - 1;
      k := FirstExplicitIndex(rs[..n], h);
      if k == n && !Explicit(rs[n], h) { k := |rs|; }
    }
  }

  lemma SortedByAge(rs: seq<Reflector>)
    requires Sorted(rs, Older) && DistinctNames(rs)
    ensures StrictlySorted(rs, Older)
  {
    OlderTotalOn(rs);
    forall i, j | 0 <= i < j < |rs| ensures Older(rs[i], rs[j]) { assert rs[i] in rs && rs[j] in rs; }
  }

  /** In a list sorted by age the first with a property is the oldest with it. */
  lemma FirstIsOldest(rs: seq<Reflector>, k: nat, self: Reflector, p: Reflector -> bool)
    requires Sorted(rs, Older) && DistinctNames(rs) && self in rs && p(self)
    requires k < |rs| && p(rs[k]) && forall i :: 0 <= i < k ==> !p(rs[i])
    ensures rs[k].name == self.name <==> OldestWith(rs, self, p)
  {
    SortedByAge(rs);
    OlderIsStrictWeak();
    var s :| 0 <= s < |rs| && rs[s] == self;
    assert s == k || Older(rs[k], self);
  }

  lemma OldestWithSame(a: seq<Reflector>, b: seq<Reflector>, r: Reflector, p: Reflector -> bool)
    requires forall x :: x in a <==> x in b
    ensures OldestWith(a, r, p) <==> OldestWith(b, r, p)
  {
    assert forall i :: 0 <= i < |a| ==> a[i] in b;
    assert forall i :: 0 <= i < |b| ==> b[i] in a;
  }

  lemma LiveMembers(self: Reflector, all: seq<Reflector>)
    ensures forall r :: r in Live(self, all) <==> r == self || (r in all && !r.deleting && r.name != self.name)
  {
    KeepMembers(all, (r: Reflector) => !r.deleting && r.name != self.name);
  }

  lemma {:induction false} KeepDistinctNames(rs: seq<Reflector>, p: Reflector -> bool)
    requires DistinctNames(rs)
    ensures DistinctNames(Keep(rs, p))
  {
    if rs != [] {
      var k := |rs| - 1;
      KeepDistinctNames(rs[..k], p);
      KeepMembers(rs[..k], p);
      var done := Keep(rs[..k], p);
      forall i | 0 <= i < |done| ensures done[i].name != rs[k].name {
        assert done[i] in done && done[i] in rs[..k];
      }
    }
  }

  lemma LiveDistinct(self: Reflector, all: seq<Reflector>)
    requires DistinctNames(all)
    ensures DistinctNames(Live(self, all))
  {
    var p := (r: Reflector) => !r.deleting && r.name != self.name;
    KeepDistinctNames(all, p);
    KeepMembers(all, p);
    assert forall i :: 0 <= i < |Keep(all, p)| ==> Keep(all, p)[i] in Keep(all, p);
  }

  lemma SortedDistinctNames(rs: seq<Reflector>)
    requires DistinctNames(rs)
    ensures DistinctNames(Sort(rs, Older)) && Sorted(Sort(rs, Older), Older)
    ensures forall x :: x in Sort(rs, Older) <==> x in rs
  {
    OlderIsStrictWeak();
    SortSorted(rs, Older);
    SortMembers(rs, Older);
    SortMultiset(rs, Older);
    var s := Sort(rs, Older);
    DistinctFromMultiset(rs, s);
    forall i, j | 0 <= i < j < |s| ensures s[i].name != s[j].name {
      assert s[i] in rs && s[j] in rs && s[i] != s[j];
    }
  }

  /** What the two loops find, in terms of the ownership rule. */
  lemma OwnerFound(
    live: seq<Reflector>, rs: seq<Reflector>, offered: seq<string>, self: Reflector, firstAll: Option<string>,
    h: string)
    requires Sorted(rs, Older) && DistinctNames(rs) && self in rs && forall x :: x in rs <==> x in live
    requires self.allHostnames ==>
        (firstAll == Some(self.name) <==> OldestWith(rs, self, (o: Reflector) => o.allHostnames))
    requires h in Wanted(self, offered)
    ensures !self.allHostnames ==> (Owns(live, offered, self, h) <==> FirstExplicit(rs, h) == Some(self.name))
    ensures self.allHostnames ==>
        (Owns(live, offered, self, h) <==> FirstExplicit(rs, h) == None && firstAll == Some(self.name))
  {
    var explicit := (o: Reflector) => Explicit(o, h);
    var k := FirstExplicitIndex(rs, h);
    OldestWithSame(rs, live, self, explicit);
    if !self.allHostnames {
      SortedNamesMembers(self.hostnames);
      assert Explicit(self, h);
      FirstIsOldest(rs, k, self, explicit);
    } else {
      var alls := (o: Reflector) => o.allHostnames;
      OldestWithSame(rs, live, self, alls);
      if k < |rs| {
        assert rs[k] in live;
        var i :| 0 <= i < |live| && live[i] == rs[k];
        assert Explicit(live[i], h);
      } else {
        assert forall i :: 0 <= i < |live| ==> live[i] in rs;
      }
    }
  }

  method FindFirstAll(rs: seq<Reflector>, ghost self: Reflector) returns (first: Option<string>)
    requires Sorted(rs, Older) && DistinctNames(rs) && self in rs
    ensures self.allHostnames ==> (first == Some(self.name) <==> OldestWith(rs, self, (o: Reflector) => o.allHostnames))
  {
    var i := 0;
    while i < |rs|
      invariant 0 <= i <= |rs| && forall k :: 0 <= k < i ==> !rs[k].allHostnames
    {
      if rs[i].allHostnames {
        if self.allHostnames { FirstIsOldest(rs, i, self, (o: Reflector) => o.allHostnames); }
        return Some(rs[i].name);
      }
      i := i + 1;
    }
    return None;
  }

  method FindExplicitOwners(rs: seq<Reflector>) returns (owner: map<string, string>)
    ensures Records(owner, rs)
  {
    owner := map[];
    var i := 0;
    while i < |rs|
      invariant 0 <= i <= |rs| && Records(owner, rs[..i])
    {
      owner := TakeNames(owner, rs[..i], rs[i]);
      assert rs[..i] + [rs[i]] == rs[..i + 1];
      i := i + 1;
    }
    assert rs[..i] == rs;
  }

  method ListLive(self: Reflector, all: seq<Reflector>) returns (live: seq<Reflector>)
    ensures live == Live(self, all)
  {
    live := [];
    var i := 0;
    while i < |all|
      invariant 0 <= i <= |all| && live == Keep(all[..i], (r: Reflector) => !r.deleting && r.name != self.name)
    {
      assert all[..i + 1][..i] == all[..i];
      if !all[i].deleting && all[i].name != self.name {
        live := live + [all[i]];
      }
      i := i + 1;
    }
    assert all[..i] == all;
    live := live + [self];
  }

  /** The last loop: what `self` wants, sorted into what it owns and what it does not. */
  method SiftWanted(self: Reflector, ghost live: seq<Reflector>, ghost rs: seq<Reflector>, ghost offered: seq<string>,
                    wanted: seq<string>, owner: map<string, string>, firstAll: Option<string>)
    returns (claimed: seq<string>, conflicting: seq<string>)
    requires Sorted(rs, Older) && DistinctNames(rs) && self in rs && (forall x :: x in rs <==> x in live)
    requires self.allHostnames ==>
        (firstAll == Some(self.name) <==> OldestWith(rs, self, (o: Reflector) => o.allHostnames))
    requires wanted == Wanted(self, offered) && Records(owner, rs)
    ensures claimed == Keep(wanted, (h: string) => Owns(live, offered, self, h))
    ensures conflicting == Keep(wanted, (h: string) => !Owns(live, offered, self, h))
  {
    claimed, conflicting := [], [];
    ghost var owns, loses :=
      (h: string) => Owns(live, offered, self, h), (h: string) => !Owns(live, offered, self, h);
    var i := 0;
    while i < |wanted|
      invariant 0 <= i <= |wanted|
      invariant claimed == Keep(wanted[..i], owns) && conflicting == Keep(wanted[..i], loses)
    {
      var h := wanted[i];
      KeepNext(wanted, owns, i);
      KeepNext(wanted, loses, i);
      OwnerFound(live, rs, offered, self, firstAll, h);
      var mine := if self.allHostnames then h !in owner && firstAll == Some(self.name)
        else h in owner && owner[h] == self.name;
      if mine {
        claimed := claimed + [h];
      } else {
        conflicting := conflicting + [h];
      }
      i := i + 1;
    }
    assert wanted[..i] == wanted;
  }

  /** The hostnames `self` claims and the ones it loses, each sorted and once. */
  method ResolveClaims(
    self: Reflector, all: seq<Reflector>, ts: seq<Tunnel>)
    returns (claimed: seq<string>, conflicting: seq<string>)
    requires DistinctNames(all)
    ensures claimed == Claimed(self, all, ts) && conflicting == Conflicting(self, all, ts)
  {
    var live := ListLive(self, all);
    LiveMembers(self, all);
    LiveDistinct(self, all);
    SortedDistinctNames(live);
    var rs := Sort(live, Older);
    var owner := FindExplicitOwners(rs);
    var offered := ComputeTunnelHostnames(ts);
    var wanted, firstAll := offered, None;
    if !self.allHostnames {
      wanted := ComputeSortedNames(self.hostnames);
    } else {
      firstAll := FindFirstAll(rs, self);
    }
    claimed, conflicting := SiftWanted(self, live, rs, offered, wanted, owner, firstAll);
  }

  // ---- what the rule gives ----

  lemma ClaimedMembers(self: Reflector, all: seq<Reflector>, ts: seq<Tunnel>)
    ensures var offered, live := TunnelHostnames(ts), Live(self, all);
            && (forall h :: h in Claimed(self, all, ts) <==> h in Wanted(self, offered) && Owns(live, offered, self, h))
            && (forall h :: h in Conflicting(self, all, ts) <==>
                 h in Wanted(self, offered) && !Owns(live, offered, self, h))
  {
    var offered, live := TunnelHostnames(ts), Live(self, all);
    KeepMembers(Wanted(self, offered), (h: string) => Owns(live, offered, self, h));
    KeepMembers(Wanted(self, offered), (h: string) => !Owns(live, offered, self, h));
  }

  /** Claimed and conflicting partition what the reflector wants, both strictly sorted. */
  lemma ClaimsPartition(self: Reflector, all: seq<Reflector>, ts: seq<Tunnel>)
    ensures forall h :: h in Wanted(self, TunnelHostnames(ts)) <==>
        h in Claimed(self, all, ts) || h in Conflicting(self, all, ts)
    ensures forall h :: !(h in Claimed(self, all, ts) && h in Conflicting(self, all, ts))
    ensures StrictlySorted(Claimed(self, all, ts), Less) && StrictlySorted(Conflicting(self, all, ts), Less)
  {
    var offered, live := TunnelHostnames(ts), Live(self, all);
    ClaimedMembers(self, all, ts);
    TunnelHostnamesMembers(ts);
    SortedNamesMembers(self.hostnames);
    KeepStrict(Wanted(self, offered), (h: string) => Owns(live, offered, self, h), Less);
    KeepStrict(Wanted(self, offered), (h: string) => !Owns(live, offered, self, h), Less);
  }

  /** Every live reflector of the list sees the same live reflectors. */
  lemma SameLive(a: Reflector, b: Reflector, all: seq<Reflector>)
    requires DistinctNames(all) && a in all && b in all && !a.deleting && !b.deleting
    ensures forall r :: r in Live(a, all) <==> r in Live(b, all)
    ensures forall r :: r in Live(a, all) <==> r in all && !r.deleting
  {
    LiveMembers(a, all);
    LiveMembers(b, all);
  }

  lemma OwnsSame(x: seq<Reflector>, y: seq<Reflector>, offered: seq<string>, r: Reflector, h: string)
    requires forall o :: o in x <==> o in y
    ensures Owns(x, offered, r, h) <==> Owns(y, offered, r, h)
  {
    OldestWithSame(x, y, r, (o: Reflector) => Explicit(o, h));
    OldestWithSame(x, y, r, (o: Reflector) => o.allHostnames);
    assert forall i :: 0 <= i < |x| ==> x[i] in y;
    assert forall i :: 0 <= i < |y| ==> y[i] in x;
  }

  lemma OldestIsOne(live: seq<Reflector>, a: Reflector, b: Reflector, p: Reflector -> bool)
    requires a in live && b in live && OldestWith(live, a, p) && OldestWith(live, b, p)
    ensures a.name == b.name
  {
    OlderIsStrictWeak();
    assert a.name == b.name || Older(a, b);
    assert b.name == a.name || Older(b, a);
  }

  lemma OwnerIsOne(live: seq<Reflector>, offered: seq<string>, a: Reflector, b: Reflector, h: string)
    requires a in live && b in live && Owns(live, offered, a, h) && Owns(live, offered, b, h)
    ensures a.name == b.name
  {
    var explicit, alls := (o: Reflector) => Explicit(o, h), (o: Reflector) => o.allHostnames;
    if OldestWith(live, a, explicit) && OldestWith(live, b, explicit) {
      OldestIsOne(live, a, b, explicit);
    } else if OldestWith(live, a, alls) && OldestWith(live, b, alls) {
      OldestIsOne(live, a, b, alls);
    }
  }

  /** Disjointness: two reflectors computing from the same list never claim the same hostname. */
  lemma ClaimsAreDisjoint(a: Reflector, b: Reflector, all: seq<Reflector>, ts: seq<Tunnel>, h: string)
    requires DistinctNames(all) && a in all && b in all && !a.deleting && !b.deleting
    requires h in Claimed(a, all, ts) && h in Claimed(b, all, ts)
    ensures a == b
  {
    ClaimedMembers(a, all, ts);
    ClaimedMembers(b, all, ts);
    SameLive(a, b, all);
    OwnsSame(Live(a, all), Live(b, all), TunnelHostnames(ts), b, h);
    OwnerIsOne(Live(a, all), TunnelHostnames(ts), a, b, h);
  }

  lemma OldestExists(live: seq<Reflector>, p: Reflector -> bool) returns (r: Reflector)
    requires DistinctNames(live) && exists i :: 0 <= i < |live| && p(live[i])
    ensures r in live && OldestWith(live, r, p)
  {
    OlderIsStrictWeak();
    var k: nat :| k < |live| && p(live[k]);
    var m := LeastExists(live, p, Older, k);
    r := live[m];
    OlderTotalOn(live);
    forall i | 0 <= i < |live| && p(live[i]) ensures live[i].name == r.name || Older(r, live[i]) {
      assert live[i] in live && r in live;
    }
  }

  /** Coverage: a hostname anybody wants is claimed by some reflector. */
  lemma SomebodyClaims(w: Reflector, all: seq<Reflector>, ts: seq<Tunnel>, h: string) returns (r: Reflector)
    requires DistinctNames(all) && w in all && !w.deleting && h in Wanted(w, TunnelHostnames(ts))
    ensures r in all && !r.deleting && h in Claimed(r, all, ts)
    ensures !w.allHostnames ==>
              && !r.allHostnames && Names(r.hostnames, h)
              && (r == w || (r.created.Some? && (w.created.None? || r.created.value < w.created.value))
                  || (r.created == w.created && Less(r.name, w.name)))
    ensures (forall o :: o in all && !o.deleting && !o.allHostnames ==> !Names(o.hostnames, h)) ==>
              && r.allHostnames
              && (r == w || (r.created.Some? && (w.created.None? || r.created.value < w.created.value))
                  || (r.created == w.created && Less(r.name, w.name)))
  {
    var live, offered := Live(w, all), TunnelHostnames(ts);
    LiveMembers(w, all);
    LiveDistinct(w, all);
    var self :| 0 <= self < |live| && live[self] == w;
    SortedNamesMembers(w.hostnames);
    var explicit, alls := (o: Reflector) => Explicit(o, h), (o: Reflector) => o.allHostnames;
    if exists i :: 0 <= i < |live| && explicit(live[i]) {
      r := OldestExists(live, explicit);
      SortedNamesMembers(r.hostnames);
    } else {
      assert w.allHostnames;
      r := OldestExists(live, alls);
    }
    SameLive(w, r, all);
    OwnsSame(live, Live(r, all), offered, r, h);
    ClaimedMembers(r, all, ts);
  }

  /** An explicit entry beats `allHostnames`. */
  lemma ExplicitBeatsAll(a: Reflector, e: Reflector, all: seq<Reflector>, ts: seq<Tunnel>, h: string)
    requires DistinctNames(all) && a in all && e in all && !a.deleting && !e.deleting
    requires a.allHostnames && Explicit(e, h)
    ensures h !in Claimed(a, all, ts)
  {
    ClaimedMembers(a, all, ts);
    LiveMembers(a, all);
    assert e in Live(a, all);
  }

  /** Claims depend only on which reflectors are live and which tunnels there are. */
  lemma ClaimsSeeMembers(self: Reflector, all: seq<Reflector>, all': seq<Reflector>, ts: seq<Tunnel>, ts': seq<Tunnel>)
    requires forall r: Reflector :: !r.deleting ==> (r in all <==> r in all')
    requires forall t :: t in ts <==> t in ts'
    ensures Claimed(self, all, ts) == Claimed(self, all', ts')
        && Conflicting(self, all, ts) == Conflicting(self, all', ts')
  {
    TunnelHostnamesMembers(ts);
    TunnelHostnamesMembers(ts');
    StrictStringsUnique(TunnelHostnames(ts), TunnelHostnames(ts'));
    LiveMembers(self, all);
    LiveMembers(self, all');
    ClaimedMembers(self, all, ts);
    ClaimedMembers(self, all', ts');
    forall h
      ensures Owns(Live(self, all), TunnelHostnames(ts), self, h) <==>
          Owns(Live(self, all'), TunnelHostnames(ts), self, h)
    {
      OwnsSame(Live(self, all), Live(self, all'), TunnelHostnames(ts), self, h);
    }
    ClaimsPartition(self, all, ts);
    ClaimsPartition(self, all', ts');
    StrictStringsUnique(Claimed(self, all, ts), Claimed(self, all', ts'));
    StrictStringsUnique(Conflicting(self, all, ts), Conflicting(self, all', ts'));
  }

  /** The order in which reflectors and tunnels are listed never matters. */
  lemma ClaimsIgnoreOrder(self: Reflector, all: seq<Reflector>, all': seq<Reflector>, ts: seq<Tunnel>, ts': seq<Tunnel>)
    requires multiset(all) == multiset(all') && multiset(ts) == multiset(ts')
    ensures Claimed(self, all, ts) == Claimed(self, all', ts')
        && Conflicting(self, all, ts) == Conflicting(self, all', ts')
  {
    MultisetMembers(all, all');
    MultisetMembers(ts, ts');
    ClaimsSeeMembers(self, all, all', ts, ts');
  }

  // ---- who wins, by creation time and name ----

  /** What ownership comes to for a live reflector of the list. */
  lemma ClaimsByRule(self: Reflector, all: seq<Reflector>, ts: seq<Tunnel>, h: string)
    requires DistinctNames(all) && self in all && !self.deleting
    ensures h in Claimed(self, all, ts) <==>
            if self.allHostnames then
              && h in TunnelHostnames(ts)
              && (forall o :: o in all && !o.deleting ==> !Explicit(o, h))
              && (forall o :: o in all && !o.deleting && o.allHostnames && o != self ==> Older(self, o))
            else
              Names(self.hostnames, h) && forall o :: o in all && !o.deleting && Explicit(o, h) && o != self ==>
                Older(self, o)
  {
    var live := Live(self, all);
    ClaimedMembers(self, all, ts);
    SameLive(self, self, all);
    SortedNamesMembers(self.hostnames);
    assert forall i :: 0 <= i < |live| ==> live[i] in all && !live[i].deleting;
    forall o | o in all && !o.deleting && o.name == self.name ensures o == self {
      var i :| 0 <= i < |all| && all[i] == o;
      var j :| 0 <= j < |all| && all[j] == self;
      assert i == j;
    }
    forall o | o in all && !o.deleting ensures exists i :: 0 <= i < |live| && live[i] == o { assert o in live; }
  }

  /**
   * Claims, in full and in the terms of the spec. A reflector with a list claims a hostname when it
   * lists it and every other live reflector that lists it was created later (a set time is before a
   * zero one), or at the same time under a greater name. An `allHostnames` reflector claims it when
   * some http(s) tunnel has it, CoreDNS can serve it, no live reflector lists it, and every other
   * live `allHostnames` reflector comes later in the same sense.
   */
  lemma ClaimedExactly(self: Reflector, all: seq<Reflector>, ts: seq<Tunnel>, h: string)
    requires DistinctNames(all) && self in all && !self.deleting
    ensures !self.allHostnames ==>
              (h in Claimed(self, all, ts) <==>
                 && Names(self.hostnames, h)
                 && forall o :: o in all && !o.deleting && !o.allHostnames && Names(o.hostnames, h) && o != self ==>
                      || (self.created.Some? && (o.created.None? || self.created.value < o.created.value))
                      || (self.created == o.created && Less(self.name, o.name)))
    ensures self.allHostnames ==>
              (h in Claimed(self, all, ts) <==>
                 && (exists t :: t in ts && t.dst.Some? && (t.dst.value.scheme.Http? || t.dst.value.scheme.Https?)
                                 && Servable(Lower(t.dst.value.hostname)) && Lower(t.dst.value.hostname) == h)
                 && (forall o :: o in all && !o.deleting && !o.allHostnames ==> !Names(o.hostnames, h))
                 && forall o :: o in all && !o.deleting && o.allHostnames && o != self ==>
                      || (self.created.Some? && (o.created.None? || self.created.value < o.created.value))
                      || (self.created == o.created && Less(self.name, o.name)))
  {
    ClaimsByRule(self, all, ts, h);
    TunnelHostnamesMembers(ts);
  }

  /** Of two live claimants of the same kind the later one does not get the hostname. */
  lemma LaterLoses(a: Reflector, b: Reflector, all: seq<Reflector>, ts: seq<Tunnel>, h: string)
    requires DistinctNames(all) && a in all && b in all && !a.deleting && !b.deleting && a != b
    requires a.allHostnames == b.allHostnames && (!a.allHostnames ==> Names(a.hostnames, h) && Names(b.hostnames, h))
    requires || (a.created.Some? && b.created.Some? && a.created.value < b.created.value)
             || (a.created.Some? && b.created.None?)
             || (a.created == b.created && Less(a.name, b.name))
    ensures h !in Claimed(b, all, ts)
  {
    ClaimedExactly(b, all, ts, h);
    LessIsStrictWeak();
  }
}
