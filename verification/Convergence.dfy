/** A DNSRecord converges: against a working server one pass makes DNS right, and later passes change nothing. */
module Convergence {
  import opened Order
  import opened Text
  import opened Api
  import opened Remote
  import opened DnsRecord

  ghost predicate UniqueIDs(bs: seq<Bastion>) {
    forall i, j :: 0 <= i < |bs| && 0 <= j < |bs| && bs[i].id == bs[j].id ==> i == j
  }

  // ---- what selectBastions picks ----

  lemma {:induction false} EligibleAre(bs: seq<Bastion>)
    ensures forall b :: b in Eligible(bs) <==> b in bs && !b.suspended && b.ip != ""
  {
    if bs != [] {
      EligibleAre(bs[..|bs| - 1]);
      assert bs == bs[..|bs| - 1] + [bs[|bs| - 1]];
    }
  }

  lemma {:induction false} ChosenAre(byID: map<string, Bastion>, targets: seq<string>)
    ensures forall b :: b in Chosen(byID, targets) ==> b.ip != "" && exists t :: t in byID && byID[t] == b
    ensures |Chosen(byID, targets)| + |Missing(byID, targets)| == |targets|
  {
    if targets != [] { ChosenAre(byID, targets[..|targets| - 1]); }
  }

  /** Whatever is selected has an address and is one of the published bastions. */
  lemma TargetsAre(bs: seq<Bastion>, targets: seq<string>)
    ensures forall b :: b in Targets(bs, targets) ==> b in bs && b.ip != ""
    ensures Select(bs, targets).missing == [] && Targets(bs, targets) == [] ==>
              targets == [] && forall b :: b in bs ==> b.suspended || b.ip == ""
  {
    EligibleAre(bs);
    ByIDKeepsID(bs);
    ChosenAre(ByID(bs), targets);
    SortStringsProperties(Missing(ByID(bs), targets));
    if targets == [] && Eligible(bs) == [] {
      forall b | b in bs ensures b.suspended || b.ip == "" { assert b !in Eligible(bs); }
    }
  }

  // ---- what DNS then holds ----

  lemma {:induction false} AddressesOfUnknown(bs: seq<Bastion>, id: string)
    requires forall b :: b in bs && b.id == id ==> b.ip == ""
    ensures AddressesOf(bs, id) == []
  {
    if bs != [] { AddressesOfUnknown(bs[..|bs| - 1], id); }
  }

  lemma {:induction false} AddressesOfKnown(bs: seq<Bastion>, b: Bastion)
    requires UniqueIDs(bs) && b in bs && b.ip != ""
    ensures AddressesOf(bs, b.id) == [b.ip]
  {
    var i :| 0 <= i < |bs| && bs[i] == b;
    var k := |bs| - 1;
    if i == k {
      AddressesOfUnknown(bs[..k], b.id);
    } else {
      assert bs[..k][i] == b;
      AddressesOfKnown(bs[..k], b);
      assert bs[k].id != b.id;
    }
  }

  lemma {:induction false} AddressesOfChosen(bs: seq<Bastion>, chosen: seq<Bastion>)
    requires UniqueIDs(bs) && forall b :: b in chosen ==> b in bs && b.ip != ""
    ensures Addresses(bs, IDs(chosen)) == IPs(chosen)
  {
    if chosen != [] {
      assert IDs(chosen)[1..] == IDs(chosen[1..]);
      AddressesOfChosen(bs, chosen[1..]);
      AddressesOfKnown(bs, chosen[0]);
      assert IPs(chosen) == [chosen[0].ip] + IPs(chosen[1..]);
    }
  }

  lemma {:induction false} AddressesInsert(bs: seq<Bastion>, id: string, ids: seq<string>)
    ensures multiset(Addresses(bs, Insert(id, ids, Less))) ==
        multiset(AddressesOf(bs, id)) + multiset(Addresses(bs, ids))
  {
    if ids != [] && Less(ids[0], id) {
      AddressesInsert(bs, id, ids[1..]);
      assert Insert(id, ids, Less)[1..] == Insert(id, ids[1..], Less);
    } else {
      assert Insert(id, ids, Less)[1..] == ids;
    }
  }

  lemma {:induction false} AddressesSorted(bs: seq<Bastion>, ids: seq<string>)
    ensures multiset(Addresses(bs, SortStrings(ids))) == multiset(Addresses(bs, ids))
  {
    if ids != [] {
      AddressesSorted(bs, ids[1..]);
      AddressesInsert(bs, ids[0], SortStrings(ids[1..]));
    }
  }

  lemma {:induction false} ActiveIDsAre(bs: seq<Bastion>)
    ensures forall id :: id in ActiveIDs(bs) <==> exists b :: b in bs && b.id == id && !b.suspended
  {
    if bs != [] {
      ActiveIDsAre(bs[1..]);
      forall b | b in bs && !b.suspended ensures b.id in ActiveIDs(bs) {
        assert b == bs[0] || b in bs[1..];
      }
      forall id | id in ActiveIDs(bs) ensures exists b :: b in bs && b.id == id && !b.suspended {
        if id == bs[0].id && !bs[0].suspended {
          assert bs[0] in bs;
        } else {
          assert id in ActiveIDs(bs[1..]);
          var b :| b in bs[1..] && b.id == id && !b.suspended;
          assert b in bs;
        }
      }
    }
  }

  lemma {:induction false} NoAddresses(bs: seq<Bastion>, ids: seq<string>)
    requires forall id, b :: id in ids && b in bs && b.id == id ==> b.ip == ""
    ensures Addresses(bs, ids) == []
  {
    if ids != [] {
      assert ids[0] in ids;
      AddressesOfUnknown(bs, ids[0]);
      assert forall id :: id in ids[1..] ==> id in ids;
      NoAddresses(bs, ids[1..]);
    }
  }

  /**
   * Binding a domain to the selected ids makes DNS hold exactly the expected addresses, also
   * when nothing is selected and the server fans out to its own default.
   */
  lemma BindingMatches(bs: seq<Bastion>, published: seq<Bastion>, targets: seq<string>)
    requires UniqueIDs(bs) && multiset(published) == multiset(bs)
    requires Select(published, targets).missing == []
    ensures var sel := Select(published, targets);
            SortStrings(Addresses(bs, ResolveIDs(bs, sel.ids))) == sel.ips
  {
    var sel, chosen := Select(published, targets), Targets(published, targets);
    TargetsAre(published, targets);
    MultisetMembers(published, bs);
    SortStringsProperties(IDs(chosen));
    if chosen == [] {
      assert IDs(chosen) == [] && IPs(chosen) == [];
      ActiveIDsAre(bs);
      forall id, b | id in ActiveIDs(bs) && b in bs && b.id == id ensures b.ip == "" {
        var a :| a in bs && a.id == id && !a.suspended;
        assert a == b;
      }
      NoAddresses(bs, ActiveIDs(bs));
      assert SortStrings([]) == [];
    } else {
      assert |IDs(chosen)| > 0;
      AddressesSorted(bs, IDs(chosen));
      AddressesOfChosen(bs, chosen);
      SortStringsPermutation(Addresses(bs, sel.ids), IPs(chosen));
    }
  }

  // ---- passes without faults ----

  /** A server on which the record's domain is free or ours, and a published list equal to the server's. */
  ghost predicate CanConverge(s: Server, account: string, published: seq<Bastion>, r: Record) {
    && UniqueIDs(BastionsOf(s, account)) && multiset(published) == multiset(BastionsOf(s, account))
    && Select(published, r.targets).missing == []
    && (r.domain in s.domains ==> s.domains[r.domain].owner == account)
  }

  function Bound(s: Server, account: string, published: seq<Bastion>, r: Record): seq<string> {
    ResolveIDs(BastionsOf(s, account), Select(published, r.targets).ids)
  }

  /** The domain is ours, written by the operator and bound as the record asks. */
  ghost predicate Bind(s: Server, account: string, published: seq<Bastion>, r: Record) {
    && CanConverge(s, account, published, r) && r.domain in s.domains
    && s.domains[r.domain].byOperator && s.domains[r.domain].bastionIDs == Bound(s, account, published, r)
  }

  predicate IsTrue(st: RecordStatus, t: ConditionType) { t in st.conditions && st.conditions[t].ok }

  function Beat(st: RecordStatus): RecordStatus { st.(lastSync := None) }

  /**
   * One working pass converges: the domain is bound as asked, the lookup equals the expected
   * addresses, and Registered, Resolved and Ready are all True.
   */
  lemma OnePassConverges(s: Server, account: string, published: seq<Bastion>, r: Record, now: int)
    requires CanConverge(s, account, published, r)
    ensures var (s', st) := WorkingPass(s, account, published, r, now, NO_FAULTS);
            && Bind(s', account, published, r)
            && DerivedIPs(s', r.domain) == st.expectedIPs == st.resolvedIPs == Select(published, r.targets).ips
            && IsTrue(st, Registered) && IsTrue(st, Resolved) && IsTrue(st, Ready)
  {
    var sel := Select(published, r.targets);
    RegisterBinds(s, account, published, r);
    var reg := Register(s, account, r.domain, sel.ids, NO_FAULTS);
    SortedTwice(IPs(Targets(published, r.targets)));
    ConcludeTrue(Applied(r.status.(expectedIPs := sel.ips), reg), reg, sel.ips, now);
  }

  lemma RegisterBinds(s: Server, account: string, published: seq<Bastion>, r: Record)
    requires CanConverge(s, account, published, r)
    ensures var sel := Select(published, r.targets);
            var reg := Register(s, account, r.domain, sel.ids, NO_FAULTS);
            reg.Wrote? && Bind(reg.server, account, published, r) && DerivedIPs(reg.server, r.domain) == sel.ips
  {
    BindingMatches(BastionsOf(s, account), published, r.targets);
  }

  lemma ConcludeTrue(st: RecordStatus, reg: Registration, ips: seq<string>, now: int)
    requires reg.Wrote? && st.expectedIPs == ips
    ensures var c := Conclude(st, reg, ips, true, now);
            c.expectedIPs == c.resolvedIPs == ips && IsTrue(c, Registered) && IsTrue(c, Resolved) && IsTrue(c, Ready)
  {
  }

  lemma SortedTwice(xs: seq<string>)
    ensures SortStrings(SortStrings(xs)) == SortStrings(xs)
  {
    SortStringsProperties(xs);
    SortStringsPermutation(SortStrings(xs), xs);
  }

  /** A status that the next pass would compute again, whatever the time. */
  ghost predicate Steady(s: Server, account: string, published: seq<Bastion>, r: Record, st: RecordStatus) {
    && Bind(s, account, published, r)
    && var v, sel := ViewOf(s, r.domain), Select(published, r.targets);
    && st.domainID == Some(v.id) && st.appliedBastionIDs == v.bastionIDs && st.appliedIPs == v.ips
    && st.expectedIPs == st.resolvedIPs == sel.ips
    && IsTrue(st, Registered) && IsTrue(st, Resolved) && IsTrue(st, Ready)
    && st.conditions[Registered].reason == RegisteredOk
       && st.conditions[Registered].message == KnownDomain(v.id, |v.bastionIDs|)
    && var (_, reason, msg) := ResolvedCondition(sel.ips, sel.ips, true);
    && st.conditions[Resolved].reason == reason && st.conditions[Resolved].message == msg
    && st.conditions[Ready].reason == ReadyOk && st.conditions[Ready].message == Text(ReadyOk, [], [])
  }

  lemma BoundServerIsFixed(s: Server, account: string, published: seq<Bastion>, r: Record)
    requires Bind(s, account, published, r)
    ensures Patch(s, account, r.domain, Some(Select(published, r.targets).ids)) == s
  {
    var d := s.domains[r.domain];
    assert s.domains[r.domain := d] == s.domains;
  }

  /** What a pass over a bound domain computes. */
  lemma BoundWork(s: Server, account: string, published: seq<Bastion>, r: Record, now: int)
    requires Bind(s, account, published, r)
    ensures var sel, reg := Select(published, r.targets), Wrote(s, ViewOf(s, r.domain), false);
            && DerivedIPs(s, r.domain) == sel.ips
            && WorkingPass(s, account, published, r, now, NO_FAULTS)
               == (s,
                 Commit(r.status, Conclude(Applied(r.status.(expectedIPs := sel.ips), reg), reg, sel.ips, true, now),
                             now))
  {
    BoundServerIsFixed(s, account, published, r);
    BindingMatches(BastionsOf(s, account), published, r.targets);
    SortedTwice(IPs(Targets(published, r.targets)));
    var sel := Select(published, r.targets);
    assert Register(s, account, r.domain, sel.ids, NO_FAULTS) == Wrote(s, ViewOf(s, r.domain), false);
  }

  /** From a bound domain, one pass leaves the server alone and reaches the steady status. */
  lemma SecondPassIsSteady(s: Server, account: string, published: seq<Bastion>, r: Record, now: int)
    requires Bind(s, account, published, r)
    ensures var (s', st) := WorkingPass(s, account, published, r, now, NO_FAULTS);
            s' == s && Steady(s, account, published, r, st)
  {
    BoundWork(s, account, published, r, now);
  }

  /** In the steady state a pass changes nothing, except the heartbeat once that is 300 seconds old. */
  lemma SteadyPass(s: Server, account: string, published: seq<Bastion>, r: Record, now: int)
    requires Steady(s, account, published, r, r.status)
    ensures var (s', st) := WorkingPass(s, account, published, r, now, NO_FAULTS);
            var recent := r.status.lastSync.Some? && now - r.status.lastSync.value < 300;
            s' == s && st == if recent then r.status else r.status.(lastSync := Some(now))
  {
    BoundWork(s, account, published, r, now);
    var sel, reg := Select(published, r.targets), Wrote(s, ViewOf(s, r.domain), false);
    assert Applied(r.status.(expectedIPs := sel.ips), reg) == r.status;
    ConcludeSteady(r.status, reg, sel.ips, now);
  }

  lemma ConcludeSteady(st: RecordStatus, reg: Registration, ips: seq<string>, now: int)
    requires reg.Wrote? && !reg.created && st.expectedIPs == st.resolvedIPs == ips
    requires IsTrue(st, Registered) && IsTrue(st, Resolved) && IsTrue(st, Ready)
    requires st.conditions[Registered].reason == RegisteredOk
    requires st.conditions[Registered].message == KnownDomain(reg.view.id, |reg.view.bastionIDs|)
    requires var (_, reason, msg) := ResolvedCondition(ips, ips, true);
             st.conditions[Resolved].reason == reason && st.conditions[Resolved].message == msg
    requires st.conditions[Ready].reason == ReadyOk && st.conditions[Ready].message == Text(ReadyOk, [], [])
    ensures Conclude(st, reg, ips, true, now) == st
  {
    var c := Conclude(st, reg, ips, true, now);
    assert c.conditions == st.conditions;
  }

  /** Passes at the given times, one after the other. */
  function Passes(
    s: Server, account: string, published: seq<Bastion>, r: Record, times: seq<int>): (Server, RecordStatus)
  {
    if times == [] then (s, r.status)
    else
      var (s', st) := Passes(s, account, published, r, times[..|times| - 1]);
      WorkingPass(s', account, published, r.(status := st), times[|times| - 1], NO_FAULTS)
  }

  lemma SteadyRecord(s: Server, account: string, published: seq<Bastion>, r: Record, st: RecordStatus, now: int)
    requires Steady(s, account, published, r, st)
    ensures var (s', st') := WorkingPass(s, account, published, r.(status := st), now, NO_FAULTS);
            s' == s && Beat(st') == Beat(st) && Steady(s, account, published, r, st')
  {
    var r' := r.(status := st);
    assert Select(published, r'.targets) == Select(published, r.targets);
    assert Steady(s, account, published, r', st);
    SteadyPass(s, account, published, r', now);
  }

  lemma FirstPass(s: Server, account: string, published: seq<Bastion>, r: Record, t: int)
    ensures Passes(s, account, published, r, [t]) == WorkingPass(s, account, published, r, t, NO_FAULTS)
  {
    assert [t][..0] == [];
    assert r.(status := r.status) == r;
  }

  lemma SecondPass(s: Server, account: string, published: seq<Bastion>, r: Record, t: int, t': int)
    ensures Passes(s, account, published, r, [t, t']) ==
            var (s1, st1) := WorkingPass(s, account, published, r, t, NO_FAULTS);
            WorkingPass(s1, account, published, r.(status := st1), t', NO_FAULTS)
  {
    assert [t, t'][..1] == [t];
    FirstPass(s, account, published, r, t);
  }

  lemma TwoPassesAreSteady(s: Server, account: string, published: seq<Bastion>, r: Record, t: int, t': int)
    requires CanConverge(s, account, published, r)
    ensures var (s1, _) := Passes(s, account, published, r, [t]);
            var (s2, st2) := Passes(s, account, published, r, [t, t']);
            s2 == s1 && Steady(s2, account, published, r, st2)
  {
    FirstPass(s, account, published, r, t);
    SecondPass(s, account, published, r, t, t');
    OnePassConverges(s, account, published, r, t);
    var (s1, st1) := WorkingPass(s, account, published, r, t, NO_FAULTS);
    BindIgnoresStatus(s1, account, published, r, st1);
    SecondPassIsSteady(s1, account, published, r.(status := st1), t');
    var (s2, st2) := WorkingPass(s1, account, published, r.(status := st1), t', NO_FAULTS);
    BindIgnoresStatus(s2, account, published, r.(status := st1), r.status);
    assert r.(status := st1).(status := r.status) == r;
  }

  lemma BindIgnoresStatus(s: Server, account: string, published: seq<Bastion>, r: Record, st: RecordStatus)
    requires Bind(s, account, published, r)
    ensures Bind(s, account, published, r.(status := st))
    ensures forall x :: Steady(s, account, published, r, x) ==> Steady(s, account, published, r.(status := st), x)
  {
  }

  lemma SteadyMeansResolved(s: Server, account: string, published: seq<Bastion>, r: Record, st: RecordStatus)
    requires Steady(s, account, published, r, st)
    ensures DerivedIPs(s, r.domain) == Select(published, r.targets).ips && IsTrue(st, Ready)
  {
    BindingMatches(BastionsOf(s, account), published, r.targets);
  }

  lemma OneMorePass(s: Server, account: string, published: seq<Bastion>, r: Record, times: seq<int>)
    requires times != []
    requires var (s', st) := Passes(s, account, published, r, times[..|times| - 1]);
             Steady(s', account, published, r, st)
    ensures var (s0, st0) := Passes(s, account, published, r, times[..|times| - 1]);
            var (s', st) := Passes(s, account, published, r, times);
            s' == s0 && Beat(st) == Beat(st0) && Steady(s', account, published, r, st)
  {
    var (s', st) := Passes(s, account, published, r, times[..|times| - 1]);
    SteadyRecord(s', account, published, r, st, times[|times| - 1]);
  }

  /** The server is as the first of `times` left it, the status as the second did, DNS as expected. */
  ghost predicate Converged(
    s: Server, account: string, published: seq<Bastion>, r: Record, first: Server, second: RecordStatus,
    end: (Server, RecordStatus))
  {
    && end.0 == first && Beat(end.1) == Beat(second)
    && DerivedIPs(end.0, r.domain) == Select(published, r.targets).ips && IsTrue(end.1, Ready)
    && Steady(end.0, account, published, r, end.1)
  }

  lemma StaysConverged(
    s: Server, account: string, published: seq<Bastion>, r: Record, first: Server, second: RecordStatus,
    times: seq<int>)
    requires times != []
        && Converged(s, account, published, r, first, second, Passes(s, account, published, r, times[..|times| - 1]))
    ensures Converged(s, account, published, r, first, second, Passes(s, account, published, r, times))
  {
    OneMorePass(s, account, published, r, times);
    var (s', st) := Passes(s, account, published, r, times);
    SteadyMeansResolved(s', account, published, r, st);
  }

  lemma ConvergedAtTwo(s: Server, account: string, published: seq<Bastion>, r: Record, t: int, t': int)
    requires CanConverge(s, account, published, r)
    ensures var first, second := Passes(s, account, published, r, [t]), Passes(s, account, published, r, [t, t']);
            Converged(s, account, published, r, first.0, second.1, second)
  {
    TwoPassesAreSteady(s, account, published, r, t, t');
    var (s', st) := Passes(s, account, published, r, [t, t']);
    SteadyMeansResolved(s', account, published, r, st);
  }

  /**
   * Convergence. Against a server without faults, whatever the first status and the times:
   * after every pass DNS holds the expected addresses and Ready is True; the server does not
   * change after the first pass; and the status, heartbeat aside, does not change after the second.
   */
  lemma {:induction false} RecordConverges(
    s: Server, account: string, published: seq<Bastion>, r: Record, times: seq<int>)
    requires CanConverge(s, account, published, r) && |times| >= 2
    ensures Converged(s, account, published, r, Passes(s, account, published, r, times[..1]).0,
                      Passes(s, account, published, r, times[..2]).1, Passes(s, account, published, r, times))
  {
    var n := |times| - 1;
    if n == 1 {
      assert times[..1] == [times[0]] && times[..2] == times == [times[0], times[1]];
      ConvergedAtTwo(s, account, published, r, times[0], times[1]);
    } else {
      var prev := times[..n];
      RecordConverges(s, account, published, r, prev);
      assert prev[..1] == times[..1] && prev[..2] == times[..2];
      var first, second :=
        Passes(s, account, published, r, times[..1]).0, Passes(s, account, published, r, times[..2]).1;
      StaysConverged(s, account, published, r, first, second, times);
    }
  }
}
