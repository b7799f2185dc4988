/** What a DNSRecord pass leaves in each of its cases, and that a sync followed by record passes converges. */
module RecordOutcomes {
  import opened Order
  import opened Text
  import opened Api
  import opened Remote
  import opened DnsRecord
  import opened Cluster
  import opened Convergence
  import Mirroring

  // ---- which bastions a record selects ----

  /** `k` is the last place of a bastion with this id. */
  ghost predicate LastWith(bs: seq<Bastion>, id: string, k: int) {
    0 <= k < |bs| && bs[k].id == id && forall j :: k < j < |bs| ==> bs[j].id != id
  }

  /** A bastion with this id is published and, where the id is listed twice, the last one has an address. */
  ghost predicate Addressed(bs: seq<Bastion>, id: string) { exists k :: LastWith(bs, id, k) && bs[k].ip != "" }

  lemma {:induction false} ByIDIsLast(bs: seq<Bastion>, id: string)
    ensures id in ByID(bs) <==> exists k :: LastWith(bs, id, k)
    ensures forall k :: LastWith(bs, id, k) ==> ByID(bs)[id] == bs[k]
  {
    if bs != [] {
      var n := |bs| - 1;
      var init := bs[..n];
      ByIDIsLast(init, id);
      if bs[n].id == id {
        assert LastWith(bs, id, n);
      } else {
        forall k ensures LastWith(bs, id, k) <==> LastWith(init, id, k) {
          assert forall j :: 0 <= j < n ==> init[j] == bs[j];
        }
      }
    }
  }

  lemma AddressedExactly(bs: seq<Bastion>, id: string)
    ensures Addressed(bs, id) <==> id in ByID(bs) && ByID(bs)[id].ip != ""
  {
    ByIDIsLast(bs, id);
  }

  lemma {:induction false} MissingCount(byID: map<string, Bastion>, targets: seq<string>, id: string)
    ensures multiset(Missing(byID, targets))[id] ==
            if id in byID && byID[id].ip != "" then 0 else multiset(targets)[id]
  {
    if targets != [] {
      var k := |targets| - 1;
      MissingCount(byID, targets[..k], id);
      assert targets == targets[..k] + [targets[k]];
    }
  }

  lemma {:induction false} ChosenInOrder(byID: map<string, Bastion>, targets: seq<string>)
    requires forall id :: id in targets ==> id in byID && byID[id].ip != ""
    ensures var c := Chosen(byID, targets);
            |c| == |targets| && forall i :: 0 <= i < |c| ==> c[i] == byID[targets[i]]
  {
    if targets != [] {
      var k := |targets| - 1;
      assert forall id :: id in targets[..k] ==> id in targets;
      assert targets[k] in targets;
      ChosenInOrder(byID, targets[..k]);
    }
  }

  lemma {:induction false} EligibleCount(bs: seq<Bastion>, b: Bastion)
    ensures multiset(Eligible(bs))[b] == if b.suspended || b.ip == "" then 0 else multiset(bs)[b]
  {
    if bs != [] {
      var k := |bs| - 1;
      EligibleCount(bs[..k], b);
      assert bs == bs[..k] + [bs[k]];
    }
  }

  /** Every target has the address of its bastion, in the order of the targets. */
  ghost predicate Serve(bs: seq<Bastion>, targets: seq<string>, c: seq<Bastion>) {
    |c| == |targets| && forall i :: 0 <= i < |c| ==>
      c[i].ip != "" && exists k :: LastWith(bs, targets[i], k) && bs[k] == c[i]
  }

  /** These are the usable bastions, each as often as it is listed. */
  ghost predicate AreUsable(bs: seq<Bastion>, c: seq<Bastion>) {
    forall b: Bastion :: multiset(c)[b] == if b.suspended || b.ip == "" then 0 else multiset(bs)[b]
  }

  /** A record's addresses and ids are those of these bastions, sorted. */
  ghost predicate Gives(c: seq<Bastion>, ips: seq<string>, ids: seq<string>) {
    && Sorted(ips, Less) && multiset(ips) == multiset(seq(|c|, i requires 0 <= i < |c| => c[i].ip))
    && Sorted(ids, Less) && multiset(ids) == multiset(seq(|c|, i requires 0 <= i < |c| => c[i].id))
  }

  /** The targets without an address, each as often as it is named, sorted. */
  ghost predicate AreUnknown(bs: seq<Bastion>, targets: seq<string>, missing: seq<string>) {
    && Sorted(missing, Less)
    && forall id :: multiset(missing)[id] == if Addressed(bs, id) then 0 else multiset(targets)[id]
  }

  lemma UnknownExactly(bs: seq<Bastion>, targets: seq<string>)
    ensures AreUnknown(bs, targets, Select(bs, targets).missing)
    ensures Select(bs, targets).missing == [] <==> forall id :: id in targets ==> Addressed(bs, id)
  {
    var missing, sel := Missing(ByID(bs), targets), Select(bs, targets);
    SortStringsProperties(missing);
    forall id ensures multiset(sel.missing)[id] == if Addressed(bs, id) then 0 else multiset(targets)[id] {
      AddressedExactly(bs, id);
      MissingCount(ByID(bs), targets, id);
    }
    forall id | id in targets ensures id in multiset(targets) {}
    if sel.missing != [] {
      assert sel.missing[0] in multiset(sel.missing);
      assert sel.missing[0] in multiset(targets);
    }
    forall id | id in targets && !Addressed(bs, id) ensures sel.missing != [] {
      assert id in multiset(sel.missing);
    }
  }

  /**
   * selectBastions, without its maps and loops: the unknown targets, and when there are none the
   * addresses and ids of every target's bastion, or of every usable bastion when no target is named.
   */
  lemma SelectExactly(bs: seq<Bastion>, targets: seq<string>)
    ensures var sel := Select(bs, targets);
            && AreUnknown(bs, targets, sel.missing)
            && (targets == [] ==> exists c :: AreUsable(bs, c) && Gives(c, sel.ips, sel.ids))
            && (targets != [] && sel.missing == [] ==> exists c :: Serve(bs, targets, c) && Gives(c, sel.ips, sel.ids))
  {
    var sel, c := Select(bs, targets), Targets(bs, targets);
    UnknownExactly(bs, targets);
    SortStringsProperties(IPs(c));
    SortStringsProperties(IDs(c));
    assert Gives(c, sel.ips, sel.ids);
    if targets == [] {
      forall b: Bastion
        ensures multiset(c)[b] == if b.suspended || b.ip == "" then 0 else multiset(bs)[b]
      {
        EligibleCount(bs, b);
      }
      assert AreUsable(bs, c);
    } else if sel.missing == [] {
      forall id | id in targets ensures id in ByID(bs) && ByID(bs)[id].ip != "" { AddressedExactly(bs, id); }
      ChosenInOrder(ByID(bs), targets);
      forall i | 0 <= i < |c| ensures c[i].ip != "" && exists k :: LastWith(bs, targets[i], k) && bs[k] == c[i] {
        assert targets[i] in targets;
        ByIDIsLast(bs, targets[i]);
      }
      assert Serve(bs, targets, c);
    }
  }

  // ---- the cases of one pass ----

  /** A live record with its finalizer, whose AquaductTaaS has a readable token and has published its bastions. */
  ghost predicate CanWork(st: State, n: string, token: string) {
    && n in st.records && !st.records[n].deleting && st.records[n].finalizer
    && var t := st.records[n].taasRef;
    && t != "" && t in st.taases && TokenOf(st, st.taases[t]) == Some(token)
    && st.taases[t].status.lastSync.Some?
  }

  function PublishedFor(st: State, n: string): seq<Bastion>
    requires n in st.records && st.records[n].taasRef in st.taases
  {
    st.taases[st.records[n].taasRef].status.bastions
  }

  /** The pass wrote the status of record `n` and touched nothing else in the cluster. */
  ghost predicate OnlyStatus(st: State, st': State, n: string) {
    && n in st.records && n in st'.records
    && st'.records == st.records[n := st.records[n].(status := st'.records[n].status)]
    && st'.secrets == st.secrets && st'.taases == st.taases && st'.servers == st.servers
  }

  /** The condition is there and says this. */
  predicate Says(status: RecordStatus, t: ConditionType, ok: bool, reason: Reason) {
    t in status.conditions && status.conditions[t].ok == ok && status.conditions[t].reason == reason
  }

  /** What the account said last, which a pass that reaches no answer leaves alone. */
  ghost predicate KeepsReport(was: RecordStatus, status: RecordStatus) {
    && status.domainID == was.domainID && status.appliedBastionIDs == was.appliedBastionIDs
    && status.appliedIPs == was.appliedIPs && status.clobbered == was.clobbered
  }

  /** A failed pass says so on Registered and Ready and keeps everything the status reported. */
  ghost predicate FailedWith(was: RecordStatus, status: RecordStatus, reason: Reason) {
    && Says(status, Registered, false, reason) && Says(status, ConditionType.Ready, false, reason)
    && KeepsReport(was, status) && status.resolvedIPs == was.resolvedIPs && status.lastSync == was.lastSync
    && (Resolved in status.conditions <==> Resolved in was.conditions)
    && (Resolved in was.conditions ==> status.conditions[Resolved] == was.conditions[Resolved])
  }

  lemma FailReports(st: RecordStatus, reason: Reason, msg: Message, now: int)
    ensures var after := Fail(st, Registered, reason, msg, now);
            && FailedWith(st, after, reason) && after.expectedIPs == st.expectedIPs
            && after.conditions[Registered].message == msg && after.conditions[ConditionType.Ready].message == msg
  {
  }

  lemma WorkDone(st: State, n: string, token: string, now: int, f: Faults)
    requires CanWork(st, n, token)
    ensures var (s, status) := WorkingPass(st.remote, token, PublishedFor(st, n), st.records[n], now, f);
            && OnlyStatus(st, RecordPass(st, n, now, f), n) && RecordPass(st, n, now, f).remote == s
            && RecordPass(st, n, now, f).records[n].status == status
  {
  }

  lemma UnknownStops(s: Server, account: string, bs: seq<Bastion>, r: Record, now: int, f: Faults)
    requires Select(bs, r.targets).missing != []
    ensures var (s', status) := WorkingPass(s, account, bs, r, now, f);
            && s' == s && FailedWith(r.status, status, UnknownBastion) && status.expectedIPs == r.status.expectedIPs
            && status.conditions[Registered].message == Text(UnknownBastion, Select(bs, r.targets).missing, [])
            && status.conditions[ConditionType.Ready].message == status.conditions[Registered].message
  {
    FailReports(r.status, UnknownBastion, Text(UnknownBastion, Select(bs, r.targets).missing, []), now);
  }

  /**
   * A record naming a bastion that is not published with an address is refused: no call is made, whatever
   * the account server holds and whatever would fail, and the message names exactly those targets.
   */
  lemma UnknownTargetIsRefused(st: State, n: string, token: string, id: string, now: int, f: Faults)
    requires CanWork(st, n, token) && id in st.records[n].targets && !Addressed(PublishedFor(st, n), id)
    ensures var st', bs := RecordPass(st, n, now, f), PublishedFor(st, n);
            && st'.remote == st.remote && OnlyStatus(st, st', n)
            && var was, status := st.records[n].status, st'.records[n].status;
            && FailedWith(was, status, UnknownBastion) && status.expectedIPs == was.expectedIPs
            && var msg := status.conditions[Registered].message;
            && status.conditions[ConditionType.Ready].message == msg && msg.Text?
            && AreUnknown(bs, st.records[n].targets, msg.names)
  {
    var bs, r := PublishedFor(st, n), st.records[n];
    UnknownExactly(bs, r.targets);
    UnknownStops(st.remote, token, bs, r, now, f);
    WorkDone(st, n, token, now, f);
  }

  /** Every target of the record is published with an address. */
  ghost predicate TargetsKnown(st: State, n: string)
    requires n in st.records && st.records[n].taasRef in st.taases
  {
    forall id :: id in st.records[n].targets ==> Addressed(PublishedFor(st, n), id)
  }

  /** The account answers that the domain is somebody else's: to the GET, or to the PATCH after it. */
  ghost predicate AnswersForeign(s: Server, account: string, domain: string, f: Faults) {
    || f.get == Refused
    || (f.get == NoFault && domain in s.domains && (s.domains[domain].owner != account || f.patch == Refused))
  }

  /** Resolved and Ready say whether the lookup worked and found the expected addresses. */
  ghost predicate Judged(status: RecordStatus, was: RecordStatus, found: seq<string>, lookupOk: bool) {
    var right := lookupOk && found == status.expectedIPs;
    && Resolved in status.conditions && status.conditions[Resolved].ok == right
    && ConditionType.Ready in status.conditions && status.conditions[ConditionType.Ready].ok == right
    && status.resolvedIPs == (if lookupOk then found else was.resolvedIPs)
    && (right ==> Says(status, Resolved, true, if found == [] then NoTargets else ResolvedOk))
    && (right ==> Says(status, ConditionType.Ready, true, ReadyOk))
    && (!lookupOk ==> Says(status, Resolved, false, LookupFailed))
    && (lookupOk && !right ==>
         Says(status, Resolved, false, if status.expectedIPs == [] then UnexpectedRecords else Mismatched))
    && (lookupOk && !right ==>
         status.conditions[Resolved].message ==
         if status.expectedIPs == [] then Text(UnexpectedRecords, found, [])
           else Text(Mismatched, status.expectedIPs, found))
    && (!right ==>
         && status.conditions[ConditionType.Ready].reason == status.conditions[Resolved].reason
         && status.conditions[ConditionType.Ready].message == status.conditions[Resolved].message)
  }

  lemma ConcludeJudges(st: RecordStatus, reg: Registration, found: seq<string>, lookupOk: bool, now: int)
    requires reg.Wrote? || reg.IsForeign?
    ensures var c := Conclude(st, reg, found, lookupOk, now);
            && Judged(c, st, found, lookupOk) && KeepsReport(st, c)
            && c.expectedIPs == st.expectedIPs && c.lastSync == st.lastSync
            && (reg.IsForeign? ==>
                  Says(c, Registered, false,
                       if c.conditions[ConditionType.Ready].ok then ExternallyManaged else ForeignOwned))
            && (reg.Wrote? ==>
                  var ids := |reg.view.bastionIDs|;
                  && Says(c, Registered, true, RegisteredOk)
                  && c.conditions[Registered].message ==
                     if reg.created then NewDomain(reg.view.id, ids) else KnownDomain(reg.view.id, ids))
  {
  }

  /**
   * What the status write leaves: everything but the heartbeat as computed; the heartbeat is the time of the
   * write, and nothing is written while nothing else changed and the last write is under 300 seconds old.
   */
  lemma CommitExactly(before: RecordStatus, next: RecordStatus, now: int)
    ensures var after := Commit(before, next, now);
            && after.(lastSync := None) == next.(lastSync := None)
            && var quiet := before.(lastSync := None) == next.(lastSync := None) && before.lastSync.Some?
                 && now - before.lastSync.value < 300;
            after.lastSync == if quiet then before.lastSync else Some(now)
  {
  }

  lemma JudgedSurvivesCommit(before: RecordStatus, next: RecordStatus, was: RecordStatus, found: seq<string>,
                             lookupOk: bool, now: int)
    requires Judged(next, was, found, lookupOk)
    ensures Judged(Commit(before, next, now), was, found, lookupOk)
  {
    CommitExactly(before, next, now);
    assert Commit(before, next, now).conditions == next.conditions;
  }

  lemma ForeignWork(s: Server, account: string, bs: seq<Bastion>, r: Record, now: int, f: Faults)
    requires Select(bs, r.targets).missing == [] && AnswersForeign(s, account, r.domain, f)
    ensures var (s', status) := WorkingPass(s, account, bs, r, now, f);
            && s' == s && KeepsReport(r.status, status) && status.expectedIPs == Select(bs, r.targets).ips
            && Judged(status, r.status, DerivedIPs(s, r.domain), f.lookup == NoFault)
            && Says(status, Registered, false,
                    if status.conditions[ConditionType.Ready].ok then ExternallyManaged else ForeignOwned)
  {
    var sel := Select(bs, r.targets);
    assert Register(s, account, r.domain, sel.ids, f) == IsForeign(s);
    var st := r.status.(expectedIPs := sel.ips);
    DerivedAreSorted(s, r.domain);
    ConcludeJudges(st, IsForeign(s), DerivedIPs(s, r.domain), f.lookup == NoFault, now);
    var next := Conclude(st, IsForeign(s), DerivedIPs(s, r.domain), f.lookup == NoFault, now);
    JudgedSurvivesCommit(r.status, next, st, DerivedIPs(s, r.domain), f.lookup == NoFault, now);
    CommitExactly(r.status, next, now);
  }

  lemma DerivedAreSorted(s: Server, domain: string)
    ensures SortStrings(DerivedIPs(s, domain)) == DerivedIPs(s, domain)
  {
    if domain in s.domains {
      SortedTwice(Addresses(BastionsOf(s, s.domains[domain].owner), s.domains[domain].bastionIDs));
    } else {
      assert SortStrings([]) == [];
    }
  }

  /**
   * A domain of somebody else is left alone. Registered is not ok; Ready follows what DNS holds, and
   * the reason is ExternallyManaged exactly when DNS holds the expected addresses.
   */
  lemma ForeignDomainIsLeftAlone(st: State, n: string, token: string, now: int, f: Faults)
    requires CanWork(st, n, token) && TargetsKnown(st, n) && AnswersForeign(st.remote, token, st.records[n].domain, f)
    ensures var st', bs, r := RecordPass(st, n, now, f), PublishedFor(st, n), st.records[n];
            && st'.remote == st.remote && OnlyStatus(st, st', n)
            && var status := st'.records[n].status;
            && KeepsReport(r.status, status) && status.expectedIPs == Select(bs, r.targets).ips
            && Judged(status, r.status, DerivedIPs(st.remote, r.domain), f.lookup == NoFault)
            && Says(status, Registered, false,
                    if status.conditions[ConditionType.Ready].ok then ExternallyManaged else ForeignOwned)
  {
    var bs, r := PublishedFor(st, n), st.records[n];
    UnknownExactly(bs, r.targets);
    ForeignWork(st.remote, token, bs, r, now, f);
    WorkDone(st, n, token, now, f);
  }

  // ---- a domain that is written ----

  /** The bastions a PUT or PATCH with these ids binds: these, or every active one when there are none. */
  function BoundTo(s: Server, account: string, ids: seq<string>): seq<string> {
    if ids == [] then ActiveIDs(BastionsOf(s, account)) else ids
  }

  /** The domain is registered to the account and bound as asked; a new one has a new number. No other moved. */
  ghost predicate Written(s: Server, account: string, domain: string, ids: seq<string>, s': Server) {
    && s'.bastions == s.bastions && domain in s'.domains
    && var d := s'.domains[domain];
    && d == Domain(if domain in s.domains then s.domains[domain].id else s.nextID + 1, account,
                   BoundTo(s, account, ids), true)
    && s'.domains == s.domains[domain := d]
    && s'.nextID == (if domain in s.domains then s.nextID else s.nextID + 1)
  }

  /** No call fails, and the domain is free or the account's. */
  predicate CallsReach(s: Server, account: string, domain: string, f: Faults) {
    && f.get == NoFault
    && (domain !in s.domains ==> f.put == NoFault)
    && (domain in s.domains ==> s.domains[domain].owner == account && f.patch == NoFault)
  }

  /** What the account answered: its number and set. A takeover is remembered, a creation is not one. */
  ghost predicate Reports(was: RecordStatus, status: RecordStatus, d: Domain, found: seq<string>, created: bool) {
    && status.domainID == Some(d.id) && status.appliedBastionIDs == d.bastionIDs && status.appliedIPs == found
    && (status.clobbered <==> !created && (was.domainID.None? || was.clobbered))
  }

  lemma WrittenWork(s: Server, account: string, bs: seq<Bastion>, r: Record, now: int, f: Faults)
    requires Select(bs, r.targets).missing == [] && CallsReach(s, account, r.domain, f)
    ensures var (s', status) := WorkingPass(s, account, bs, r, now, f);
            var sel, created := Select(bs, r.targets), r.domain !in s.domains;
            && Written(s, account, r.domain, sel.ids, s') && status.expectedIPs == sel.ips
            && var d, found := s'.domains[r.domain], DerivedIPs(s', r.domain);
            && Reports(r.status, status, d, found, created)
            && Judged(status, r.status, found, f.lookup == NoFault) && Says(status, Registered, true, RegisteredOk)
            && status.conditions[Registered].message ==
               if created then NewDomain(d.id, |d.bastionIDs|) else KnownDomain(d.id, |d.bastionIDs|)
  {
    var sel := Select(bs, r.targets);
    var reg := Register(s, account, r.domain, sel.ids, f);
    RegisterWrites(s, account, r.domain, sel.ids, f);
    var found, st := DerivedIPs(reg.server, r.domain), Applied(r.status.(expectedIPs := sel.ips), reg);
    DerivedAreSorted(reg.server, r.domain);
    ConcludeJudges(st, reg, found, f.lookup == NoFault, now);
    var next := Conclude(st, reg, found, f.lookup == NoFault, now);
    JudgedSurvivesCommit(r.status, next, st, found, f.lookup == NoFault, now);
    CommitExactly(r.status, next, now);
  }

  lemma RegisterWrites(s: Server, account: string, domain: string, ids: seq<string>, f: Faults)
    requires CallsReach(s, account, domain, f)
    ensures var reg := Register(s, account, domain, ids, f);
            && reg.Wrote? && Written(s, account, domain, ids, reg.server) && (reg.created <==> domain !in s.domains)
            && reg.view.id == reg.server.domains[domain].id
            && reg.view.bastionIDs == reg.server.domains[domain].bastionIDs
            && reg.view.ips == DerivedIPs(reg.server, domain)
  {
  }

  /** A free domain, or one of the account, is bound to the selected bastions, and the status reports the answer. */
  lemma WrittenDomainIsReported(st: State, n: string, token: string, now: int, f: Faults)
    requires CanWork(st, n, token) && TargetsKnown(st, n) && CallsReach(st.remote, token, st.records[n].domain, f)
    ensures var st', r := RecordPass(st, n, now, f), st.records[n];
            var sel, created := Select(PublishedFor(st, n), r.targets), r.domain !in st.remote.domains;
            && OnlyStatus(st, st', n) && Written(st.remote, token, r.domain, sel.ids, st'.remote)
            && var status, d := st'.records[n].status, st'.remote.domains[r.domain];
            && status.expectedIPs == sel.ips
            && Reports(r.status, status, d, DerivedIPs(st'.remote, r.domain), created)
            && Judged(status, r.status, DerivedIPs(st'.remote, r.domain), f.lookup == NoFault)
            && Says(status, Registered, true, RegisteredOk)
  {
    var bs, r := PublishedFor(st, n), st.records[n];
    UnknownExactly(bs, r.targets);
    WrittenWork(st.remote, token, bs, r, now, f);
    WorkDone(st, n, token, now, f);
  }

  // ---- calls that fail ----

  /** The GET gets no answer, or the PATCH after it does not. */
  predicate ApiFails(s: Server, account: string, domain: string, f: Faults) {
    || f.get in {Lost, AnswerLost}
    || (f.get == NoFault && domain in s.domains && s.domains[domain].owner == account && f.patch in {Lost, AnswerLost})
  }

  /** The domain is reported missing, and the PUT fails or meets somebody else's entry. */
  predicate PutFails(s: Server, account: string, domain: string, f: Faults) {
    && (f.get == Vanished || (f.get == NoFault && domain !in s.domains))
    && (f.put != NoFault || (domain in s.domains && s.domains[domain].owner != account))
  }

  /** Only a call whose answer was lost may have written the domain, and then as asked. */
  ghost predicate MayHaveWritten(s: Server, account: string, domain: string, ids: seq<string>, f: Faults, s': Server) {
    s' != s ==> (f.put == AnswerLost || f.patch == AnswerLost) && Written(s, account, domain, ids, s')
  }

  lemma FailingWork(s: Server, account: string, bs: seq<Bastion>, r: Record, now: int, f: Faults)
    requires Select(bs, r.targets).missing == []
    requires ApiFails(s, account, r.domain, f) || PutFails(s, account, r.domain, f)
    ensures var (s', status) := WorkingPass(s, account, bs, r, now, f);
            && MayHaveWritten(s, account, r.domain, Select(bs, r.targets).ids, f, s')
            && FailedWith(r.status, status, if ApiFails(s, account, r.domain, f) then APIError else RegisterFailed)
            && status.expectedIPs == Select(bs, r.targets).ips
  {
    var sel := Select(bs, r.targets);
    var reason := if ApiFails(s, account, r.domain, f) then APIError else RegisterFailed;
    RegisterFails(s, account, r.domain, sel.ids, f);
    FailReports(r.status.(expectedIPs := sel.ips), reason, Text(reason, [], []), now);
  }

  lemma RegisterFails(s: Server, account: string, domain: string, ids: seq<string>, f: Faults)
    requires ApiFails(s, account, domain, f) || PutFails(s, account, domain, f)
    ensures var reg := Register(s, account, domain, ids, f);
            && reg.Stop? && reg.reason == (if ApiFails(s, account, domain, f) then APIError else RegisterFailed)
            && MayHaveWritten(s, account, domain, ids, f, reg.server)
  {
  }

  /** A call without an answer fails the pass with its reason; what the status reported stays. */
  lemma FailedCallIsReported(st: State, n: string, token: string, now: int, f: Faults)
    requires CanWork(st, n, token) && TargetsKnown(st, n)
    requires var domain := st.records[n].domain;
             ApiFails(st.remote, token, domain, f) || PutFails(st.remote, token, domain, f)
    ensures var st', r := RecordPass(st, n, now, f), st.records[n];
            var sel := Select(PublishedFor(st, n), r.targets);
            && OnlyStatus(st, st', n) && MayHaveWritten(st.remote, token, r.domain, sel.ids, f, st'.remote)
            && FailedWith(r.status, st'.records[n].status,
                          if ApiFails(st.remote, token, r.domain, f) then APIError else RegisterFailed)
            && st'.records[n].status.expectedIPs == sel.ips
  {
    var bs, r := PublishedFor(st, n), st.records[n];
    UnknownExactly(bs, r.targets);
    FailingWork(st.remote, token, bs, r, now, f);
    WorkDone(st, n, token, now, f);
  }

  /** A domain that vanishes between GET and PATCH leaves everything for the next pass. */
  lemma VanishedDomainIsRetried(st: State, n: string, token: string, now: int, f: Faults)
    requires CanWork(st, n, token) && TargetsKnown(st, n) && f.get == NoFault && f.patch == Vanished
    requires var domain, domains := st.records[n].domain, st.remote.domains;
             domain in domains && domains[domain].owner == token
    ensures RecordPass(st, n, now, f) == st
  {
    var bs, r := PublishedFor(st, n), st.records[n];
    UnknownExactly(bs, r.targets);
    assert Register(st.remote, token, r.domain, Select(bs, r.targets).ids, f) == Retry(st.remote);
    WorkDone(st, n, token, now, f);
    assert st.records[n := r.(status := r.status)] == st.records;
  }

  /**
   * Nothing is called, and the reason is told, without a reference to an AquaductTaaS, without that object,
   * without its reference to a Secret, without a token in the Secret, and before its first sync.
   */
  lemma UnpreparedRecordWaits(st: State, n: string, now: int, f: Faults)
    requires n in st.records && !st.records[n].deleting && st.records[n].finalizer
    requires forall token :: !CanWork(st, n, token)
    ensures var st', r := RecordPass(st, n, now, f), st.records[n];
            && st'.remote == st.remote && OnlyStatus(st, st', n)
            && var status := st'.records[n].status;
            && status.expectedIPs == r.status.expectedIPs
            && FailedWith(r.status, status, ReasonToWait(st, r.taasRef))
  {
    var r := st.records[n];
    var reason := ReasonToWait(st, r.taasRef);
    FailReports(r.status, reason, Text(reason, [], []), now);
    if r.taasRef in st.taases && TokenOf(st, st.taases[r.taasRef]).Some? {
      assert !CanWork(st, n, TokenOf(st, st.taases[r.taasRef]).value);
    }
  }

  /** Why a record cannot be worked on, in the order the reasons are looked for. */
  ghost function ReasonToWait(st: State, t: string): Reason {
    if t == "" then SpecInvalid
    else if t !in st.taases then MissingAquaductTaaS
    else if st.taases[t].secretRef.None? then SpecInvalid
    else if forall token :: TokenOf(st, st.taases[t]) != Some(token) then SecretError
    else WaitingForBastions
  }

  // ---- deletion ----

  /** A record being deleted whose AquaductTaaS has a readable token. */
  ghost predicate CanUnregister(st: State, n: string, token: string) {
    && n in st.records && st.records[n].deleting && st.records[n].finalizer
    && var t := st.records[n].taasRef;
    && t != "" && t in st.taases && TokenOf(st, st.taases[t]) == Some(token)
  }

  /** The DELETE arrives at the account's own domain. */
  predicate Unregisters(s: Server, account: string, r: Record, domain: string, f: Faults)
    requires domain in s.domains
  {
    domain == r.domain && s.domains[domain].owner == account && (f.delete == NoFault || f.delete == AnswerLost)
  }

  /**
   * A record being deleted goes exactly when the DELETE was answered: done, missing or somebody else's.
   * The account's domain goes with a DELETE that arrived, and a domain of another account never does.
   */
  lemma RecordDeletionExactly(st: State, n: string, token: string, now: int, f: Faults)
    requires CanUnregister(st, n, token)
    ensures var st', r := RecordPass(st, n, now, f), st.records[n];
            && st'.secrets == st.secrets && st'.taases == st.taases && st'.servers == st.servers
            && (n !in st'.records <==> f.delete == NoFault || f.delete == Refused || f.delete == Vanished)
            && (forall m :: m != n ==> (m in st'.records <==> m in st.records))
            && (forall m :: m != n && m in st.records ==> st'.records[m] == st.records[m])
            && (n in st'.records ==>
                  && OnlyStatus(st, st', n)
                  && Says(st'.records[n].status, ConditionType.Ready, false, CleanupFailed))
            && (forall d :: d in st'.remote.domains <==>
                 d in st.remote.domains && !Unregisters(st.remote, token, r, d, f))
            && (forall d :: d in st'.remote.domains ==> st'.remote.domains[d] == st.remote.domains[d])
            && st'.remote.bastions == st.remote.bastions
  {
  }

  /** Without credentials a deletion waits, and says why. */
  lemma DeletionWaits(st: State, n: string, now: int, f: Faults)
    requires n in st.records && st.records[n].deleting && st.records[n].finalizer
    requires forall token :: !CanUnregister(st, n, token)
    ensures var st' := RecordPass(st, n, now, f);
            && st'.remote == st.remote && OnlyStatus(st, st', n)
            && FailedWith(st.records[n].status, st'.records[n].status, ReasonToWait(st, st.records[n].taasRef))
  {
    var r := st.records[n];
    var reason := ReasonToWait(st, r.taasRef);
    FailReports(r.status, reason, Text(reason, [], []), now);
    if r.taasRef in st.taases && TokenOf(st, st.taases[r.taasRef]).Some? {
      assert !CanUnregister(st, n, TokenOf(st, st.taases[r.taasRef]).value);
    }
  }

  // ---- conditions date from their last flip ----

  /** A condition that did not flip keeps its time; one that is new or flipped is of now. */
  ghost predicate DatedFromFlips(was: RecordStatus, status: RecordStatus, now: int) {
    forall c :: c in status.conditions ==>
      status.conditions[c].since ==
      if c in was.conditions && was.conditions[c].ok == status.conditions[c].ok then was.conditions[c].since else now
  }

  lemma FailDates(st: RecordStatus, t: ConditionType, reason: Reason, msg: Message, now: int)
    ensures DatedFromFlips(st, Fail(st, t, reason, msg, now), now)
  {
  }

  lemma ConcludeDates(st: RecordStatus, reg: Registration, found: seq<string>, lookupOk: bool, now: int)
    requires reg.Wrote? || reg.IsForeign?
    ensures DatedFromFlips(st, Conclude(st, reg, found, lookupOk, now), now)
  {
  }

  lemma WorkDates(s: Server, account: string, bs: seq<Bastion>, r: Record, now: int, f: Faults)
    ensures DatedFromFlips(r.status, WorkingPass(s, account, bs, r, now, f).1, now)
  {
    var sel := Select(bs, r.targets);
    FailDates(r.status, Registered, UnknownBastion, Text(UnknownBastion, sel.missing, []), now);
    var st, reg := r.status.(expectedIPs := sel.ips), Register(s, account, r.domain, sel.ids, f);
    if reg.Stop? { FailDates(st, Registered, reg.reason, Text(reg.reason, [], []), now); }
    if reg.Wrote? || reg.IsForeign? {
      var st' := if reg.Wrote? then Applied(st, reg) else st;
      var found := SortStrings(DerivedIPs(reg.server, r.domain));
      ConcludeDates(st', reg, found, f.lookup == NoFault, now);
      CommitExactly(r.status, Conclude(st', reg, found, f.lookup == NoFault, now), now);
      assert Commit(r.status, Conclude(st', reg, found, f.lookup == NoFault, now), now).conditions
          == Conclude(st', reg, found, f.lookup == NoFault, now).conditions;
    }
  }

  lemma DeletionDates(st: State, n: string, now: int, f: Faults)
    requires n in st.records && n in RecordDeletion(st, n, now, f).records
    ensures DatedFromFlips(st.records[n].status, RecordDeletion(st, n, now, f).records[n].status, now)
  {
    var r := st.records[n];
    var c := Resolve(st, r.taasRef);
    FailDates(r.status, ConditionType.Ready, CleanupFailed, Text(CleanupFailed, [], []), now);
    if c.NoCredentials? { FailDates(r.status, Registered, c.reason, Text(c.reason, [], []), now); }
  }

  lemma RecordWorkDates(st: State, r: Record, now: int, f: Faults)
    ensures DatedFromFlips(r.status, RecordWork(st, r, now, f).1, now)
  {
    match Resolve(st, r.taasRef)
    case NoCredentials(reason) => FailDates(r.status, Registered, reason, Text(reason, [], []), now);
    case Credentials(taas, token) =>
      FailDates(r.status, Registered, WaitingForBastions, Text(WaitingForBastions, [], []), now);
      WorkDates(st.remote, token, taas.status.bastions, r, now, f);
  }

  /** In every case of a pass, a condition's transition time moves exactly when the condition flips. */
  lemma ConditionsDateFromFlips(st: State, n: string, now: int, f: Faults)
    requires n in st.records && n in RecordPass(st, n, now, f).records
    ensures DatedFromFlips(st.records[n].status, RecordPass(st, n, now, f).records[n].status, now)
  {
    var r := st.records[n];
    if r.deleting && r.finalizer {
      DeletionDates(st, n, now, f);
    } else if !r.deleting && r.finalizer {
      RecordWorkDates(st, r, now, f);
    }
  }

  // ---- a sync and then record passes ----

  /** Passes over one record at the given times, no call failing. */
  function RecordPasses(st: State, n: string, times: seq<int>): State {
    if times == [] then st
    else RecordPass(RecordPasses(st, n, times[..|times| - 1]), n, times[|times| - 1], NO_FAULTS)
  }

  lemma OnlyStatusTwice(st: State, mid: State, end: State, n: string)
    requires OnlyStatus(st, mid, n) && OnlyStatus(mid, end, n)
    ensures OnlyStatus(st, end, n)
  {
  }

  lemma {:induction false} RecordPassesAre(st: State, n: string, token: string, times: seq<int>)
    requires CanWork(st, n, token)
    ensures var end := RecordPasses(st, n, times);
            && OnlyStatus(st, end, n)
            && (end.remote, end.records[n].status)
               == Passes(st.remote, token, PublishedFor(st, n), st.records[n], times)
  {
    if times == [] {
      assert st.records[n := st.records[n].(status := st.records[n].status)] == st.records;
    } else {
      var k := |times| - 1;
      RecordPassesAre(st, n, token, times[..k]);
      var mid := RecordPasses(st, n, times[..k]);
      WorkDone(mid, n, token, times[k], NO_FAULTS);
      OnlyStatusTwice(st, mid, RecordPass(mid, n, times[k], NO_FAULTS), n);
    }
  }

  /** The last of the places an id has. */
  lemma LastExists(bs: seq<Bastion>, id: string, j: nat) returns (k: nat)
    requires j < |bs| && bs[j].id == id
    ensures LastWith(bs, id, k)
  {
    k := |bs| - 1;
    while bs[k].id != id
      invariant j <= k < |bs| && forall i :: k < i < |bs| ==> bs[i].id != id
      decreases k
    {
      k := k - 1;
    }
  }

  /** With unique ids it does not matter in which order the bastions are listed. */
  lemma AddressedIgnoresOrder(bs: seq<Bastion>, published: seq<Bastion>, id: string)
    requires UniqueIDs(bs) && multiset(published) == multiset(bs) && Addressed(bs, id)
    ensures Addressed(published, id)
  {
    MultisetMembers(published, bs);
    var k :| LastWith(bs, id, k) && bs[k].ip != "";
    assert bs[k] in published;
    var j :| 0 <= j < |published| && published[j] == bs[k];
    var m := LastExists(published, id, j);
    assert published[m] in bs;
    var i :| 0 <= i < |bs| && bs[i] == published[m];
    assert i == k;
  }

  lemma ServeIgnoresOrder(bs: seq<Bastion>, published: seq<Bastion>, targets: seq<string>, c: seq<Bastion>)
    requires UniqueIDs(bs) && multiset(published) == multiset(bs) && Serve(published, targets, c)
    ensures Serve(bs, targets, c)
  {
    MultisetMembers(published, bs);
    forall i | 0 <= i < |c| ensures c[i].ip != "" && exists k :: LastWith(bs, targets[i], k) && bs[k] == c[i] {
      var j :| LastWith(published, targets[i], j) && published[j] == c[i];
      assert published[j] in bs;
      var k :| 0 <= k < |bs| && bs[k] == published[j];
      assert LastWith(bs, targets[i], k);
    }
  }

  /** The account's bastions a record asks for: its targets', in their order, or every usable one. */
  ghost predicate Asked(bs: seq<Bastion>, targets: seq<string>, c: seq<Bastion>) {
    if targets == [] then AreUsable(bs, c) else Serve(bs, targets, c)
  }

  lemma PublishedSelection(bs: seq<Bastion>, published: seq<Bastion>, targets: seq<string>)
    requires UniqueIDs(bs) && multiset(published) == multiset(bs)
    requires forall id :: id in targets ==> Addressed(bs, id)
    ensures var sel := Select(published, targets);
            sel.missing == [] && exists c :: Asked(bs, targets, c) && Gives(c, sel.ips, sel.ids)
  {
    var sel := Select(published, targets);
    forall id | id in targets ensures Addressed(published, id) { AddressedIgnoresOrder(bs, published, id); }
    UnknownExactly(published, targets);
    SelectExactly(published, targets);
    if targets == [] {
      var c :| AreUsable(published, c) && Gives(c, sel.ips, sel.ids);
      assert Asked(bs, targets, c);
    } else {
      var c :| Serve(published, targets, c) && Gives(c, sel.ips, sel.ids);
      ServeIgnoresOrder(bs, published, targets, c);
      assert Asked(bs, targets, c);
    }
  }

  /** What a sync of an AquaductTaaS needs, and a record of it that is to be worked on. */
  ghost predicate CanSettle(st: State, t: string, token: string, n: string) {
    var bs := BastionsOf(st.remote, token);
    && t != "" && Mirroring.CanSync(st, t, token) && Mirror(st.servers, t, bs).ok && UniqueIDs(bs)
    && n in st.records && !st.records[n].deleting && st.records[n].finalizer && st.records[n].taasRef == t
    && (forall id :: id in st.records[n].targets ==> Addressed(bs, id))
    && (st.records[n].domain in st.remote.domains ==> st.remote.domains[st.records[n].domain].owner == token)
  }

  /** A sync leaves what convergence needs: the account's list published, its token readable. */
  lemma SyncPrepares(st: State, t: string, token: string, n: string, now: int, order: seq<string>, f: TaaSFaults)
    requires CanSettle(st, t, token, n) && !f.list
    ensures var st', r := TaaSPass(st, t, now, order, f), st.records[n];
            && CanWork(st', n, token) && st'.remote == st.remote && st'.records == st.records
            && CanConverge(st'.remote, token, PublishedFor(st', n), r)
            && var sel := Select(PublishedFor(st', n), r.targets);
            exists c :: Asked(BastionsOf(st.remote, token), r.targets, c) && Gives(c, sel.ips, sel.ids)
  {
    Mirroring.SyncPublishes(st, t, token, now, order, f);
    var st' := TaaSPass(st, t, now, order, f);
    SyncKeepsToken(st, t, token, now, order, f);
    PublishedSelection(BastionsOf(st.remote, token), st'.taases[t].status.bastions, st.records[n].targets);
  }

  lemma SyncKeepsToken(st: State, t: string, token: string, now: int, order: seq<string>, f: TaaSFaults)
    requires Mirroring.CanSync(st, t, token)
    ensures var st' := TaaSPass(st, t, now, order, f); t in st'.taases && TokenOf(st', st'.taases[t]) == Some(token)
  {
  }

  /**
   * From a sync to DNS. After a sync that went through, and two or more passes over a record whose targets
   * the account has with addresses, DNS holds exactly the addresses of the bastions the record asks for and
   * all three conditions are True. The server is as the first pass left it, and the status, heartbeat aside,
   * as the second did.
   */
  lemma SyncThenRecordConverges(
    st: State, t: string, token: string, n: string, now: int, order: seq<string>, f: TaaSFaults, times: seq<int>)
    requires CanSettle(st, t, token, n) && !f.list && |times| >= 2
    ensures var st' := TaaSPass(st, t, now, order, f);
            var end, first, second := RecordPasses(st', n, times), RecordPasses(st', n, times[..1]),
                                      RecordPasses(st', n, times[..2]);
            && OnlyStatus(st', end, n) && OnlyStatus(st', second, n)
            && var bs, r, status := BastionsOf(st.remote, token), st.records[n], end.records[n].status;
            && end.remote == first.remote && Beat(status) == Beat(second.records[n].status)
            && (exists c, ids :: Asked(bs, r.targets, c) && Gives(c, DerivedIPs(end.remote, r.domain), ids))
            && status.expectedIPs == status.resolvedIPs == DerivedIPs(end.remote, r.domain)
            && IsTrue(status, Registered) && IsTrue(status, Resolved) && IsTrue(status, ConditionType.Ready)
  {
    SyncPrepares(st, t, token, n, now, order, f);
    var st', r := TaaSPass(st, t, now, order, f), st.records[n];
    var published := PublishedFor(st', n);
    RecordPassesAre(st', n, token, times);
    RecordPassesAre(st', n, token, times[..1]);
    RecordPassesAre(st', n, token, times[..2]);
    RecordConverges(st.remote, token, published, r, times);
    var (s, status) := Passes(st.remote, token, published, r, times);
    SteadyMeansResolved(s, token, published, r, status);
    var sel := Select(published, r.targets);
    var c :| Asked(BastionsOf(st.remote, token), r.targets, c) && Gives(c, sel.ips, sel.ids);
  }
}
