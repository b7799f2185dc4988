/** The reconcilers as they run: they read and write the cluster's objects and call the account server. */
module Controllers {
  import opened Order
  import opened Text
  import opened Api
  import opened Remote
  import opened DnsRecord
  import opened Gateway
  import opened Cluster
  import Convergence

  // ---- checking what the API answered ----

  predicate IsEligible(b: Bastion) { !b.suspended && b.ip != "" }

  function NamesOf(bs: seq<Bastion>): seq<string> { seq(|bs|, i requires 0 <= i < |bs| => bs[i].name) }

  /** The first `n` bastions have names and ids, and no two usable ones share a name. */
  ghost predicate CleanUpTo(bs: seq<Bastion>, n: nat)
    requires n <= |bs|
  {
    && (forall i :: 0 <= i < n ==> bs[i].name != "" && bs[i].id != "")
    && (forall i, j :: 0 <= i < j < n && IsEligible(bs[i]) && IsEligible(bs[j]) ==> bs[i].name != bs[j].name)
  }

  /** The usable ones among the first `n` are these, by set and in order. */
  ghost predicate CollectedUpTo(bs: seq<Bastion>, n: nat, desired: set<string>, names: seq<string>)
    requires n <= |bs|
  {
    && (forall x :: x in desired <==> exists k :: 0 <= k < n && IsEligible(bs[k]) && bs[k].name == x)
    && names == NamesOf(Eligible(bs[..n]))
  }

  /** Acceptable, said without the list of eligible ones. */
  lemma AcceptableExactly(bs: seq<Bastion>)
    ensures Acceptable(bs) <==> CleanUpTo(bs, |bs|)
  {
    Convergence.EligibleAre(bs);
  }

  lemma CollectOne(bs: seq<Bastion>, n: nat, desired: set<string>, names: seq<string>)
    requires n < |bs| && CollectedUpTo(bs, n, desired, names)
    ensures IsEligible(bs[n]) ==> CollectedUpTo(bs, n + 1, desired + {bs[n].name}, names + [bs[n].name])
    ensures !IsEligible(bs[n]) ==> CollectedUpTo(bs, n + 1, desired, names)
  {
    assert bs[..n + 1][..n] == bs[..n];
  }

  /** One more bastion is fine exactly when it has a name and an id, and its name is not taken if it is usable. */
  lemma CleanOne(bs: seq<Bastion>, n: nat, desired: set<string>, names: seq<string>)
    requires n < |bs| && CleanUpTo(bs, n) && CollectedUpTo(bs, n, desired, names)
    ensures CleanUpTo(bs, n + 1) <==>
            bs[n].name != "" && bs[n].id != "" && (IsEligible(bs[n]) ==> bs[n].name !in desired)
    ensures CleanUpTo(bs, |bs|) ==> CleanUpTo(bs, n + 1)
  {
  }

  lemma CollectedAll(bs: seq<Bastion>, desired: set<string>, names: seq<string>)
    requires CollectedUpTo(bs, |bs|, desired, names)
    ensures desired == Desired(bs) && names == NamesOf(Eligible(bs))
  {
    assert bs[..|bs|] == bs;
  }

  /** The first loop of syncWeftServers: refuse a bad answer, else collect the names to mirror. */
  method CheckServers(bs: seq<Bastion>) returns (ok: bool, desired: set<string>, names: seq<string>)
    ensures ok == Acceptable(bs)
    ensures ok ==> desired == Desired(bs) && names == NamesOf(Eligible(bs))
  {
    ok, desired, names := true, {}, [];
    var i := 0;
    AcceptableExactly(bs);
    while i < |bs|
      invariant 0 <= i <= |bs| && CleanUpTo(bs, i) && CollectedUpTo(bs, i, desired, names)
    {
      var b := bs[i];
      CleanOne(bs, i, desired, names);
      CollectOne(bs, i, desired, names);
      if b.name == "" || b.id == "" {
        return false, {}, [];
      }
      if IsEligible(b) {
        if b.name in desired {
          return false, {}, [];
        }
        desired := desired + {b.name};
        names := names + [b.name];
      }
      i := i + 1;
    }
    CollectedAll(bs, desired, names);
  }

  lemma DeleteOneMore(rs: Records, done: set<string>, n: string)
    requires n !in done
    ensures DeleteAll(DeleteAll(rs, done), {n}) == DeleteAll(rs, done + {n})
  {
  }

  class Controller {
    var secrets: map<string, Secret>
    var taases: map<string, TaaS>
    var records: map<string, Record>
    var servers: map<string, WeftServer>
    const account: DomainServer

    constructor (account: DomainServer)
      ensures this.account == account && secrets == map[] && taases == map[] && records == map[] && servers == map[]
    {
      this.account := account;
      secrets, taases, records, servers := map[], map[], map[], map[];
    }

    function View(): State
      reads this, account
    {
      State(secrets, taases, records, servers, account.View())
    }

    // ---- DNSRecord ----

    /** GET, then PUT or PATCH; a fault may hit each call. */
    method RegisterDomain(token: string, domain: string, ids: seq<string>, f: Faults) returns (reg: Registration)
      modifies account
      ensures reg == Register(old(account.View()), token, domain, ids, f) && account.View() == reg.server
    {
      var got: Reply<DomainView>;
      if f.get == NoFault {
        got := account.GetDomain(token, domain);
      } else {
        got := Answered(account.View(), token, domain, f.get);
      }
      if got.Failed? {
        return Stop(account.View(), APIError);
      }
      if got.Foreign? {
        return IsForeign(account.View());
      }
      var answer := got;
      if got.NotFound? {
        if f.put == NoFault || f.put == AnswerLost {
          answer := account.PutDomain(token, domain, Some(ids));
        }
        if f.put != NoFault || !answer.Ok? {
          return Stop(account.View(), RegisterFailed);
        }
        return Wrote(account.View(), answer.value, true);
      }
      if f.patch == NoFault || f.patch == AnswerLost {
        answer := account.PatchDomain(token, domain, Some(ids));
      }
      if f.patch == Refused {
        return IsForeign(account.View());
      }
      if f.patch == Vanished {
        return Retry(account.View());
      }
      if f.patch != NoFault {
        return Stop(account.View(), APIError);
      }
      reg := Wrote(account.View(), answer.value, false);
    }

    /** From selectBastions to the status write. */
    method Work(token: string, bs: seq<Bastion>, r: Record, now: int, f: Faults) returns (status: RecordStatus)
      modifies account
      ensures (account.View(), status) == WorkingPass(old(account.View()), token, bs, r, now, f)
    {
      var sel := SelectBastions(bs, r.targets);
      if sel.missing != [] {
        return Fail(r.status, Registered, UnknownBastion, Text(UnknownBastion, sel.missing, []), now);
      }
      var st := r.status.(expectedIPs := sel.ips);
      var reg := RegisterDomain(token, r.domain, sel.ids, f);
      if reg.Stop? {
        return Fail(st, Registered, reg.reason, Text(reg.reason, [], []), now);
      }
      if reg.Retry? {
        return r.status;
      }
      if reg.Wrote? {
        st := Applied(st, reg);
      }
      var found := account.ComputeDerivedIPs(r.domain);
      found := SortStrings(found);
      status := Commit(r.status, Conclude(st, reg, found, f.lookup == NoFault, now), now);
    }

    /** handleDeletion of a record. */
    method UnregisterRecord(n: string, now: int, f: Faults)
      requires n in records
      modifies this`records, account
      ensures View() == RecordDeletion(old(View()), n, now, f)
    {
      var r := records[n];
      match Resolve(View(), r.taasRef)
      case NoCredentials(reason) =>
        records := records[n := r.(status := Fail(r.status, Registered, reason, Text(reason, [], []), now))];
      case Credentials(_, token) =>
        if f.delete == NoFault || f.delete == AnswerLost {
          var answer := account.DeleteDomain(token, r.domain);
        }
        if f.delete == NoFault || f.delete == Refused || f.delete == Vanished {
          records := records - {n};
        } else {
          records := records[n := r.(status := Fail(r.status, Ready, CleanupFailed, Text(CleanupFailed, [], []), now))];
        }
    }

    /** One DNSRecord reconcile. */
    method ReconcileRecord(n: string, now: int, f: Faults)
      modifies this`records, account
      ensures View() == RecordPass(old(View()), n, now, f)
    {
      if n !in records {
        return;
      }
      var r := records[n];
      if r.deleting {
        if r.finalizer {
          UnregisterRecord(n, now, f);
        }
        return;
      }
      if !r.finalizer {
        records := records[n := r.(finalizer := true)];
        return;
      }
      match Resolve(View(), r.taasRef)
      case NoCredentials(reason) =>
        records := records[n := r.(status := Fail(r.status, Registered, reason, Text(reason, [], []), now))];
      case Credentials(taas, token) =>
        if taas.status.lastSync.None? {
          var waiting := Text(WaitingForBastions, [], []);
          records := records[n := r.(status := Fail(r.status, Registered, WaitingForBastions, waiting, now))];
          return;
        }
        var status := Work(token, taas.status.bastions, r, now, f);
        records := records[n := r.(status := status)];
    }

    // ---- deletions ----

    /** Deletes the listed records one by one. */
    method DeleteRecords(names: set<string>)
      modifies this`records
      ensures records == DeleteAll(old(records), names)
    {
      var todo := names;
      while todo != {}
        invariant todo <= names && records == DeleteAll(old(records), names - todo)
      {
        var n :| n in todo;
        DeleteOneMore(old(records), names - todo, n);
        assert names - (todo - {n}) == (names - todo) + {n};
        if n in records {
          if records[n].finalizer {
            records := records[n := records[n].(deleting := true)];
          } else {
            records := records - {n};
          }
        }
        todo := todo - {n};
      }
      assert names - todo == names;
    }

    // ---- AquaductTaaS ----

    /** The suspend loop: stops at the first bastion that cannot be named or suspended. */
    method SuspendServers(token: string, order: seq<string>, failing: set<string>) returns (ok: bool)
      modifies account
      ensures Suspended(account.View(), ok) == SuspendAll(old(account.View()), token, servers, order, failing)
    {
      ok := true;
      var i := 0;
      while i < |order| && ok
        invariant 0 <= i <= |order|
        invariant ok ==>
            Suspended(account.View(), true) == SuspendAll(old(account.View()), token, servers, order[..i], failing)
        invariant !ok ==>
            Suspended(account.View(), false) == SuspendAll(old(account.View()), token, servers, order, failing)
      {
        assert order[..i + 1][..i] == order[..i];
        var n := order[i];
        if n in servers {
          var id := servers[n].bastionID;
          var done := false;
          if id != "" && id !in failing {
            done := account.SuspendBastion(token, id);
          }
          ok := done;
          if !ok {
            SuspendStops(old(account.View()), token, servers, order, failing, i + 1);
          }
        }
        i := i + 1;
      }
      assert ok ==> order[..i] == order;
    }

    /** releaseSecretFinalizer */
    method ReleaseSecret(t: string, secret: string)
      modifies this`secrets
      ensures secrets == Release(old(View()), t, secret)
    {
      if secret !in secrets || !secrets[secret].inUse {
        return;
      }
      var todo := taases.Keys;
      while todo != {}
        invariant todo <= taases.Keys && secrets == old(secrets)
        invariant forall o :: o in taases && o !in todo ==>
          o == t || taases[o].deleting || taases[o].secretRef.None? || taases[o].secretRef.value.name != secret
      {
        var o :| o in todo;
        if o != t && !taases[o].deleting && taases[o].secretRef.Some? && taases[o].secretRef.value.name == secret {
          return;
        }
        todo := todo - {o};
      }
      if secrets[secret].deleting {
        secrets := secrets - {secret};
      } else {
        secrets := secrets[secret := secrets[secret].(inUse := false)];
      }
    }

    /** failure() */
    method MarkUnavailable(t: string, reason: Reason, now: int)
      requires t in taases
      modifies this`taases
      ensures View() == Unavailable(old(View()), t, reason, now)
    {
      taases := taases[t := taases[t].(status := FailedStatus(taases[t].status, reason, now))];
    }

    /** handleDeletion: records, then bastions, then the Secret, then the object. */
    method HandleDeletion(t: string, now: int, order: seq<string>, f: TaaSFaults)
      requires t in taases && Lists(order, OwnedServers(View(), t))
      modifies this, account
      ensures View() == TaaSDeletion(old(View()), t, now, order, f)
    {
      var taas := taases[t];
      if !taas.finalizer {
        return;
      }
      if taas.secretRef.None? {
        MarkUnavailable(t, SpecInvalid, now);
        return;
      }
      var token := TokenOf(View(), taas);
      if token.None? {
        MarkUnavailable(t, SecretError, now);
        return;
      }
      var owned := OwnedRecords(View(), t);
      if owned != {} {
        DeleteRecords(set n | n in owned && !records[n].deleting);
        return;
      }
      var ok := SuspendServers(token.value, order, f.suspend);
      if !ok {
        MarkUnavailable(t, SuspendError, now);
        return;
      }
      ReleaseSecret(t, taas.secretRef.value.name);
      taases := taases - {t};
    }

    /** The upserts of syncWeftServers. */
    method UpsertAll(t: string, bs: seq<Bastion>, desired: set<string>) returns (ok: bool)
      modifies this`servers
      ensures Synced(servers, ok) == UpsertServers(old(servers), t, bs, desired)
    {
      ok := true;
      var i := 0;
      while i < |bs| && ok
        invariant 0 <= i <= |bs|
        invariant ok ==> Synced(servers, true) == UpsertServers(old(servers), t, bs[..i], desired)
        invariant !ok ==> Synced(servers, false) == UpsertServers(old(servers), t, bs, desired)
      {
        assert bs[..i + 1][..i] == bs[..i];
        var b := bs[i];
        if b.name in desired {
          if b.name in servers && servers[b.name].owner != "" && servers[b.name].owner != t {
            ok := false;
            UpsertStops(old(servers), t, bs, desired, i + 1);
          } else {
            servers := servers[b.name := WeftServer(t, b.id)];
          }
        }
        i := i + 1;
      }
      assert ok ==> bs[..i] == bs;
    }

    /** syncWeftServers */
    method SyncWeftServers(t: string, bs: seq<Bastion>) returns (ok: bool, names: seq<string>)
      modifies this`servers
      ensures Synced(servers, ok) == Mirror(old(servers), t, bs)
      ensures ok ==> names == NamesOf(Eligible(bs))
    {
      var desired: set<string>;
      ok, desired, names := CheckServers(bs);
      if !ok {
        return;
      }
      ok := UpsertAll(t, bs, desired);
      if !ok {
        return;
      }
      ghost var upserted := servers;
      var todo := set n | n in servers && servers[n].owner == t;
      while todo != {}
        invariant forall n :: n in todo ==> n in upserted && upserted[n].owner == t
        invariant forall n :: n in upserted && upserted[n].owner == t && n !in todo ==> (n in servers <==> n in desired)
        invariant forall n :: n in upserted && (upserted[n].owner != t || n in todo) ==> n in servers
        invariant forall n :: n in servers ==> n in upserted && servers[n] == upserted[n]
      {
        var n :| n in todo;
        if n !in desired {
          servers := servers - {n};
        }
        todo := todo - {n};
      }
    }

    /** One AquaductTaaS reconcile. */
    method ReconcileTaaS(t: string, now: int, order: seq<string>, f: TaaSFaults)
      requires Lists(order, OwnedServers(View(), t))
      modifies this, account
      ensures View() == TaaSPass(old(View()), t, now, order, f)
    {
      if t !in taases {
        return;
      }
      var taas := taases[t];
      if taas.deleting {
        HandleDeletion(t, now, order, f);
        return;
      }
      if !taas.finalizer {
        taases := taases[t := taas.(finalizer := true)];
        return;
      }
      if taas.secretRef.None? {
        MarkUnavailable(t, SpecInvalid, now);
        return;
      }
      var token := TokenOf(View(), taas);
      if token.None? {
        MarkUnavailable(t, SecretError, now);
        return;
      }
      var secret := taas.secretRef.value.name;
      secrets := secrets[secret := secrets[secret].(inUse := true)];
      if f.list {
        MarkUnavailable(t, APIError, now);
        return;
      }
      var bs := BastionsOf(account.View(), token.value);
      var ok, names := SyncWeftServers(t, bs);
      if !ok {
        MarkUnavailable(t, SyncError, now);
        return;
      }
      taases := taases[t := taas.(status := Publish(taas.status, bs, SortStrings(names), now), synced := true)];
    }

    // ---- Gateway ----

    /** The stamping loop of reconcileDNSRecords. */
    method StampRecords(
      d: Digest, t: string, bs: seq<Bastion>, gw: GatewayKey, specs: seq<HostSpec>)
      returns (expected: set<string>, ok: bool)
      modifies this`records
      ensures Stamped(records, expected, ok) == Stamp(d, old(records), t, bs, gw, specs)
    {
      expected, ok := {}, true;
      var i := 0;
      while i < |specs| && ok
        invariant 0 <= i <= |specs|
        invariant ok ==> Stamped(records, expected, true) == Stamp(d, old(records), t, bs, gw, specs[..i])
        invariant !ok ==> Stamped(records, expected, false) == Stamp(d, old(records), t, bs, gw, specs)
      {
        assert specs[..i + 1][..i] == specs[..i];
        var pin := PinFor(d, bs, gw, specs[i]);
        if pin.Some? {
          var name := d.name(gw, specs[i].host);
          var written := Upsert(records, name, specs[i].host, t, pin.value, gw);
          if written.None? {
            ok := false;
            StampStops(d, old(records), t, bs, gw, specs, i + 1);
          } else {
            records := written.value;
            expected := expected + {name};
          }
        }
        i := i + 1;
      }
      assert ok ==> specs[..i] == specs;
    }

    method ReconcileGateway(d: Digest, gw: GatewayKey, ls: seq<Listener>)
      modifies this`records
      ensures View() == GatewayPass(d, old(View()), gw, ls)
    {
      if |taases.Keys| != 1 {
        return;
      }
      var t :| t in taases.Keys;
      OnlyOne(taases.Keys, t);
      var specs := ClassifyListenerHostnames(ls);
      var expected, ok := StampRecords(d, t, taases[t].status.bastions, gw, specs);
      if !ok {
        return;
      }
      DeleteRecords(Labelled(records, gw) - expected);
    }

    method CleanupGateway(gw: GatewayKey)
      modifies this`records
      ensures View() == GatewayCleanup(old(View()), gw)
    {
      if |taases.Keys| != 1 {
        return;
      }
      var t :| t in taases.Keys;
      OnlyOne(taases.Keys, t);
      DeleteRecords(Labelled(records, gw));
    }
  }

  lemma OnlyOne(s: set<string>, t: string)
    requires |s| == 1 && t in s
    ensures s == {t}
  {
    assert s == {t} + (s - {t});
    assert |s - {t}| == 0;
  }

  lemma {:induction false} SuspendStops(
    remote: Server, token: string, servers: map<string, WeftServer>, order: seq<string>, failing: set<string>, i: nat)
    requires i <= |order| && !SuspendAll(remote, token, servers, order[..i], failing).ok
    ensures SuspendAll(remote, token, servers, order, failing) ==
        SuspendAll(remote, token, servers, order[..i], failing)
  {
    if i == |order| {
      assert order[..i] == order;
    } else {
      var k := |order| - 1;
      assert order[..k][..i] == order[..i];
      SuspendStops(remote, token, servers, order[..k], failing, i);
    }
  }

  lemma {:induction false} UpsertStops(
    servers: map<string, WeftServer>, t: string, bs: seq<Bastion>, desired: set<string>, i: nat)
    requires i <= |bs| && !UpsertServers(servers, t, bs[..i], desired).ok
    ensures UpsertServers(servers, t, bs, desired) == UpsertServers(servers, t, bs[..i], desired)
  {
    if i == |bs| {
      assert bs[..i] == bs;
    } else {
      var k := |bs| - 1;
      assert bs[..k][..i] == bs[..i];
      UpsertStops(servers, t, bs[..k], desired, i);
    }
  }

  lemma {:induction false} StampStops(
    d: Digest, rs: Records, t: string, bs: seq<Bastion>, gw: GatewayKey, specs: seq<HostSpec>, i: nat)
    requires i <= |specs| && !Stamp(d, rs, t, bs, gw, specs[..i]).ok
    ensures Stamp(d, rs, t, bs, gw, specs) == Stamp(d, rs, t, bs, gw, specs[..i])
  {
    if i == |specs| {
      assert specs[..i] == specs;
    } else {
      var k := |specs| - 1;
      assert specs[..k][..i] == specs[..i];
      StampStops(d, rs, t, bs, gw, specs[..k], i);
    }
  }
}
