/** Deleting an AquaductTaaS finishes: records drain, bastions are suspended, then the object goes. */
module Drain {
  import opened Api
  import opened Remote
  import opened DnsRecord
  import opened Gateway
  import opened Cluster
  import opened Teardown

  // ---- every mirrored server carries a bastion id ----

  ghost predicate ServersNamed(servers: map<string, WeftServer>)
  {
    forall n :: n in servers ==> servers[n].bastionID != ""
  }

  lemma {:induction false} UpsertsNamed(
    servers: map<string, WeftServer>, t: string, bs: seq<Bastion>, desired: set<string>)
    requires ServersNamed(servers) && forall i :: 0 <= i < |bs| ==> bs[i].id != ""
    ensures ServersNamed(UpsertServers(servers, t, bs, desired).servers)
  {
    if bs != [] { UpsertsNamed(servers, t, bs[..|bs| - 1], desired); }
  }

  lemma SyncNamed(st: State, t: string, token: string, now: int, f: TaaSFaults)
    requires ServersNamed(st.servers) && t in st.taases
    ensures ServersNamed(TaaSSync(st, t, token, now, f).servers)
  {
    var bs := BastionsOf(st.remote, token);
    if Acceptable(bs) { UpsertsNamed(st.servers, t, bs, Desired(bs)); }
  }

  lemma StepKeepsServersNamed(d: Digest, st: State, a: Action)
    requires ServersNamed(st.servers)
    ensures ServersNamed(Step(d, st, a).servers)
  {
    match a
    case PassTaaS(t, now, order, f) =>
      if t in st.taases {
        var token := TokenOf(st, st.taases[t]);
        if token.Some? { SyncNamed(st, t, token.value, now, f); }
      }
    case PassRecord(n, now, f) => RecordPassFrame(st, n, now, f);
    case _ =>
  }

  /** In every run every mirrored server carries the id of a bastion: an answer with an empty one is refused whole. */
  lemma {:induction false} ServersStayNamed(d: Digest, st: State, steps: seq<Action>)
    requires Initial(st)
    ensures ServersNamed(Run(d, st, steps).servers)
  {
    if steps != [] {
      var k := |steps| - 1;
      ServersStayNamed(d, st, steps[..k]);
      StepKeepsServersNamed(d, Run(d, st, steps[..k]), steps[k]);
    }
  }

  // ---- being torn down ----

  /** No other AquaductTaaS refers to the Secret of `t`. */
  ghost predicate SoleOwner(st: State, t: string)
    requires t in st.taases && st.taases[t].secretRef.Some?
  {
    forall o :: o in st.taases && o != t && st.taases[o].secretRef.Some? ==>
      st.taases[o].secretRef.value.name != st.taases[t].secretRef.value.name
  }

  /** The account knows every mirrored bastion of `t`. */
  ghost predicate MirrorsKnown(st: State, t: string, token: string) {
    forall n :: n in OwnedServers(st, t) ==> KnowsBastion(st.remote, token, st.servers[n].bastionID)
  }

  /** `t` is being deleted, it and its Secret are held, and every mirrored bastion can be named to the account. */
  ghost predicate TearingDown(st: State, t: string, token: string) {
    && t != "" && t in st.taases && st.taases[t].deleting && Anchored(st, t, token) && SoleOwner(st, t)
    && (forall n :: n in st.records && st.records[n].deleting ==> st.records[n].finalizer)
    && ServersNamed(st.servers) && MirrorsKnown(st, t, token)
  }

  /** A reachable AquaductTaaS that has synced and is deleted is being torn down, if the account knows its bastions. */
  lemma TeardownBegins(d: Digest, st: State, steps: seq<Action>, t: string) returns (token: string)
    requires Initial(st) && AllowedRun(d, st, steps)
    requires t in Run(d, st, steps).taases && Run(d, st, steps).taases[t].deleting
    requires Run(d, st, steps).taases[t].status.lastSync.Some?
    ensures TokenOf(Run(d, st, steps), Run(d, st, steps).taases[t]) == Some(token)
    ensures MirrorsKnown(Run(d, st, steps), t, token) <==> TearingDown(Run(d, st, steps), t, token)
  {
    var end := Run(d, st, steps);
    NoOrphanedRegistration(d, st, steps);
    ServersStayNamed(d, st, steps);
    token :| Anchored(end, t, token);
  }

  // ---- what may happen meanwhile ----

  /** An object created or pointed anew: not `t` itself, and not onto the Secret of `t`. */
  ghost predicate LeavesAlone(st: State, t: string, name: string, ref: Option<SecretRef>) {
    name != t
      && (t in st.taases && ref.Some? && st.taases[t].secretRef.Some? ==>
           ref.value.name != st.taases[t].secretRef.value.name)
  }

  /**
   * Any step of users, controllers and other parties, failing or not, but one that adds a record
   * of `t`, creates `t` anew, touches its reference or Secret through another object, or makes the
   * account forget a bastion. `order` is what the API server lists for a pass over `t`.
   */
  ghost predicate DrainAction(d: Digest, st: State, t: string, token: string, a: Action) {
    && (a.CreateTaaS? || a.Retarget? ==> LeavesAlone(st, t, a.name, a.ref))
    && (t in st.taases ==>
          && (a.PassTaaS? && a.name == t ==> Lists(a.order, OwnedServers(st, t)))
          && (a.Elsewhere? ==> forall id :: KnowsBastion(st.remote, token, id) ==> KnowsBastion(a.remote, token, id))
          && OwnedRecords(Step(d, st, a), t) <= OwnedRecords(st, t))
  }

  /** A pass with something to do for the teardown of `t`, whose calls do not fail. */
  ghost predicate Pending(st: State, t: string, a: Action) {
    || (a.PassTaaS? && a.name == t && a.taasFaults.suspend == {} && t in st.taases
         && (OwnedRecords(st, t) == {} || Unmarked(st, t) != {}))
    || (a.PassRecord? && a.name in OwnedRecords(st, t) && st.records[a.name].deleting
         && a.faults.delete in {NoFault, Refused, Vanished})
  }

  /** Records not yet marked, records left, the object itself. */
  function Measure(st: State, t: string): nat {
    |Unmarked(st, t)| + |OwnedRecords(st, t)| + if t in st.taases then 1 else 0
  }

  lemma SubsetSize<T>(a: set<T>, b: set<T>)
    requires a <= b
    ensures |a| <= |b| && (a != b ==> |a| < |b|)
  {
    assert b == a + (b - a);
    assert |b| == |a| + |b - a|;
    if a != b { var x :| x in b - a; }
  }

  /** Unmarked and owned records only shrink, and so does the set of objects. */
  ghost predicate Shrinks(st: State, st': State, t: string) {
    && Unmarked(st', t) <= Unmarked(st, t) && OwnedRecords(st', t) <= OwnedRecords(st, t)
    && (t in st'.taases ==> t in st.taases)
  }

  lemma ShrinksMeasure(st: State, st': State, t: string)
    requires Shrinks(st, st', t)
    ensures Measure(st', t) <= Measure(st, t)
    ensures (Unmarked(st', t) != Unmarked(st, t) ==> Measure(st', t) < Measure(st, t))
    ensures (OwnedRecords(st', t) != OwnedRecords(st, t) ==> Measure(st', t) < Measure(st, t))
    ensures (t in st.taases && t !in st'.taases ==> Measure(st', t) < Measure(st, t))
  {
    SubsetSize(Unmarked(st', t), Unmarked(st, t));
    SubsetSize(OwnedRecords(st', t), OwnedRecords(st, t));
  }

  // ---- suspending ----

  /** The loop changes which bastions are suspended, not which an account knows. */
  lemma {:induction false} SuspendAllKeepsKnown(
    remote: Server, token: string, servers: map<string, WeftServer>, names: seq<string>, failing: set<string>,
    account: string)
    ensures forall id :: KnowsBastion(SuspendAll(remote, token, servers, names, failing).remote, account, id) <==>
        KnowsBastion(remote, account, id)
  {
    if names != [] {
      var k := |names| - 1;
      SuspendAllKeepsKnown(remote, token, servers, names[..k], failing, account);
      var s := SuspendAll(remote, token, servers, names[..k], failing);
      if names[k] in servers && KnowsBastion(s.remote, token, servers[names[k]].bastionID) {
        SuspendKeepsKnown(s.remote, token, servers[names[k]].bastionID, account);
      }
    }
  }

  lemma SuspendKeepsKnown(s: Server, token: string, id: string, account: string)
    requires KnowsBastion(s, token, id)
    ensures forall x :: KnowsBastion(Suspend(s, token, id), account, x) <==> KnowsBastion(s, account, x)
  {
    SuspendEffect(s, token, id);
    if account != token { assert BastionsOf(Suspend(s, token, id), account) == BastionsOf(s, account); }
  }

  /** The server called `n`, if there is one, can be suspended. */
  ghost predicate Suspendable(
    remote: Server, token: string, servers: map<string, WeftServer>, failing: set<string>, n: string)
  {
    n in servers ==>
      servers[n].bastionID != "" && servers[n].bastionID !in failing
        && KnowsBastion(remote, token, servers[n].bastionID)
  }

  /** The suspend loop gets through exactly when every listed server can be named, is known, and no call fails. */
  lemma {:induction false} SuspendAllExactly(
    remote: Server, token: string, servers: map<string, WeftServer>, names: seq<string>, failing: set<string>)
    ensures var s := SuspendAll(remote, token, servers, names, failing);
            && (s.ok <==> forall n :: n in names ==> Suspendable(remote, token, servers, failing, n))
            && (s.ok ==> forall n :: n in names && n in servers ==> IsSuspended(s.remote, token, servers[n].bastionID))
  {
    if names != [] {
      var k := |names| - 1;
      var n := names[k];
      SuspendAllExactly(remote, token, servers, names[..k], failing);
      SuspendAllKeepsKnown(remote, token, servers, names[..k], failing, token);
      assert names == names[..k] + [n];
      var s := SuspendAll(remote, token, servers, names[..k], failing);
      assert Suspendable(s.remote, token, servers, failing, n) <==> Suspendable(remote, token, servers, failing, n);
      if n in servers && Suspendable(s.remote, token, servers, failing, n) {
        SuspendEffect(s.remote, token, servers[n].bastionID);
      }
    }
  }

  /** A pass with no records left finishes, and every mirrored bastion is suspended first. */
  lemma LastPassFinishes(st: State, t: string, token: string, now: int, order: seq<string>, f: TaaSFaults)
    requires TearingDown(st, t, token) && OwnedRecords(st, t) == {} && Lists(order, OwnedServers(st, t))
        && f.suspend == {}
    ensures var st' := TaaSDeletion(st, t, now, order, f);
            && t !in st'.taases && st'.records == st.records && st'.servers == st.servers
            && forall n :: n in OwnedServers(st', t) ==> IsSuspended(st'.remote, token, st'.servers[n].bastionID)
  {
    SuspendAllExactly(st.remote, token, st.servers, order, {});
  }

  /**
   * When the last pass finishes, exactly: with no record left, the object goes if and only if every
   * listed server names a bastion the account knows and no suspend call fails.
   */
  lemma LastPassExactly(st: State, t: string, token: string, now: int, order: seq<string>, f: TaaSFaults)
    requires t in st.taases && st.taases[t].finalizer && TokenOf(st, st.taases[t]) == Some(token)
        && OwnedRecords(st, t) == {}
    ensures t !in TaaSDeletion(st, t, now, order, f).taases <==>
            forall n :: n in order ==> Suspendable(st.remote, token, st.servers, f.suspend, n)
  {
    SuspendAllExactly(st.remote, token, st.servers, order, f.suspend);
  }

  // ---- what keeps the teardown going ----

  /** The object, its Secret and its mirrored servers are as before, and the account knows no less. */
  ghost predicate Holds(st: State, st': State, t: string, token: string)
    requires t in st.taases && st.taases[t].secretRef.Some?
  {
    var s := st.taases[t].secretRef.value.name;
    && t in st'.taases && st'.taases[t].secretRef == st.taases[t].secretRef
    && st'.taases[t].deleting == st.taases[t].deleting && st'.taases[t].finalizer == st.taases[t].finalizer
    && s in st.secrets && s in st'.secrets && st'.secrets[s].data == st.secrets[s].data
       && (st.secrets[s].inUse ==> st'.secrets[s].inUse)
    && (forall n :: n in OwnedServers(st', t) ==> n in OwnedServers(st, t) && st'.servers[n] == st.servers[n])
    && (forall id :: KnowsBastion(st.remote, token, id) ==> KnowsBastion(st'.remote, token, id))
  }

  lemma StillTearingDown(st: State, st': State, t: string, token: string)
    requires TearingDown(st, t, token) && Holds(st, st', t, token) && SoleOwner(st', t) && ServersNamed(st'.servers)
    requires forall n :: n in st'.records && st'.records[n].deleting ==> st'.records[n].finalizer
    ensures TearingDown(st', t, token)
  {
  }

  /** The drain goes on: nothing was added, and `t` is gone or still being torn down. */
  ghost predicate GoesOn(st: State, st': State, t: string, token: string) {
    Shrinks(st, st', t) && (t in st'.taases ==> TearingDown(st', t, token))
  }

  lemma UnavailableStep(st: State, t: string, token: string, o: string, reason: Reason, now: int)
    requires TearingDown(st, t, token) && o in st.taases
    ensures GoesOn(st, Unavailable(st, o, reason, now), t, token)
  {
    StillTearingDown(st, Unavailable(st, o, reason, now), t, token);
  }

  lemma DeleteRecordsStep(st: State, t: string, token: string, names: set<string>)
    requires TearingDown(st, t, token)
    ensures GoesOn(st, RecordsDeleted(st, names), t, token)
  {
    StillTearingDown(st, RecordsDeleted(st, names), t, token);
  }

  lemma RemoteStep(st: State, t: string, token: string, remote: Server)
    requires TearingDown(st, t, token)
    requires forall id :: KnowsBastion(st.remote, token, id) ==> KnowsBastion(remote, token, id)
    ensures GoesOn(st, st.(remote := remote), t, token)
  {
    StillTearingDown(st, st.(remote := remote), t, token);
  }

  // ---- passes over AquaductTaaS objects ----

  lemma CascadeStep(st: State, t: string, token: string, now: int, order: seq<string>, f: TaaSFaults)
    requires TearingDown(st, t, token) && OwnedRecords(st, t) != {}
    ensures var st' := TaaSDeletion(st, t, now, order, f); GoesOn(st, st', t, token) && Unmarked(st', t) == {}
  {
    DeleteRecordsStep(st, t, token, Unmarked(st, t));
    assert TaaSDeletion(st, t, now, order, f) == RecordsDeleted(st, Unmarked(st, t));
  }

  lemma OwnPassStep(st: State, t: string, token: string, now: int, order: seq<string>, f: TaaSFaults)
    requires TearingDown(st, t, token) && Lists(order, OwnedServers(st, t))
    ensures var st' := TaaSPass(st, t, now, order, f);
            && GoesOn(st, st', t, token)
            && (Pending(st, t, PassTaaS(t, now, order, f)) ==> Measure(st', t) < Measure(st, t))
  {
    var st' := TaaSPass(st, t, now, order, f);
    if OwnedRecords(st, t) != {} {
      CascadeStep(st, t, token, now, order, f);
    } else {
      var s := SuspendAll(st.remote, token, st.servers, order, f.suspend);
      SuspendAllKeepsKnown(st.remote, token, st.servers, order, f.suspend, token);
      RemoteStep(st, t, token, s.remote);
      UnavailableStep(st.(remote := s.remote), t, token, t, SuspendError, now);
      if f.suspend == {} { LastPassFinishes(st, t, token, now, order, f); }
    }
    ShrinksMeasure(st, st', t);
  }

  lemma {:induction false} UpsertsKeepOthers(
    servers: map<string, WeftServer>, o: string, bs: seq<Bastion>, desired: set<string>, t: string)
    requires t != o && t != ""
    ensures var s := UpsertServers(servers, o, bs, desired).servers;
            forall n :: n in s && s[n].owner == t ==> n in servers && s[n] == servers[n]
  {
    if bs != [] { UpsertsKeepOthers(servers, o, bs[..|bs| - 1], desired, t); }
  }

  lemma SyncKeepsOthers(st: State, o: string, token: string, now: int, f: TaaSFaults, t: string)
    requires t != o && t != "" && o in st.taases
    ensures var s := TaaSSync(st, o, token, now, f).servers;
            forall n :: n in s && s[n].owner == t ==> n in st.servers && s[n] == st.servers[n]
  {
    var bs := BastionsOf(st.remote, token);
    UpsertsKeepOthers(st.servers, o, bs, Desired(bs), t);
  }

  lemma OtherSyncStep(st: State, t: string, token: string, o: string, now: int, order: seq<string>, f: TaaSFaults)
    requires TearingDown(st, t, token) && o in st.taases && o != t && !st.taases[o].deleting
    ensures GoesOn(st, TaaSPass(st, o, now, order, f), t, token)
  {
    var other, st' := TokenOf(st, st.taases[o]), TaaSPass(st, o, now, order, f);
    UnavailableStep(st, t, token, o, NoToken(st.taases[o]), now);
    if other.Some? {
      SyncKeepsOthers(st, o, other.value, now, f, t);
      SyncNamed(st, o, other.value, now, f);
    }
    if !st.taases[o].finalizer || other.Some? { StillTearingDown(st, st', t, token); }
  }

  lemma OtherGoneStep(st: State, t: string, token: string, o: string, remote: Server)
    requires TearingDown(st, t, token) && o in st.taases && o != t && st.taases[o].secretRef.Some?
    requires forall id :: KnowsBastion(st.remote, token, id) ==> KnowsBastion(remote, token, id)
    ensures GoesOn(st, Gone(st, o, remote), t, token)
  {
    StillTearingDown(st, Gone(st, o, remote), t, token);
  }

  lemma OtherDeletionStep(st: State, t: string, token: string, o: string, now: int, order: seq<string>, f: TaaSFaults)
    requires TearingDown(st, t, token) && o in st.taases && o != t
    ensures GoesOn(st, TaaSDeletion(st, o, now, order, f), t, token)
  {
    var taas := st.taases[o];
    var other := TokenOf(st, taas);
    UnavailableStep(st, t, token, o, NoToken(taas), now);
    if other.Some? {
      DeleteRecordsStep(st, t, token, Unmarked(st, o));
      SuspendAllKeepsKnown(st.remote, other.value, st.servers, order, f.suspend, token);
      var remote := SuspendAll(st.remote, other.value, st.servers, order, f.suspend).remote;
      RemoteStep(st, t, token, remote);
      UnavailableStep(st.(remote := remote), t, token, o, SuspendError, now);
      OtherGoneStep(st, t, token, o, remote);
    }
  }

  // ---- passes over records ----

  /** A record pass keeps everything but the record itself and the domain table. */
  lemma RecordPassShape(st: State, n: string, now: int, f: Faults)
    requires n in st.records
    ensures var st', r := RecordPass(st, n, now, f), st.records[n];
            && st'.secrets == st.secrets && st'.taases == st.taases && st'.servers == st.servers
            && (forall m :: m != n ==>
                 (m in st'.records <==> m in st.records) && (m in st.records ==> st'.records[m] == st.records[m]))
            && (n in st'.records ==>
                 st'.records[n].taasRef == r.taasRef && st'.records[n].deleting == r.deleting
                   && (r.finalizer ==> st'.records[n].finalizer))
  {
  }

  lemma RecordPassKeepsBastions(st: State, n: string, now: int, f: Faults)
    requires n in st.records
    ensures RecordPass(st, n, now, f).remote.bastions == st.remote.bastions
  {
    var r := st.records[n];
    var c := Resolve(st, r.taasRef);
    if c.Credentials? { WorkingPassWrites(st.remote, c.token, c.taas.status.bastions, r, now, f); }
  }

  lemma RecordStep(st: State, t: string, token: string, n: string, now: int, f: Faults)
    requires TearingDown(st, t, token) && n in st.records
    ensures GoesOn(st, RecordPass(st, n, now, f), t, token)
  {
    var st' := RecordPass(st, n, now, f);
    RecordPassShape(st, n, now, f);
    RecordPassKeepsBastions(st, n, now, f);
    assert BastionsOf(st'.remote, token) == BastionsOf(st.remote, token);
    StillTearingDown(st, st', t, token);
  }

  lemma PendingRecordGoes(st: State, t: string, token: string, n: string, now: int, f: Faults)
    requires TearingDown(st, t, token) && Pending(st, t, PassRecord(n, now, f))
    ensures n !in OwnedRecords(RecordPass(st, n, now, f), t)
  {
    assert Resolve(st, t).Credentials?;
  }

  // ---- Gateway passes ----

  /** A Gateway pass stamps a record of `t` that was not there: Gateways do not look whether `t` is being deleted. */
  ghost predicate GatewayAdds(d: Digest, st: State, t: string, gw: GatewayKey, ls: seq<Listener>) {
    && Singleton(st) == Some(t)
    && !(Stamp(d, st.records, t, st.taases[t].status.bastions, gw, Classify(ls)).expected <= OwnedRecords(st, t))
  }

  lemma {:induction false} StampExpected(
    d: Digest, rs: Records, taas: string, bs: seq<Bastion>, gw: GatewayKey, specs: seq<HostSpec>)
    ensures var s := Stamp(d, rs, taas, bs, gw, specs);
            forall n :: n in s.records && s.records[n].taasRef == taas <==>
              n in s.expected || (n in rs && rs[n].taasRef == taas)
  {
    if specs != [] { StampExpected(d, rs, taas, bs, gw, specs[..|specs| - 1]); }
  }

  lemma {:induction false} StampKeepsMarks(
    d: Digest, rs: Records, taas: string, bs: seq<Bastion>, gw: GatewayKey, specs: seq<HostSpec>)
    ensures var rs' := Stamp(d, rs, taas, bs, gw, specs).records;
            forall n :: n in rs' && rs'[n].deleting ==> n in rs && rs[n].deleting && rs'[n].finalizer == rs[n].finalizer
    ensures var rs' := Stamp(d, rs, taas, bs, gw, specs).records;
            forall n :: n in rs && rs[n].deleting ==> n in rs' && rs'[n].deleting
  {
    if specs != [] { StampKeepsMarks(d, rs, taas, bs, gw, specs[..|specs| - 1]); }
  }

  lemma GatewayStep(d: Digest, st: State, t: string, token: string, gw: GatewayKey, ls: seq<Listener>)
    requires TearingDown(st, t, token)
    ensures OwnedRecords(GatewayPass(d, st, gw, ls), t) <= OwnedRecords(st, t) <==> !GatewayAdds(d, st, t, gw, ls)
    ensures !GatewayAdds(d, st, t, gw, ls) ==> GoesOn(st, GatewayPass(d, st, gw, ls), t, token)
  {
    if Singleton(st).Some? {
      assert Singleton(st).value in st.taases.Keys && Singleton(st) == Some(t);
      var bs, specs := st.taases[t].status.bastions, Classify(ls);
      var s := Stamp(d, st.records, t, bs, gw, specs);
      StampExpected(d, st.records, t, bs, gw, specs);
      StampKeepsMarks(d, st.records, t, bs, gw, specs);
      StillTearingDown(st, GatewayPass(d, st, gw, ls), t, token);
    }
  }

  /**
   * When a Gateway pass adds a record of a deleting AquaductTaaS, exactly: an error-free one does
   * if and only if `t` is the only AquaductTaaS and some hostname the Gateway wants a record for
   * has none of `t`.
   */
  lemma GatewayAddsExactly(d: Digest, st: State, t: string, gw: GatewayKey, ls: seq<Listener>)
    requires InjectiveNames(d) && t in st.taases
    requires Reconciled(d, st.records, t, st.taases[t].status.bastions, gw, ls).ok
    ensures GatewayAdds(d, st, t, gw, ls) <==>
            && st.taases.Keys == {t}
            && exists h :: Wanted(st.taases[t].status.bastions, ls, h) && d.name(gw, h) !in OwnedRecords(st, t)
  {
    var bs := st.taases[t].status.bastions;
    var s := Stamp(d, st.records, t, bs, gw, Classify(ls));
    ClassifiedSpecs(d, bs, gw, ls);
    StampEffect(d, st.records, t, bs, gw, Classify(ls));
    forall h | Wanted(bs, ls, h) ensures d.name(gw, h) in s.expected {
      StampedForHost(d, st.records, t, bs, gw, ls, s, h);
    }
    forall n | n in s.expected ensures exists h :: Wanted(bs, ls, h) && n == d.name(gw, h) {
      ExpectedAreWanted(d, st.records, t, bs, gw, ls, s, n);
    }
    assert st.taases.Keys == {t} <==> Singleton(st) == Some(t);
  }

  // ---- any drain action ----

  lemma SecretCreatedStep(st: State, t: string, token: string, n: string, data: map<string, string>)
    requires TearingDown(st, t, token)
    ensures GoesOn(st, SecretCreated(st, n, data), t, token)
  {
    StillTearingDown(st, SecretCreated(st, n, data), t, token);
  }

  lemma SecretDeletedStep(st: State, t: string, token: string, n: string)
    requires TearingDown(st, t, token)
    ensures GoesOn(st, SecretDeleted(st, n), t, token)
  {
    StillTearingDown(st, SecretDeleted(st, n), t, token);
  }

  lemma TaaSCreatedStep(st: State, t: string, token: string, n: string, ref: Option<SecretRef>)
    requires TearingDown(st, t, token) && LeavesAlone(st, t, n, ref)
    ensures GoesOn(st, TaaSCreated(st, n, ref), t, token)
  {
    StillTearingDown(st, TaaSCreated(st, n, ref), t, token);
  }

  lemma RetargetedStep(st: State, t: string, token: string, n: string, ref: Option<SecretRef>)
    requires TearingDown(st, t, token) && LeavesAlone(st, t, n, ref)
    ensures GoesOn(st, Retargeted(st, n, ref), t, token)
  {
    StillTearingDown(st, Retargeted(st, n, ref), t, token);
  }

  lemma TaaSDeletedStep(st: State, t: string, token: string, n: string)
    requires TearingDown(st, t, token)
    ensures GoesOn(st, TaaSDeleted(st, n), t, token)
  {
    StillTearingDown(st, TaaSDeleted(st, n), t, token);
  }

  lemma RecordUserStep(
    st: State, t: string, token: string, n: string, domain: string, ref: string, targets: seq<string>)
    requires TearingDown(st, t, token)
        && OwnedRecords(RecordCreated(st, n, domain, ref, targets), t) <= OwnedRecords(st, t)
    ensures GoesOn(st, RecordCreated(st, n, domain, ref, targets), t, token)
  {
    StillTearingDown(st, RecordCreated(st, n, domain, ref, targets), t, token);
  }

  lemma CollectStep(st: State, t: string, token: string, n: string)
    requires TearingDown(st, t, token)
    ensures GoesOn(st, Collected(st, n), t, token)
  {
    StillTearingDown(st, Collected(st, n), t, token);
  }

  lemma DrainGoesOn(d: Digest, st: State, t: string, token: string, a: Action)
    requires TearingDown(st, t, token) && DrainAction(d, st, t, token, a)
    ensures GoesOn(st, Step(d, st, a), t, token)
  {
    match a
    case CreateSecret(n, data) => SecretCreatedStep(st, t, token, n, data);
    case DeleteSecret(n) => SecretDeletedStep(st, t, token, n);
    case CreateTaaS(n, ref) => TaaSCreatedStep(st, t, token, n, ref);
    case DeleteTaaS(n) => TaaSDeletedStep(st, t, token, n);
    case Retarget(n, ref) => RetargetedStep(st, t, token, n, ref);
    case CreateRecord(n, domain, ref, targets) => RecordUserStep(st, t, token, n, domain, ref, targets);
    case DeleteRecord(n) => DeleteRecordsStep(st, t, token, {n});
    case PassTaaS(o, now, order, f) =>
      if o == t { OwnPassStep(st, t, token, now, order, f); }
      else if o in st.taases && st.taases[o].deleting { OtherDeletionStep(st, t, token, o, now, order, f); }
      else if o in st.taases { OtherSyncStep(st, t, token, o, now, order, f); }
    case PassRecord(n, now, f) =>
      if n in st.records { RecordStep(st, t, token, n, now, f); }
    case PassGateway(gw, ls) => GatewayStep(d, st, t, token, gw, ls);
    case CleanGateway(gw) => DeleteRecordsStep(st, t, token, Labelled(st.records, gw));
    case CollectServer(n) => CollectStep(st, t, token, n);
    case Elsewhere(remote) => RemoteStep(st, t, token, remote);
  }

  /**
   * Only creating a record of `t`, by hand or from a Gateway, adds one; a Gateway pass does exactly when
   * GatewayAdds.
   */
  lemma AddsRecordExactly(d: Digest, st: State, t: string, token: string, a: Action)
    requires TearingDown(st, t, token) && (a.PassTaaS? && a.name == t ==> Lists(a.order, OwnedServers(st, t)))
    ensures OwnedRecords(Step(d, st, a), t) <= OwnedRecords(st, t) <==>
            && !(a.CreateRecord? && a.name !in st.records && a.taasRef == t)
            && !(a.PassGateway? && GatewayAdds(d, st, t, a.gateway, a.listeners))
  {
    match a
    case PassTaaS(o, now, order, f) =>
      if o == t { OwnPassStep(st, t, token, now, order, f); }
      else if o in st.taases && st.taases[o].deleting { OtherDeletionStep(st, t, token, o, now, order, f); }
    case PassRecord(n, now, f) =>
      if n in st.records { RecordStep(st, t, token, n, now, f); }
    case PassGateway(gw, ls) => GatewayStep(d, st, t, token, gw, ls);
    case CreateRecord(n, _, ref, _) =>
      assert n !in st.records && ref == t ==> n in OwnedRecords(Step(d, st, a), t);
    case _ =>
  }

  /**
   * Teardown makes progress. While `t` is being torn down no drain action raises the measure,
   * every pending pass lowers it, and afterwards `t` is gone or still being torn down.
   */
  lemma DrainStep(d: Digest, st: State, t: string, token: string, a: Action)
    requires TearingDown(st, t, token) && DrainAction(d, st, t, token, a)
    ensures var st' := Step(d, st, a);
            && (t in st'.taases ==> TearingDown(st', t, token))
            && Measure(st', t) <= Measure(st, t)
            && (Pending(st, t, a) ==> Measure(st', t) < Measure(st, t))
  {
    DrainGoesOn(d, st, t, token, a);
    ShrinksMeasure(st, Step(d, st, a), t);
    if Pending(st, t, a) {
      if a.PassTaaS? {
        OwnPassStep(st, t, token, a.now, a.order, a.taasFaults);
      } else {
        PendingRecordGoes(st, t, token, a.name, a.now, a.faults);
      }
    }
  }

  /** While `t` is still there, some pass is pending: the teardown is never stuck. */
  lemma NeverStuck(d: Digest, st: State, t: string, token: string, order: seq<string>, now: int) returns (a: Action)
    requires TearingDown(st, t, token) && Lists(order, OwnedServers(st, t))
    ensures DrainAction(d, st, t, token, a) && Pending(st, t, a)
  {
    if OwnedRecords(st, t) == {} || Unmarked(st, t) != {} {
      a := PassTaaS(t, now, order, NO_TAAS_FAULTS);
    } else {
      var n :| n in OwnedRecords(st, t);
      assert n !in Unmarked(st, t);
      a := PassRecord(n, now, NO_FAULTS);
    }
    AddsRecordExactly(d, st, t, token, a);
  }

  // ---- runs ----

  /** Every action of the run is a drain action. */
  ghost predicate DrainRun(d: Digest, st: State, t: string, token: string, steps: seq<Action>) {
    forall i :: 0 <= i < |steps| ==> DrainAction(d, Run(d, st, steps[..i]), t, token, steps[i])
  }

  /** How many passes of the run were pending when they ran. */
  ghost function PendingSteps(d: Digest, st: State, t: string, steps: seq<Action>): nat {
    if steps == [] then 0
    else
      var k := |steps| - 1;
      var before := Run(d, st, steps[..k]);
      PendingSteps(d, st, t, steps[..k]) + if t in before.taases && Pending(before, t, steps[k]) then 1 else 0
  }

  lemma StaysGone(d: Digest, st: State, t: string, token: string, a: Action)
    requires t !in st.taases && DrainAction(d, st, t, token, a)
    ensures t !in Step(d, st, a).taases
  {
    match a
    case PassRecord(n, now, f) => RecordPassFrame(st, n, now, f);
    case _ =>
  }

  /** `t` is gone, or still on its way with `used` of the measure spent. */
  ghost predicate OnTheWay(st: State, t: string, token: string, used: nat, total: nat) {
    used <= total && (t in st.taases ==> TearingDown(st, t, token) && used + Measure(st, t) <= total)
  }

  lemma DrainStaysOnTheWay(d: Digest, st: State, t: string, token: string, a: Action, used: nat, total: nat)
    requires OnTheWay(st, t, token, used, total) && DrainAction(d, st, t, token, a)
    ensures OnTheWay(Step(d, st, a), t, token, used + if t in st.taases && Pending(st, t, a) then 1 else 0, total)
  {
    if t in st.taases { DrainStep(d, st, t, token, a); } else { StaysGone(d, st, t, token, a); }
  }

  /**
   * Teardown drains. In any interleaving of drain actions, failing or not, no more than Measure of
   * the passes can be pending, and until `t` is gone it stays on its way; with NeverStuck, the only
   * end is `t` gone.
   */
  lemma {:induction false} DrainBound(d: Digest, st: State, t: string, token: string, steps: seq<Action>)
    requires TearingDown(st, t, token) && DrainRun(d, st, t, token, steps)
    ensures OnTheWay(Run(d, st, steps), t, token, PendingSteps(d, st, t, steps), Measure(st, t))
  {
    if steps != [] {
      var k := |steps| - 1;
      var prev := steps[..k];
      forall i | 0 <= i < |prev| ensures DrainAction(d, Run(d, st, prev[..i]), t, token, prev[i]) {
        assert prev[..i] == steps[..i];
      }
      DrainBound(d, st, t, token, prev);
      DrainStaysOnTheWay(d, Run(d, st, prev), t, token, steps[k], PendingSteps(d, st, t, prev), Measure(st, t));
    }
  }

  lemma {:induction false} ListingExists(names: set<string>) returns (order: seq<string>)
    ensures Lists(order, names)
    decreases |names|
  {
    order := [];
    if names != {} {
      var n :| n in names;
      order := ListingExists(names - {n});
      order := order + [n];
    }
  }

  lemma RunFirst(d: Digest, st: State, a: Action, steps: seq<Action>)
    ensures Run(d, st, [a] + steps) == Run(d, Step(d, st, a), steps)
  {
    RunAppend(d, st, [a], steps);
    RunOne(d, st, a);
  }

  lemma DrainRunFirst(d: Digest, st: State, t: string, token: string, a: Action, steps: seq<Action>)
    requires DrainAction(d, st, t, token, a) && DrainRun(d, Step(d, st, a), t, token, steps)
    ensures DrainRun(d, st, t, token, [a] + steps)
  {
    var all := [a] + steps;
    forall i | 0 <= i < |all| ensures DrainAction(d, Run(d, st, all[..i]), t, token, all[i]) {
      if i == 0 {
        assert all[..0] == [];
      } else {
        assert all[..i] == [a] + steps[..i - 1];
        RunFirst(d, st, a, steps[..i - 1]);
        assert all[i] == steps[i - 1];
      }
    }
  }

  /** Teardown can always be finished, in no more passes than the measure. */
  lemma {:induction false} DrainFinishes(
    d: Digest, st: State, t: string, token: string, now: int)
    returns (steps: seq<Action>)
    requires TearingDown(st, t, token)
    ensures DrainRun(d, st, t, token, steps) && |steps| <= Measure(st, t) && t !in Run(d, st, steps).taases
    decreases Measure(st, t)
  {
    var order := ListingExists(OwnedServers(st, t));
    var a := NeverStuck(d, st, t, token, order, now);
    DrainStep(d, st, t, token, a);
    var next := Step(d, st, a);
    steps := [];
    if t in next.taases { steps := DrainFinishes(d, next, t, token, now); }
    RunFirst(d, st, a, steps);
    DrainRunFirst(d, st, t, token, a, steps);
    steps := [a] + steps;
  }
}
