/** Runs of the whole system: users, the three controllers and the account server, in any interleaving. */
module Teardown {
  import opened Order
  import opened Api
  import opened Remote
  import opened DnsRecord
  import opened Gateway
  import opened Cluster

  datatype Action =
    | CreateSecret(name: string, data: map<string, string>)
    | DeleteSecret(name: string)
    | CreateTaaS(name: string, ref: Option<SecretRef>)
    | DeleteTaaS(name: string)
    | Retarget(name: string, ref: Option<SecretRef>)
    | CreateRecord(name: string, domain: string, taasRef: string, targets: seq<string>)
    | DeleteRecord(name: string)
    | PassTaaS(name: string, now: int, order: seq<string>, taasFaults: TaaSFaults)
    | PassRecord(name: string, now: int, faults: Faults)
    | PassGateway(gateway: GatewayKey, listeners: seq<Listener>)
    | CleanGateway(gateway: GatewayKey)
    | CollectServer(name: string)
    | Elsewhere(remote: Server)

  /** Anything other parties do to the account server, short of creating entries in this operator's name. */
  ghost predicate ByOthers(s: Server, s': Server) {
    forall d :: d in s'.domains && s'.domains[d].byOperator ==>
      d in s.domains && s.domains[d].byOperator && s'.domains[d].owner == s.domains[d].owner
  }

  function SecretCreated(st: State, n: string, data: map<string, string>): State {
    if n in st.secrets then st else st.(secrets := st.secrets[n := Secret(data, false, false)])
  }

  /** Deleting an object with a finalizer only marks it. */
  function SecretDeleted(st: State, n: string): State {
    if n !in st.secrets then st
    else if st.secrets[n].inUse then st.(secrets := st.secrets[n := st.secrets[n].(deleting := true)])
    else st.(secrets := st.secrets - {n})
  }

  function TaaSCreated(st: State, n: string, ref: Option<SecretRef>): State {
    if n in st.taases || n == "" then st
    else st.(taases := st.taases[n := TaaS(ref, false, false, TaaSStatus([], [], None, None), false)])
  }

  function TaaSDeleted(st: State, n: string): State {
    if n !in st.taases then st
    else if st.taases[n].finalizer then st.(taases := st.taases[n := st.taases[n].(deleting := true)])
    else st.(taases := st.taases - {n})
  }

  function Retargeted(st: State, n: string, ref: Option<SecretRef>): State {
    if n !in st.taases then st else st.(taases := st.taases[n := st.taases[n].(secretRef := ref, synced := false)])
  }

  function RecordCreated(st: State, n: string, domain: string, taasRef: string, targets: seq<string>): State {
    if n in st.records then st
    else st.(records := st.records[n := Record(domain, taasRef, targets, None, false, false, EMPTY_STATUS)])
  }

  function RecordsDeleted(st: State, names: set<string>): State { st.(records := DeleteAll(st.records, names)) }

  function Collected(st: State, n: string): State {
    if n in st.servers && st.servers[n].owner !in st.taases then st.(servers := st.servers - {n}) else st
  }

  ghost function Step(d: Digest, st: State, a: Action): State {
    match a
    case CreateSecret(n, data) => SecretCreated(st, n, data)
    case DeleteSecret(n) => SecretDeleted(st, n)
    case CreateTaaS(n, ref) => TaaSCreated(st, n, ref)
    case DeleteTaaS(n) => TaaSDeleted(st, n)
    case Retarget(n, ref) => Retargeted(st, n, ref)
    case CreateRecord(n, domain, taasRef, targets) => RecordCreated(st, n, domain, taasRef, targets)
    case DeleteRecord(n) => RecordsDeleted(st, {n})
    case PassTaaS(n, now, order, f) => TaaSPass(st, n, now, order, f)
    case PassRecord(n, now, f) => RecordPass(st, n, now, f)
    case PassGateway(gw, ls) => GatewayPass(d, st, gw, ls)
    case CleanGateway(gw) => GatewayCleanup(st, gw)
    case CollectServer(n) => Collected(st, n)
    case Elsewhere(remote) => if ByOthers(st.remote, remote) then st.(remote := remote) else st
  }

  ghost function Run(d: Digest, st: State, steps: seq<Action>): State {
    if steps == [] then st else Step(d, Run(d, st, steps[..|steps| - 1]), steps[|steps| - 1])
  }

  lemma {:induction false} RunIsFold(d: Digest, st: State, steps: seq<Action>)
    ensures Run(d, st, steps) == Fold((s, a) => Step(d, s, a), st, steps)
  {
    if steps != [] { RunIsFold(d, st, steps[..|steps| - 1]); }
  }

  lemma RunAppend(d: Digest, st: State, xs: seq<Action>, ys: seq<Action>)
    ensures Run(d, st, xs + ys) == Run(d, Run(d, st, xs), ys)
  {
    RunIsFold(d, st, xs + ys);
    RunIsFold(d, st, xs);
    RunIsFold(d, Run(d, st, xs), ys);
    FoldAppend((s, a) => Step(d, s, a), st, xs, ys);
  }

  lemma RunOne(d: Digest, st: State, a: Action)
    ensures Run(d, st, [a]) == Step(d, st, a)
  {
    assert [a][..0] == [];
  }

  /** An empty cluster and an account server this operator has never written to. */
  ghost predicate Initial(st: State) {
    && st.secrets == map[] && st.taases == map[] && st.records == map[] && st.servers == map[]
    && forall d :: d in st.remote.domains ==> !st.remote.domains[d].byOperator
  }

  // ---- Secret pinning, with any number of owners ----

  ghost predicate Pinned(st: State) {
    && (forall n :: n in st.secrets && st.secrets[n].deleting ==> st.secrets[n].inUse)
    && (forall t :: t in st.taases && st.taases[t].synced && !st.taases[t].deleting ==>
          && st.taases[t].secretRef.Some?
          && st.taases[t].secretRef.value.name in st.secrets && st.secrets[st.taases[t].secretRef.value.name].inUse)
  }

  /** A pass leaves every AquaductTaaS but its own alone, and of its own the reference. */
  lemma TaaSDeletionKeepsPinned(st: State, t: string, now: int, order: seq<string>, f: TaaSFaults)
    requires Pinned(st) && t in st.taases && st.taases[t].deleting
    ensures Pinned(TaaSDeletion(st, t, now, order, f))
  {
    var st' := TaaSDeletion(st, t, now, order, f);
    forall o | o in st'.taases && st'.taases[o].synced && !st'.taases[o].deleting
      ensures
        && st'.taases[o].secretRef.Some? && st'.taases[o].secretRef.value.name in st'.secrets
        && st'.secrets[st'.taases[o].secretRef.value.name].inUse
    {
      assert o != t && st'.taases[o] == st.taases[o];
    }
  }

  lemma TaaSPassKeepsPinned(st: State, t: string, now: int, order: seq<string>, f: TaaSFaults)
    requires Pinned(st)
    ensures Pinned(TaaSPass(st, t, now, order, f))
  {
    if t in st.taases && st.taases[t].deleting { TaaSDeletionKeepsPinned(st, t, now, order, f); }
  }

  lemma RecordPassFrame(st: State, n: string, now: int, f: Faults)
    ensures RecordPass(st, n, now, f).secrets == st.secrets && RecordPass(st, n, now, f).taases == st.taases
    ensures RecordPass(st, n, now, f).servers == st.servers
  {
  }

  lemma SecretStepsKeepPinned(st: State, n: string, data: map<string, string>)
    requires Pinned(st)
    ensures Pinned(SecretCreated(st, n, data)) && Pinned(SecretDeleted(st, n))
  {
  }

  lemma TaaSStepsKeepPinned(st: State, n: string, ref: Option<SecretRef>)
    requires Pinned(st)
    ensures Pinned(TaaSCreated(st, n, ref)) && Pinned(TaaSDeleted(st, n)) && Pinned(Retargeted(st, n, ref))
  {
  }

  lemma StepKeepsPinned(d: Digest, st: State, a: Action)
    requires Pinned(st)
    ensures Pinned(Step(d, st, a))
  {
    match a
    case CreateSecret(n, data) => SecretStepsKeepPinned(st, n, data);
    case DeleteSecret(n) => SecretStepsKeepPinned(st, n, map[]);
    case CreateTaaS(n, ref) => TaaSStepsKeepPinned(st, n, ref);
    case DeleteTaaS(n) => TaaSStepsKeepPinned(st, n, None);
    case Retarget(n, ref) => TaaSStepsKeepPinned(st, n, ref);
    case PassTaaS(n, now, order, f) => TaaSPassKeepsPinned(st, n, now, order, f);
    case PassRecord(n, now, f) => RecordPassFrame(st, n, now, f);
    case _ => assert Step(d, st, a).secrets == st.secrets && Step(d, st, a).taases == st.taases;
  }

  /**
   * Secret pinning. In every run, with any number of AquaductTaaS objects sharing Secrets and
   * changing their references: one that is not being deleted and has completed a sync with its
   * present reference finds that Secret still there, with the in-use finalizer.
   */
  lemma {:induction false} SecretsStayPinned(d: Digest, st: State, steps: seq<Action>)
    requires Initial(st)
    ensures Pinned(Run(d, st, steps))
  {
    if steps != [] {
      SecretsStayPinned(d, st, steps[..|steps| - 1]);
      StepKeepsPinned(d, Run(d, st, steps[..|steps| - 1]), steps[|steps| - 1]);
    }
  }

  // ---- no orphaned registration ----

  /** The AquaductTaaS and its Secret are held by their finalizers and give this token. */
  ghost predicate Anchored(st: State, t: string, token: string) {
    && t in st.taases && st.taases[t].finalizer && st.taases[t].secretRef.Some?
    && st.taases[t].secretRef.value.name in st.secrets && st.secrets[st.taases[t].secretRef.value.name].inUse
    && TokenOf(st, st.taases[t]) == Some(token)
  }

  /** A record that will unregister the domain: it holds its finalizer and can reach the account. */
  ghost predicate Guards(st: State, n: string, domain: string, account: string) {
    && n in st.records && st.records[n].domain == domain && st.records[n].finalizer
    && Anchored(st, st.records[n].taasRef, account)
  }

  ghost predicate Ours(st: State, domain: string) {
    domain in st.remote.domains && st.remote.domains[domain].byOperator
  }

  /** Every domain the operator wrote and the server still holds has a record that guards it. */
  ghost predicate NoOrphans(st: State) {
    forall domain :: Ours(st, domain) ==> exists n :: Guards(st, n, domain, st.remote.domains[domain].owner)
  }

  /** An AquaductTaaS that has ever synced is anchored. */
  ghost predicate SyncedAreAnchored(st: State) {
    forall t :: t in st.taases && st.taases[t].status.lastSync.Some? ==> exists token :: Anchored(st, t, token)
  }

  ghost predicate OneOwnerPerSecret(st: State) {
    forall t, o :: t in st.taases && o in st.taases && t != o ==>
      st.taases[t].secretRef.None? || st.taases[o].secretRef.None?
      || st.taases[t].secretRef.value.name != st.taases[o].secretRef.value.name
  }

  ghost predicate Kept(st: State) {
    && "" !in st.taases
    && (forall n :: n in st.records && st.records[n].deleting ==> st.records[n].finalizer)
    && (forall t :: t in st.taases && st.taases[t].deleting ==> st.taases[t].finalizer)
    && SyncedAreAnchored(st) && OneOwnerPerSecret(st)
  }

  ghost predicate Inv(st: State) { Kept(st) && NoOrphans(st) }

  /** The DELETE of a domain that really is ours is answered as somebody else's, or as missing. */
  ghost predicate RefusesOurDelete(st: State, a: Action) {
    && a.PassRecord? && (a.faults.delete == Refused || a.faults.delete == Vanished) && a.name in st.records
    && var r := st.records[a.name];
    && r.deleting && Ours(st, r.domain)
    && Resolve(st, r.taasRef).Credentials? && Resolve(st, r.taasRef).token == st.remote.domains[r.domain].owner
  }

  /**
   * What the claim asks of users and of the server: references stay, Secrets are not shared, our DELETEs are
   * not refused.
   */
  ghost predicate Allowed(st: State, a: Action) {
    && !a.Retarget?
    && (a.CreateTaaS? && a.ref.Some? ==>
          forall t :: t in st.taases && st.taases[t].secretRef.Some? ==>
            st.taases[t].secretRef.value.name != a.ref.value.name)
    && !RefusesOurDelete(st, a)
  }

  // ---- what a record pass does to the account server ----

  /** Only the entry of `domain` may have changed, and then it is ours. */
  ghost predicate WritesOnly(s: Server, s': Server, account: string, domain: string) {
    && s'.bastions == s.bastions
    && (forall d :: d != domain ==>
         (d in s'.domains <==> d in s.domains) && (d in s.domains ==> s'.domains[d] == s.domains[d]))
    && (s'.domains == s.domains || (domain in s'.domains && s'.domains[domain].owner == account))
  }

  lemma RegisterWrites(s: Server, account: string, domain: string, ids: seq<string>, f: Faults)
    ensures WritesOnly(s, Register(s, account, domain, ids, f).server, account, domain)
  {
  }

  lemma WorkingPassWrites(s: Server, account: string, bs: seq<Bastion>, r: Record, now: int, f: Faults)
    ensures WritesOnly(s, WorkingPass(s, account, bs, r, now, f).0, account, r.domain)
  {
    RegisterWrites(s, account, r.domain, Select(bs, r.targets).ids, f);
  }

  /** Guards survive when their record, AquaductTaaS and Secret do. */
  lemma GuardsSurvive(st: State, st': State)
    requires NoOrphans(st)
    requires forall n, domain, account :: Guards(st, n, domain, account) ==>
               Ours(st', domain) && st'.remote.domains[domain].owner == account ==> Guards(st', n, domain, account)
    requires forall domain :: Ours(st', domain) ==>
        Ours(st, domain) && st'.remote.domains[domain].owner == st.remote.domains[domain].owner
    ensures NoOrphans(st')
  {
    forall domain | Ours(st', domain) ensures exists n :: Guards(st', n, domain, st'.remote.domains[domain].owner) {
      var account := st.remote.domains[domain].owner;
      var n :| Guards(st, n, domain, account);
      assert Guards(st', n, domain, account);
    }
  }

  lemma AnchorsSurvive(st: State, st': State)
    requires SyncedAreAnchored(st)
    requires forall t :: t in st'.taases && st'.taases[t].status.lastSync.Some? ==>
               (t in st.taases && st.taases[t].status.lastSync.Some?) || exists token :: Anchored(st', t, token)
    requires forall t, token :: Anchored(st, t, token) && t in st'.taases ==> Anchored(st', t, token)
    ensures SyncedAreAnchored(st')
  {
    forall t | t in st'.taases && st'.taases[t].status.lastSync.Some? ensures exists token :: Anchored(st', t, token) {
      if t in st.taases && st.taases[t].status.lastSync.Some? {
        var token :| Anchored(st, t, token);
        assert Anchored(st', t, token);
      }
    }
  }

  /** Records keep what guarding rests on: domain, reference and finalizer. */
  ghost predicate RecordsKeep(rs: Records, rs': Records) {
    forall m :: m in rs ==>
      && m in rs' && rs'[m].domain == rs[m].domain && rs'[m].taasRef == rs[m].taasRef
      && (rs[m].finalizer ==> rs'[m].finalizer)
  }

  lemma GuardsKeep(st: State, st': State)
    requires st'.secrets == st.secrets && st'.taases == st.taases && RecordsKeep(st.records, st'.records)
    ensures forall n, domain, account :: Guards(st, n, domain, account) ==> Guards(st', n, domain, account)
    ensures forall t, token :: Anchored(st', t, token) <==> Anchored(st, t, token)
  {
    assert forall t, token :: Anchored(st', t, token) <==> Anchored(st, t, token);
  }

  /** A record that is anchored may write its own domain: it guards what it wrote. */
  lemma WritesKeepNoOrphans(st: State, st': State, n: string, account: string)
    requires NoOrphans(st) && n in st.records && st'.secrets == st.secrets && st'.taases == st.taases
        && RecordsKeep(st.records, st'.records)
    requires WritesOnly(st.remote, st'.remote, account, st.records[n].domain)
        && Guards(st, n, st.records[n].domain, account)
    ensures NoOrphans(st')
  {
    GuardsKeep(st, st');
    forall domain | Ours(st', domain) ensures exists m :: Guards(st', m, domain, st'.remote.domains[domain].owner) {
      if domain != st.records[n].domain || st'.remote.domains == st.remote.domains {
        assert Ours(st, domain);
        var m :| Guards(st, m, domain, st.remote.domains[domain].owner);
        assert Guards(st', m, domain, st.remote.domains[domain].owner);
      } else {
        assert Guards(st', n, domain, account);
      }
    }
  }

  /** A pass over a live record leaves the objects' shape alone. */
  lemma RecordWorkShape(st: State, n: string, now: int, f: Faults)
    requires n in st.records && !st.records[n].deleting
    ensures var st' := RecordPass(st, n, now, f);
            && st'.secrets == st.secrets && st'.taases == st.taases && RecordsKeep(st.records, st'.records)
            && (forall m :: m in st'.records ==> m in st.records && st'.records[m].deleting == st.records[m].deleting)
  {
  }

  /** It may write to the account of an AquaductTaaS that has synced, as a record with its finalizer. */
  lemma RecordWorkWrites(st: State, n: string, now: int, f: Faults)
    requires n in st.records && !st.records[n].deleting
    ensures var st', r := RecordPass(st, n, now, f), st.records[n];
            st'.remote != st.remote ==>
              && r.finalizer && r.taasRef in st.taases && st.taases[r.taasRef].status.lastSync.Some?
              && TokenOf(st, st.taases[r.taasRef]).Some?
              && WritesOnly(st.remote, st'.remote, TokenOf(st, st.taases[r.taasRef]).value, r.domain)
  {
    var r := st.records[n];
    var c := Resolve(st, r.taasRef);
    if r.finalizer && c.Credentials? { WorkingPassWrites(st.remote, c.token, c.taas.status.bastions, r, now, f); }
  }

  lemma RecordWorkKeepsInv(st: State, n: string, now: int, f: Faults)
    requires Inv(st) && n in st.records && !st.records[n].deleting
    ensures Inv(RecordPass(st, n, now, f))
  {
    RecordWorkShape(st, n, now, f);
    RecordWorkWrites(st, n, now, f);
    RecordShapeKeepsInv(st, RecordPass(st, n, now, f), n);
  }

  lemma RecordShapeKeepsInv(st: State, st': State, n: string)
    requires Inv(st) && n in st.records
    requires st'.secrets == st.secrets && st'.taases == st.taases && RecordsKeep(st.records, st'.records)
    requires forall m :: m in st'.records ==> m in st.records && st'.records[m].deleting == st.records[m].deleting
    requires st'.remote != st.remote ==>
               && st.records[n].finalizer && st.records[n].taasRef in st.taases
                  && st.taases[st.records[n].taasRef].status.lastSync.Some?
               && TokenOf(st, st.taases[st.records[n].taasRef]).Some?
               && WritesOnly(st.remote, st'.remote, TokenOf(st, st.taases[st.records[n].taasRef]).value,
                  st.records[n].domain)
    ensures Inv(st')
  {
    GuardsKeep(st, st');
    AnchorsSurvive(st, st');
    if st'.remote == st.remote {
      GuardsSurvive(st, st');
    } else {
      var token :| Anchored(st, st.records[n].taasRef, token);
      WritesKeepNoOrphans(st, st', n, token);
    }
  }

  lemma KeptFrame(st: State, st': State)
    requires Kept(st) && st'.secrets == st.secrets && st'.taases == st.taases
    requires forall n :: n in st'.records && st'.records[n].deleting ==> st'.records[n].finalizer
    ensures Kept(st')
  {
    assert forall t, token :: Anchored(st, t, token) <==> Anchored(st', t, token);
    AnchorsSurvive(st, st');
  }

  lemma RecordDeletionKeepsKept(st: State, n: string, now: int, f: Faults)
    requires Kept(st) && n in st.records
    ensures Kept(RecordDeletion(st, n, now, f))
  {
    KeptFrame(st, RecordDeletion(st, n, now, f));
  }

  lemma RecordDeletionKeepsInv(st: State, n: string, now: int, f: Faults)
    requires Inv(st) && n in st.records && st.records[n].deleting
    requires !RefusesOurDelete(st, PassRecord(n, now, f))
    ensures Inv(RecordDeletion(st, n, now, f))
  {
    var st' := RecordDeletion(st, n, now, f);
    RecordDeletionKeepsKept(st, n, now, f);
    assert forall t, token :: Anchored(st', t, token) <==> Anchored(st, t, token);
    forall m, domain, account | Guards(st, m, domain, account) && Ours(st', domain)
      && st'.remote.domains[domain].owner == account
      ensures Guards(st', m, domain, account)
    {
      if m == n {
        var c := Resolve(st, st.records[n].taasRef);
        assert c.Credentials? && c.token == account;
      }
    }
    AnchorsSurvive(st, st');
    GuardsSurvive(st, st');
  }

  // ---- the other steps ----

  lemma DeleteAllKeepsGuards(st: State, names: set<string>)
    ensures forall n, domain, account :: Guards(st, n, domain, account) ==>
              Guards(st.(records := DeleteAll(st.records, names)), n, domain, account)
  {
    var st' := st.(records := DeleteAll(st.records, names));
    assert forall t, token :: Anchored(st', t, token) <==> Anchored(st, t, token);
  }

  lemma DeleteAllKeepsInv(st: State, names: set<string>)
    requires Inv(st)
    ensures Inv(st.(records := DeleteAll(st.records, names)))
  {
    var st' := st.(records := DeleteAll(st.records, names));
    assert forall t, token :: Anchored(st', t, token) <==> Anchored(st, t, token);
    DeleteAllKeepsGuards(st, names);
    AnchorsSurvive(st, st');
    GuardsSurvive(st, st');
  }

  /** What a pass over a live AquaductTaaS may change: its own finalizer and status, its Secret's pin, the mirrors. */
  lemma TaaSWorkEffect(st: State, t: string, now: int, order: seq<string>, f: TaaSFaults)
    requires t in st.taases && !st.taases[t].deleting
    ensures var st' := TaaSPass(st, t, now, order, f);
            && st'.records == st.records && st'.remote == st.remote && st'.taases.Keys == st.taases.Keys
            && (forall o :: o in st.taases && o != t ==> st'.taases[o] == st.taases[o])
            && st'.taases[t].secretRef == st.taases[t].secretRef && !st'.taases[t].deleting
            && (st.taases[t].finalizer ==> st'.taases[t].finalizer)
            && (forall s :: s in st.secrets ==>
                 s in st'.secrets && st'.secrets[s].data == st.secrets[s].data
                   && (st.secrets[s].inUse ==> st'.secrets[s].inUse))
            && (st'.taases[t].status.lastSync.Some? && st.taases[t].status.lastSync.None? ==>
                  st'.taases[t].finalizer && TokenOf(st, st.taases[t]).Some?
                    && st'.secrets[st.taases[t].secretRef.value.name].inUse)
  {
  }

  lemma TaaSWorkKeepsInv(st: State, t: string, now: int, order: seq<string>, f: TaaSFaults)
    requires Inv(st) && t in st.taases && !st.taases[t].deleting
    ensures Inv(TaaSPass(st, t, now, order, f))
  {
    TaaSWorkEffect(st, t, now, order, f);
    TaaSWorkCarries(st, TaaSPass(st, t, now, order, f), t);
  }

  lemma TaaSWorkCarries(st: State, st': State, t: string)
    requires Inv(st) && t in st.taases
    requires st'.records == st.records && st'.remote == st.remote && st'.taases.Keys == st.taases.Keys
    requires forall o :: o in st.taases && o != t ==> st'.taases[o] == st.taases[o]
    requires st'.taases[t].secretRef == st.taases[t].secretRef && !st'.taases[t].deleting
    requires st.taases[t].finalizer ==> st'.taases[t].finalizer
    requires forall s :: s in st.secrets ==>
        s in st'.secrets && st'.secrets[s].data == st.secrets[s].data && (st.secrets[s].inUse ==> st'.secrets[s].inUse)
    requires st'.taases[t].status.lastSync.Some? && st.taases[t].status.lastSync.None? ==>
               st'.taases[t].finalizer && TokenOf(st, st.taases[t]).Some?
                 && st'.secrets[st.taases[t].secretRef.value.name].inUse
    ensures Inv(st')
  {
    if st'.taases[t].status.lastSync.Some? && st.taases[t].status.lastSync.None? {
      assert Anchored(st', t, TokenOf(st, st.taases[t]).value);
    }
    CarriesOver(st, st');
  }

  lemma {:induction false} SuspendAllKeepsDomains(
    remote: Server, token: string, servers: map<string, WeftServer>, names: seq<string>, failing: set<string>)
    ensures SuspendAll(remote, token, servers, names, failing).remote.domains == remote.domains
  {
    if names != [] { SuspendAllKeepsDomains(remote, token, servers, names[..|names| - 1], failing); }
  }

  /** With no record left that refers to `t`, `t` may go, and its Secret be released. */
  lemma TaaSGoneKeepsInv(st: State, t: string, remote: Server)
    requires Inv(st) && t in st.taases && st.taases[t].secretRef.Some?
    requires OwnedRecords(st, t) == {} && remote.domains == st.remote.domains
    ensures Inv(Gone(st, t, remote))
  {
    var st' := Gone(st, t, remote);
    assert forall o, tok :: Anchored(st, o, tok) && o != t ==> Anchored(st', o, tok);
    forall n, domain, account | Guards(st, n, domain, account) ensures Guards(st', n, domain, account) {
      assert n !in OwnedRecords(st, t);
    }
    AnchorsSurvive(st, st');
    GuardsSurvive(st, st');
  }

  lemma SuspendingKeepsInv(st: State, remote: Server)
    requires Inv(st) && remote.domains == st.remote.domains
    ensures Inv(st.(remote := remote))
  {
    CarriesOver(st, st.(remote := remote));
  }

  lemma UnavailableKeepsInv(st: State, t: string, reason: Reason, now: int)
    requires Inv(st) && t in st.taases
    ensures Inv(Unavailable(st, t, reason, now))
  {
    CarriesOver(st, Unavailable(st, t, reason, now));
  }

  lemma TaaSDeletionKeepsInv(st: State, t: string, now: int, order: seq<string>, f: TaaSFaults)
    requires Inv(st) && t in st.taases
    ensures Inv(TaaSDeletion(st, t, now, order, f))
  {
    var taas := st.taases[t];
    var token := TokenOf(st, taas);
    UnavailableKeepsInv(st, t, NoToken(taas), now);
    if taas.finalizer && token.Some? {
      if OwnedRecords(st, t) != {} {
        DeleteAllKeepsInv(st, Unmarked(st, t));
      } else {
        SuspendAllKeepsDomains(st.remote, token.value, st.servers, order, f.suspend);
        var remote := SuspendAll(st.remote, token.value, st.servers, order, f.suspend).remote;
        SuspendingKeepsInv(st, remote);
        UnavailableKeepsInv(st.(remote := remote), t, SuspendError, now);
        TaaSGoneKeepsInv(st, t, remote);
      }
    }
  }

  // ---- Gateways ----

  /** Stamping never takes a record, a finalizer or a domain away, and only writes references to `taas`. */
  ghost predicate StampKeeps(rs: Records, rs': Records, taas: string) {
    forall n :: n in rs ==>
      && n in rs' && rs'[n].domain == rs[n].domain && rs'[n].finalizer == rs[n].finalizer
         && rs'[n].deleting == rs[n].deleting
      && (rs'[n].taasRef == rs[n].taasRef || rs'[n].taasRef == taas)
  }

  lemma {:induction false} StampIsGentle(
    d: Digest, rs: Records, taas: string, bs: seq<Bastion>, gw: GatewayKey, specs: seq<HostSpec>)
    ensures StampKeeps(rs, Stamp(d, rs, taas, bs, gw, specs).records, taas)
    ensures forall n :: n in Stamp(d, rs, taas, bs, gw, specs).records && n !in rs ==>
        !Stamp(d, rs, taas, bs, gw, specs).records[n].deleting
  {
    if specs != [] { StampIsGentle(d, rs, taas, bs, gw, specs[..|specs| - 1]); }
  }

  lemma GatewayPassKeepsInv(d: Digest, st: State, gw: GatewayKey, ls: seq<Listener>)
    requires Inv(st)
    ensures Inv(GatewayPass(d, st, gw, ls))
  {
    if Singleton(st).Some? {
      var t := Singleton(st).value;
      var bs := st.taases[t].status.bastions;
      var s := Stamp(d, st.records, t, bs, gw, Classify(ls));
      StampIsGentle(d, st.records, t, bs, gw, Classify(ls));
      var mid := st.(records := s.records);
      assert forall o, token :: Anchored(mid, o, token) <==> Anchored(st, o, token);
      forall n, domain, account | Guards(st, n, domain, account) ensures Guards(mid, n, domain, account) {
        assert st.records[n].taasRef in st.taases.Keys;
      }
      AnchorsSurvive(st, mid);
      GuardsSurvive(st, mid);
      assert Inv(mid);
      DeleteAllKeepsInv(mid, Labelled(s.records, gw) - s.expected);
    }
  }

  /** A step that keeps every anchor, every record and the domain table keeps the guards. */
  lemma CarriesOver(st: State, st': State)
    requires NoOrphans(st) && SyncedAreAnchored(st)
    requires forall t, token :: Anchored(st, t, token) ==> Anchored(st', t, token)
    requires forall t :: t in st'.taases && st'.taases[t].status.lastSync.Some? ==>
               (t in st.taases && st.taases[t].status.lastSync.Some?) || exists token :: Anchored(st', t, token)
    requires forall n :: n in st.records ==> n in st'.records && st'.records[n] == st.records[n]
    requires forall domain :: Ours(st', domain) ==>
        Ours(st, domain) && st'.remote.domains[domain].owner == st.remote.domains[domain].owner
    ensures NoOrphans(st') && SyncedAreAnchored(st')
  {
    AnchorsSurvive(st, st');
    forall n, domain, account | Guards(st, n, domain, account) ensures Guards(st', n, domain, account) { }
    GuardsSurvive(st, st');
  }

  lemma SecretCreatedKeepsInv(st: State, n: string, data: map<string, string>)
    requires Inv(st)
    ensures Inv(SecretCreated(st, n, data))
  {
    CarriesOver(st, SecretCreated(st, n, data));
  }

  lemma SecretDeletedKeepsInv(st: State, n: string)
    requires Inv(st)
    ensures Inv(SecretDeleted(st, n))
  {
    CarriesOver(st, SecretDeleted(st, n));
  }

  lemma TaaSCreatedKeepsOwners(st: State, n: string, ref: Option<SecretRef>)
    requires OneOwnerPerSecret(st) && Allowed(st, CreateTaaS(n, ref))
    ensures OneOwnerPerSecret(TaaSCreated(st, n, ref))
  {
  }

  lemma TaaSCreatedKeepsAnchors(st: State, n: string, ref: Option<SecretRef>)
    ensures forall t, token :: Anchored(st, t, token) ==> Anchored(TaaSCreated(st, n, ref), t, token)
  {
  }

  lemma TaaSCreatedKeepsInv(st: State, n: string, ref: Option<SecretRef>)
    requires Inv(st) && Allowed(st, CreateTaaS(n, ref))
    ensures Inv(TaaSCreated(st, n, ref))
  {
    TaaSCreatedKeepsOwners(st, n, ref);
    TaaSCreatedKeepsAnchors(st, n, ref);
    CarriesOver(st, TaaSCreated(st, n, ref));
  }

  lemma TaaSMarkedKeepsInv(st: State, n: string)
    requires Inv(st) && n in st.taases && st.taases[n].finalizer
    ensures Inv(st.(taases := st.taases[n := st.taases[n].(deleting := true)]))
  {
    CarriesOver(st, st.(taases := st.taases[n := st.taases[n].(deleting := true)]));
  }

  lemma TaaSDroppedKeepsInv(st: State, n: string)
    requires Inv(st) && n in st.taases && !st.taases[n].finalizer
    ensures Inv(st.(taases := st.taases - {n}))
  {
    CarriesOver(st, st.(taases := st.taases - {n}));
  }

  lemma TaaSDeletedKeepsInv(st: State, n: string)
    requires Inv(st)
    ensures Inv(TaaSDeleted(st, n))
  {
    if n in st.taases {
      if st.taases[n].finalizer { TaaSMarkedKeepsInv(st, n); } else { TaaSDroppedKeepsInv(st, n); }
    }
  }

  lemma RecordCreatedKeepsInv(st: State, n: string, domain: string, taasRef: string, targets: seq<string>)
    requires Inv(st)
    ensures Inv(RecordCreated(st, n, domain, taasRef, targets))
  {
    CarriesOver(st, RecordCreated(st, n, domain, taasRef, targets));
  }

  lemma CollectedKeepsInv(st: State, n: string)
    requires Inv(st)
    ensures Inv(Collected(st, n))
  {
    CarriesOver(st, Collected(st, n));
  }

  lemma ElsewhereKeepsInv(st: State, remote: Server)
    requires Inv(st) && ByOthers(st.remote, remote)
    ensures Inv(st.(remote := remote))
  {
    CarriesOver(st, st.(remote := remote));
  }

  lemma StepKeepsInv(d: Digest, st: State, a: Action)
    requires Inv(st) && Allowed(st, a)
    ensures Inv(Step(d, st, a))
  {
    match a
    case CreateSecret(n, data) => SecretCreatedKeepsInv(st, n, data);
    case DeleteSecret(n) => SecretDeletedKeepsInv(st, n);
    case CreateTaaS(n, ref) => TaaSCreatedKeepsInv(st, n, ref);
    case DeleteTaaS(n) => TaaSDeletedKeepsInv(st, n);
    case CreateRecord(n, domain, taasRef, targets) => RecordCreatedKeepsInv(st, n, domain, taasRef, targets);
    case CollectServer(n) => CollectedKeepsInv(st, n);
    case Elsewhere(remote) =>
      if ByOthers(st.remote, remote) { ElsewhereKeepsInv(st, remote); }
    case DeleteRecord(n) => DeleteAllKeepsInv(st, {n});
    case CleanGateway(gw) => DeleteAllKeepsInv(st, Labelled(st.records, gw));
    case PassGateway(gw, ls) => GatewayPassKeepsInv(d, st, gw, ls);
    case PassTaaS(t, now, order, f) =>
      if t in st.taases {
        if st.taases[t].deleting {
          TaaSDeletionKeepsInv(st, t, now, order, f);
        } else {
          TaaSWorkKeepsInv(st, t, now, order, f);
        }
      }
    case PassRecord(n, now, f) =>
      if n in st.records {
        if st.records[n].deleting { RecordDeletionKeepsInv(st, n, now, f); } else { RecordWorkKeepsInv(st, n, now, f); }
      }
    case Retarget(_, _) =>
  }

  ghost predicate AllowedRun(d: Digest, st: State, steps: seq<Action>) {
    forall i :: 0 <= i < |steps| ==> Allowed(Run(d, st, steps[..i]), steps[i])
  }

  /**
   * No orphaned registration. In every reachable state a domain the operator wrote and the
   * server still holds is guarded by a DNSRecord with its finalizer, whose AquaductTaaS has its
   * finalizer, whose Secret has the in-use finalizer and the account's token.
   */
  lemma {:induction false} NoOrphanedRegistration(d: Digest, st: State, steps: seq<Action>)
    requires Initial(st) && AllowedRun(d, st, steps)
    ensures Inv(Run(d, st, steps))
  {
    if steps != [] {
      var k := |steps| - 1;
      var prev := steps[..k];
      forall i | 0 <= i < |prev| ensures Allowed(Run(d, st, prev[..i]), prev[i]) {
        assert prev[..i] == steps[..i];
      }
      NoOrphanedRegistration(d, st, prev);
      StepKeepsInv(d, Run(d, st, prev), steps[k]);
    }
  }

  /** So once no AquaductTaaS gives an account's token, nothing the operator wrote is left there. */
  lemma GoneMeansClean(d: Digest, st: State, steps: seq<Action>, account: string)
    requires Initial(st) && AllowedRun(d, st, steps)
    requires forall t :: t in Run(d, st, steps).taases ==>
        TokenOf(Run(d, st, steps), Run(d, st, steps).taases[t]) != Some(account)
    ensures forall domain :: Ours(Run(d, st, steps), domain) ==>
        Run(d, st, steps).remote.domains[domain].owner != account
  {
    var end := Run(d, st, steps);
    NoOrphanedRegistration(d, st, steps);
    forall domain | Ours(end, domain) ensures end.remote.domains[domain].owner != account {
      var n :| Guards(end, n, domain, end.remote.domains[domain].owner);
    }
  }
}
