/** Where the teardown claims stop, and exactly when they do not hold. */
module Limits {
  import opened Api
  import opened Remote
  import opened DnsRecord
  import opened Gateway
  import opened Cluster
  import opened Teardown
  import Drain

  // ---- a DELETE that is not honoured ----

  /**
   * A refused DELETE of our own domain drops the record all the same. The registration is then
   * orphaned exactly when no other record guards the domain.
   */
  lemma RefusedDeleteExactly(st: State, n: string, now: int, f: Faults)
    requires Inv(st) && RefusesOurDelete(st, PassRecord(n, now, f))
    ensures NoOrphans(RecordPass(st, n, now, f)) <==>
            exists m :: m != n && Guards(st, m, st.records[n].domain, st.remote.domains[st.records[n].domain].owner)
  {
    var st' := RecordPass(st, n, now, f);
    var domain := st.records[n].domain;
    var account := st.remote.domains[domain].owner;
    assert st' == st.(records := st.records - {n});
    assert forall t, token :: Anchored(st', t, token) <==> Anchored(st, t, token);
    assert forall m, x, y :: Guards(st', m, x, y) <==> m != n && Guards(st, m, x, y);
    assert Ours(st', domain) && st'.remote == st.remote;
    if exists m :: m != n && Guards(st, m, domain, account) {
      forall x | Ours(st', x) ensures exists m :: Guards(st', m, x, st'.remote.domains[x].owner) {
        var m :| Guards(st, m, x, st.remote.domains[x].owner) && (x == domain ==> m != n);
        assert Guards(st', m, x, st.remote.domains[x].owner);
      }
    }
  }

  // ---- releasing a shared Secret ----

  /** A guard that does not rest on this Secret. */
  ghost predicate GuardsElsewhere(st: State, n: string, domain: string, account: string, secret: string) {
    Guards(st, n, domain, account) && st.taases[st.records[n].taasRef].secretRef.value.name != secret
  }

  /** The pass over `t` that has no record left and suspends everything: the one that removes `t`. */
  ghost predicate IsLastPass(st: State, t: string, order: seq<string>, f: TaaSFaults) {
    && t in st.taases && st.taases[t].finalizer && TokenOf(st, st.taases[t]).Some? && OwnedRecords(st, t) == {}
    && SuspendAll(st.remote, TokenOf(st, st.taases[t]).value, st.servers, order, f.suspend).ok
  }

  /** The last pass drops the Secret's finalizer. */
  predicate Releases(st: State, t: string, secret: string) {
    secret in st.secrets && st.secrets[secret].inUse && !StillReferenced(st, t, secret)
  }

  lemma GuardsAfterLastPass(
    st: State, t: string, now: int, order: seq<string>, f: TaaSFaults, n: string, domain: string, account: string)
    requires IsLastPass(st, t, order, f)
    ensures var secret := st.taases[t].secretRef.value.name;
            Guards(TaaSDeletion(st, t, now, order, f), n, domain, account) <==>
            if Releases(st, t, secret) then GuardsElsewhere(st, n, domain, account, secret)
              else Guards(st, n, domain, account)
  {
    assert n in st.records ==> st.records[n].taasRef != t by { assert n !in OwnedRecords(st, t); }
  }

  /**
   * When the last pass of an AquaductTaaS orphans a registration, exactly. It keeps every
   * registration guarded if and only if the Secret is not released (another live object refers to
   * it, or it was not pinned), or every domain of the operator has a guard on another Secret.
   */
  lemma ReleaseExactly(st: State, t: string, now: int, order: seq<string>, f: TaaSFaults)
    requires NoOrphans(st) && IsLastPass(st, t, order, f)
    ensures var secret := st.taases[t].secretRef.value.name;
            NoOrphans(TaaSDeletion(st, t, now, order, f)) <==>
            || !Releases(st, t, secret)
            || forall domain :: Ours(st, domain) ==>
               exists n :: GuardsElsewhere(st, n, domain, st.remote.domains[domain].owner, secret)
  {
    var st', secret := TaaSDeletion(st, t, now, order, f), st.taases[t].secretRef.value.name;
    SuspendAllKeepsDomains(st.remote, TokenOf(st, st.taases[t]).value, st.servers, order, f.suspend);
    forall n, domain, account ensures Guards(st', n, domain, account) <==>
      if Releases(st, t, secret) then GuardsElsewhere(st, n, domain, account, secret)
        else Guards(st, n, domain, account)
    {
      GuardsAfterLastPass(st, t, now, order, f, n, domain, account);
    }
    assert forall domain :: Ours(st', domain) <==> Ours(st, domain);
    if NoOrphans(st') && Releases(st, t, secret) {
      forall domain | Ours(st, domain)
        ensures exists n :: GuardsElsewhere(st, n, domain, st.remote.domains[domain].owner, secret)
      {
        var n :| Guards(st', n, domain, st.remote.domains[domain].owner);
      }
    }
    if !Releases(st, t, secret) {
      forall domain | Ours(st', domain) ensures exists n :: Guards(st', n, domain, st'.remote.domains[domain].owner) {
        var n :| Guards(st, n, domain, st.remote.domains[domain].owner);
        assert Guards(st', n, domain, st.remote.domains[domain].owner);
      }
    } else if forall domain :: Ours(st, domain) ==>
      exists n :: GuardsElsewhere(st, n, domain, st.remote.domains[domain].owner, secret) {
      forall domain | Ours(st', domain) ensures exists n :: Guards(st', n, domain, st'.remote.domains[domain].owner) {
        var n :| GuardsElsewhere(st, n, domain, st.remote.domains[domain].owner, secret);
        assert Guards(st', n, domain, st.remote.domains[domain].owner);
      }
    }
  }

  // ---- a run that does it ----

  /** Two AquaductTaaS objects `a` and `b` on the Secret `s`, and a record `r` of `b` for the domain `x`. */
  datatype Cast = Cast(s: string, k: string, token: string, a: string, b: string, r: string, x: string)

  predicate Proper(c: Cast) { c.a != c.b && c.a != "" && c.b != "" && c.token != "" }

  const NO_STATUS := TaaSStatus([], [], None, None)

  const NOBODY := Server(map[], map[], 0)

  function Ref(c: Cast): Option<SecretRef> { Some(SecretRef(c.s, c.k)) }

  function Creations(c: Cast): seq<Action> {
    [CreateSecret(c.s, map[c.k := c.token]), CreateTaaS(c.a, Ref(c)), CreateTaaS(c.b, Ref(c))]
  }

  function Passing(t: string): Action { PassTaaS(t, 0, [], NO_TAAS_FAULTS) }

  function FirstPasses(c: Cast): seq<Action> { [Passing(c.a), Passing(c.b), Passing(c.b)] }

  function Recording(c: Cast): seq<Action> {
    [CreateRecord(c.r, c.x, c.b, []), PassRecord(c.r, 0, NO_FAULTS), PassRecord(c.r, 0, NO_FAULTS)]
  }

  function Deletions(c: Cast): seq<Action> { [DeleteTaaS(c.b), DeleteTaaS(c.a)] }

  /** Everything up to the pass that releases the Secret. */
  function Prologue(c: Cast): seq<Action> { Creations(c) + FirstPasses(c) + Recording(c) + Deletions(c) }

  const EMPTY_CLUSTER := State(map[], map[], map[], map[], NOBODY)

  lemma RunTwo(d: Digest, st: State, a: Action, b: Action)
    ensures Run(d, st, [a, b]) == Step(d, Step(d, st, a), b)
  {
    RunOne(d, st, a);
    assert [a, b][..1] == [a];
  }

  lemma RunThree(d: Digest, st: State, a: Action, b: Action, c: Action)
    ensures Run(d, st, [a, b, c]) == Step(d, Step(d, Step(d, st, a), b), c)
  {
    RunTwo(d, st, a, b);
    assert [a, b, c][..2] == [a, b];
  }

  /** An object just created, with its finalizer, or after its first sync of an account without bastions. */
  function Fresh(c: Cast): TaaS { TaaS(Ref(c), false, false, NO_STATUS, false) }

  function Held(c: Cast): TaaS { Fresh(c).(finalizer := true) }

  function SyncedOnce(c: Cast): TaaS { Held(c).(status := Publish(NO_STATUS, [], [], 0), synced := true) }

  function TokenSecret(c: Cast, inUse: bool): Secret { Secret(map[c.k := c.token], inUse, false) }

  function Created(c: Cast): State {
    State(map[c.s := TokenSecret(c, false)], map[c.a := Fresh(c), c.b := Fresh(c)], map[], map[], NOBODY)
  }

  lemma CreationsReach(d: Digest, c: Cast)
    requires Proper(c)
    ensures Run(d, EMPTY_CLUSTER, Creations(c)) == Created(c)
  {
    RunThree(d, EMPTY_CLUSTER, CreateSecret(c.s, map[c.k := c.token]), CreateTaaS(c.a, Ref(c)),
      CreateTaaS(c.b, Ref(c)));
  }

  /** Both objects hold their finalizers and `b` has synced. */
  function BothReady(c: Cast): State {
    State(map[c.s := TokenSecret(c, true)], map[c.a := Held(c), c.b := SyncedOnce(c)], map[], map[], NOBODY)
  }

  /** A sync of an account without bastions. */
  lemma EmptySync(st: State, t: string, token: string)
    requires t in st.taases && st.servers == map[] && st.remote == NOBODY && st.taases[t].status == NO_STATUS
    ensures TaaSSync(st, t, token, 0, NO_TAAS_FAULTS) == Sync(map[], Publish(NO_STATUS, [], [], 0), true)
  {
    assert BastionsOf(st.remote, token) == [];
    assert Mirror(st.servers, t, []).servers == map[];
    assert MirroredNames([]) == [];
  }

  function BothHeld(c: Cast): State { Created(c).(taases := map[c.a := Held(c), c.b := Held(c)]) }

  lemma FinalizersReach(c: Cast)
    requires Proper(c)
    ensures TaaSPass(TaaSPass(Created(c), c.a, 0, [], NO_TAAS_FAULTS), c.b, 0, [], NO_TAAS_FAULTS) == BothHeld(c)
  {
    assert TaaSPass(Created(c), c.a, 0, [], NO_TAAS_FAULTS).taases == map[c.a := Held(c), c.b := Fresh(c)];
  }

  lemma SyncReaches(c: Cast)
    requires Proper(c)
    ensures TaaSPass(BothHeld(c), c.b, 0, [], NO_TAAS_FAULTS) == BothReady(c)
  {
    EmptySync(BothHeld(c), c.b, c.token);
    assert TokenOf(BothHeld(c), Held(c)) == Some(c.token);
  }

  lemma FirstPassesReach(d: Digest, c: Cast)
    requires Proper(c)
    ensures Run(d, Created(c), FirstPasses(c)) == BothReady(c)
  {
    var st := Created(c);
    RunThree(d, st, Passing(c.a), Passing(c.b), Passing(c.b));
    FinalizersReach(c);
    SyncReaches(c);
  }

  /** `r` holds its finalizer, and what is in the account. */
  function RecordHeld(c: Cast): Record { Record(c.x, c.b, [], None, true, false, EMPTY_STATUS) }

  function Registered(c: Cast): Server { Server(map[], map[c.x := Domain(1, c.token, [], true)], 1) }

  lemma RegistersAnew(c: Cast)
    ensures WorkingPass(NOBODY, c.token, [], RecordHeld(c), 0, NO_FAULTS).0 == Registered(c)
  {
    var sel := Select([], []);
    assert sel.missing == [] && sel.ids == [];
    assert Register(NOBODY, c.token, c.x, [], NO_FAULTS).server == Registered(c);
  }

  /** `r` has registered `x`. */
  function Recorded(c: Cast): State {
    BothReady(c).(records :=
      map[c.r := RecordHeld(c).(status := WorkingPass(NOBODY, c.token, [], RecordHeld(c), 0, NO_FAULTS).1)],
                  remote := Registered(c))
  }

  lemma CreatedAndHeld(c: Cast)
    requires Proper(c)
    ensures RecordPass(RecordCreated(BothReady(c), c.r, c.x, c.b, []), c.r, 0, NO_FAULTS) ==
        BothReady(c).(records := map[c.r := RecordHeld(c)])
  {
  }

  lemma WorkReaches(c: Cast)
    requires Proper(c)
    ensures RecordPass(BothReady(c).(records := map[c.r := RecordHeld(c)]), c.r, 0, NO_FAULTS) == Recorded(c)
  {
    var st := BothReady(c).(records := map[c.r := RecordHeld(c)]);
    assert Resolve(st, c.b) == Credentials(SyncedOnce(c), c.token);
    assert RecordWork(st, RecordHeld(c), 0, NO_FAULTS) == WorkingPass(NOBODY, c.token, [], RecordHeld(c), 0, NO_FAULTS);
    RegistersAnew(c);
  }

  lemma RecordingReaches(d: Digest, c: Cast)
    requires Proper(c)
    ensures Run(d, BothReady(c), Recording(c)) == Recorded(c)
  {
    RunThree(d, BothReady(c), CreateRecord(c.r, c.x, c.b, []), PassRecord(c.r, 0, NO_FAULTS),
      PassRecord(c.r, 0, NO_FAULTS));
    CreatedAndHeld(c);
    WorkReaches(c);
  }

  /** Both objects are being deleted, and `r` still guards `x`. */
  function BothGoing(c: Cast): State {
    Recorded(c).(taases := map[c.a := Held(c).(deleting := true), c.b := SyncedOnce(c).(deleting := true)])
  }

  lemma TwoMarked(st: State, a: string, b: string, x: TaaS, y: TaaS)
    requires a != b && st.taases == map[a := x, b := y] && x.finalizer && y.finalizer
    ensures TaaSDeleted(TaaSDeleted(st, b), a) ==
        st.(taases := map[a := x.(deleting := true), b := y.(deleting := true)])
  {
    assert TaaSDeleted(st, b).taases == map[a := x, b := y.(deleting := true)];
  }

  lemma DeletionsReach(d: Digest, c: Cast)
    requires Proper(c)
    ensures Run(d, Recorded(c), Deletions(c)) == BothGoing(c)
  {
    RunTwo(d, Recorded(c), DeleteTaaS(c.b), DeleteTaaS(c.a));
    TwoMarked(Recorded(c), c.a, c.b, Held(c), SyncedOnce(c));
  }

  lemma PrologueReaches(d: Digest, c: Cast)
    requires Proper(c)
    ensures Run(d, EMPTY_CLUSTER, Prologue(c)) == BothGoing(c)
  {
    CreationsReach(d, c);
    FirstPassesReach(d, c);
    RecordingReaches(d, c);
    DeletionsReach(d, c);
    RunAppend(d, EMPTY_CLUSTER, Creations(c), FirstPasses(c));
    RunAppend(d, EMPTY_CLUSTER, Creations(c) + FirstPasses(c), Recording(c));
    RunAppend(d, EMPTY_CLUSTER, Creations(c) + FirstPasses(c) + Recording(c), Deletions(c));
  }

  /** In the state reached `r` guards `x`, and nothing on another Secret does. */
  lemma BothGoingGuards(c: Cast)
    requires Proper(c)
    ensures NoOrphans(BothGoing(c)) && IsLastPass(BothGoing(c), c.a, [], NO_TAAS_FAULTS)
    ensures Releases(BothGoing(c), c.a, c.s) && Ours(BothGoing(c), c.x)
    ensures forall n :: !GuardsElsewhere(BothGoing(c), n, c.x, c.token, c.s)
  {
    var st := BothGoing(c);
    assert TokenOf(st, st.taases[c.b]) == Some(c.token);
    assert Guards(st, c.r, c.x, c.token);
    assert OwnedRecords(st, c.a) == {};
  }

  lemma ReleaseOrphans(c: Cast)
    requires Proper(c)
    ensures !NoOrphans(TaaSPass(BothGoing(c), c.a, 0, [], NO_TAAS_FAULTS))
  {
    BothGoingGuards(c);
    ReleaseExactly(BothGoing(c), c.a, 0, [], NO_TAAS_FAULTS);
  }

  /** Only one step of the prologue is not allowed: creating the second object on a Secret in use. */
  lemma PrologueIsAllowed(d: Digest, c: Cast, i: nat)
    requires Proper(c) && i < |Prologue(c)| && i != 2
    ensures Allowed(Run(d, EMPTY_CLUSTER, Prologue(c)[..i]), Prologue(c)[i])
  {
    if i == 1 {
      assert Prologue(c)[..1] == [CreateSecret(c.s, map[c.k := c.token])];
      RunOne(d, EMPTY_CLUSTER, CreateSecret(c.s, map[c.k := c.token]));
    }
  }

  lemma ReleaseStep(d: Digest, c: Cast)
    requires Proper(c)
    ensures !NoOrphans(Step(d, BothGoing(c), Passing(c.a)))
  {
    ReleaseOrphans(c);
  }

  lemma PrologueGuards(d: Digest, c: Cast)
    requires Proper(c)
    ensures NoOrphans(Run(d, EMPTY_CLUSTER, Prologue(c)))
        && !NoOrphans(Run(d, EMPTY_CLUSTER, Prologue(c) + [Passing(c.a)]))
  {
    PrologueReaches(d, c);
    BothGoingGuards(c);
    RunAppend(d, EMPTY_CLUSTER, Prologue(c), [Passing(c.a)]);
    RunOne(d, BothGoing(c), Passing(c.a));
    ReleaseStep(d, c);
  }

  /**
   * Two AquaductTaaS objects deleting at once on one Secret are not protected from each other. A
   * run from the empty cluster, without a failing call and with one object created on a Secret
   * already in use as its only fault, ends with a registration nobody guards: the first object to
   * finish releases the Secret while the other's record still needs it.
   */
  lemma SharedSecretIsReleasedEarly(d: Digest, c: Cast)
    requires Proper(c)
    ensures Initial(EMPTY_CLUSTER)
    ensures forall i :: 0 <= i < |Prologue(c)| && i != 2 ==>
        Allowed(Run(d, EMPTY_CLUSTER, Prologue(c)[..i]), Prologue(c)[i])
    ensures NoOrphans(Run(d, EMPTY_CLUSTER, Prologue(c)))
        && !NoOrphans(Run(d, EMPTY_CLUSTER, Prologue(c) + [Passing(c.a)]))
  {
    forall i | 0 <= i < |Prologue(c)| && i != 2
      ensures Allowed(Run(d, EMPTY_CLUSTER, Prologue(c)[..i]), Prologue(c)[i])
    {
      PrologueIsAllowed(d, c, i);
    }
    PrologueGuards(d, c);
  }

  // ---- pointing an AquaductTaaS at another Secret ----

  /** The reference gives this account's token from a Secret in use. */
  predicate Gives(st: State, ref: Option<SecretRef>, account: string) {
    && ref.Some? && ref.value.name in st.secrets && st.secrets[ref.value.name].inUse
    && TokenAt(st.secrets, ref.value) == Some(account)
  }

  /** A record with its finalizer that registers the domain through `t`, which holds its own. */
  predicate HoldsFor(st: State, n: string, t: string, domain: string) {
    n in st.records && st.records[n].domain == domain && st.records[n].finalizer && st.records[n].taasRef == t
    && t in st.taases && st.taases[t].finalizer
  }

  /**
   * When changing a reference orphans a registration, exactly. Every registration stays guarded if
   * and only if each of the operator's domains has a guard through another AquaductTaaS, or a record
   * of `t` and a new reference that gives the same account's token from a Secret already in use.
   */
  lemma RetargetExactly(st: State, t: string, ref: Option<SecretRef>)
    requires NoOrphans(st) && t in st.taases
    ensures NoOrphans(Retargeted(st, t, ref)) <==>
            forall domain :: Ours(st, domain) ==>
              || (exists n :: Guards(st, n, domain, st.remote.domains[domain].owner) && st.records[n].taasRef != t)
              || (Gives(st, ref, st.remote.domains[domain].owner) && exists n :: HoldsFor(st, n, t, domain))
  {
    var st' := Retargeted(st, t, ref);
    forall n, domain, account ensures Guards(st', n, domain, account) <==>
      (Guards(st, n, domain, account) && st.records[n].taasRef != t)
        || (Gives(st, ref, account) && HoldsFor(st, n, t, domain))
    {
    }
    forall domain | Ours(st, domain) ensures
      (exists n :: Guards(st', n, domain, st.remote.domains[domain].owner)) <==>
      || (exists n :: Guards(st, n, domain, st.remote.domains[domain].owner) && st.records[n].taasRef != t)
      || (Gives(st, ref, st.remote.domains[domain].owner) && exists n :: HoldsFor(st, n, t, domain))
    {
      var account := st.remote.domains[domain].owner;
      if n :| Guards(st', n, domain, account) { assert Guards(st', n, domain, account); }
      if n :| Guards(st, n, domain, account) && st.records[n].taasRef != t { assert Guards(st', n, domain, account); }
      if Gives(st, ref, account) && exists n :: HoldsFor(st, n, t, domain) {
        var n :| HoldsFor(st, n, t, domain);
        assert Guards(st', n, domain, account);
      }
    }
    assert forall domain :: Ours(st', domain) <==> Ours(st, domain);
  }

  // ---- Secrets that stay pinned for nobody ----

  ghost predicate Refers(st: State, t: string, secret: string) {
    t in st.taases && st.taases[t].secretRef.Some? && st.taases[t].secretRef.value.name == secret
  }

  /** The Secret carries the in-use finalizer, and no AquaductTaaS refers to it. */
  ghost predicate Leaked(st: State, secret: string) {
    secret in st.secrets && st.secrets[secret].inUse && forall t :: !Refers(st, t, secret)
  }

  function NamesSecret(ref: Option<SecretRef>, secret: string): bool { ref.Some? && ref.value.name == secret }

  /** The last object that refers to a pinned Secret turns away, or is deleted before its first pass. */
  ghost predicate Abandons(st: State, a: Action, secret: string) {
    && secret in st.secrets && st.secrets[secret].inUse
    && (a.Retarget? || a.DeleteTaaS?) && Refers(st, a.name, secret)
         && (forall t :: Refers(st, t, secret) ==> t == a.name)
    && (a.Retarget? ==> !NamesSecret(a.ref, secret))
    && (a.DeleteTaaS? ==> !st.taases[a.name].finalizer)
  }

  lemma LeakOnDeletion(st: State, t: string, now: int, order: seq<string>, f: TaaSFaults, secret: string)
    requires t in st.taases && st.taases[t].deleting && !Leaked(st, secret)
    ensures !Leaked(TaaSDeletion(st, t, now, order, f), secret)
  {
    var st' := TaaSDeletion(st, t, now, order, f);
    if secret in st.secrets && st.secrets[secret].inUse {
      var o :| Refers(st, o, secret);
      if o in st'.taases {
        assert Refers(st', o, secret);
      } else if StillReferenced(st, t, secret) {
        var p :| p in st.taases && p != t && !st.taases[p].deleting && st.taases[p].secretRef.Some?
          && st.taases[p].secretRef.value.name == secret;
        assert Refers(st', p, secret);
      }
    }
  }

  lemma LeakOnWork(st: State, t: string, now: int, order: seq<string>, f: TaaSFaults, secret: string)
    requires t in st.taases && !st.taases[t].deleting && !Leaked(st, secret)
    ensures !Leaked(TaaSPass(st, t, now, order, f), secret)
  {
    var st' := TaaSPass(st, t, now, order, f);
    forall o ensures Refers(st', o, secret) <==> Refers(st, o, secret) {
    }
    if TokenOf(st, st.taases[t]).Some? { assert Refers(st', t, st.taases[t].secretRef.value.name); }
  }

  lemma LeakByUser(st: State, n: string, data: map<string, string>, ref: Option<SecretRef>, secret: string)
    requires !Leaked(st, secret)
    ensures !Leaked(SecretCreated(st, n, data), secret) && !Leaked(SecretDeleted(st, n), secret)
        && !Leaked(TaaSCreated(st, n, ref), secret)
  {
    assert forall o :: Refers(st, o, secret) ==> Refers(TaaSCreated(st, n, ref), o, secret);
    assert forall o :: Refers(SecretDeleted(st, n), o, secret) <==> Refers(st, o, secret);
    assert forall o :: Refers(SecretCreated(st, n, data), o, secret) <==> Refers(st, o, secret);
  }

  lemma LeakByTurning(st: State, n: string, ref: Option<SecretRef>, secret: string)
    requires !Leaked(st, secret)
    ensures Leaked(Retargeted(st, n, ref), secret) <==> Abandons(st, Retarget(n, ref), secret)
    ensures Leaked(TaaSDeleted(st, n), secret) <==> Abandons(st, DeleteTaaS(n), secret)
  {
    forall o ensures Refers(Retargeted(st, n, ref), o, secret) <==>
      if o == n then n in st.taases && NamesSecret(ref, secret) else Refers(st, o, secret)
    {
    }
    forall o
      ensures Refers(TaaSDeleted(st, n), o, secret) <==> Refers(st, o, secret) && (o == n ==> st.taases[n].finalizer)
    {
    }
  }

  /**
   * When a Secret comes to stay pinned for nobody, exactly: the last object that refers to it is
   * pointed elsewhere (the former Secret is never released), or it is deleted without ever having
   * been passed over (it made the release before it stop, and releases nothing itself). Releases
   * themselves never leak.
   */
  lemma LeaksExactly(d: Digest, st: State, a: Action, secret: string)
    requires !Leaked(st, secret)
    ensures Leaked(Step(d, st, a), secret) <==> Abandons(st, a, secret)
  {
    match a
    case CreateSecret(n, data) => LeakByUser(st, n, data, None, secret);
    case DeleteSecret(n) => LeakByUser(st, n, map[], None, secret);
    case CreateTaaS(n, ref) => LeakByUser(st, n, map[], ref, secret);
    case DeleteTaaS(n) => LeakByTurning(st, n, None, secret);
    case Retarget(n, ref) => LeakByTurning(st, n, ref, secret);
    case PassTaaS(t, now, order, f) =>
      if t in st.taases && st.taases[t].deleting { LeakOnDeletion(st, t, now, order, f, secret); }
      else if t in st.taases { LeakOnWork(st, t, now, order, f, secret); }
    case PassRecord(n, now, f) =>
      RecordPassFrame(st, n, now, f);
      assert forall o :: Refers(Step(d, st, a), o, secret) <==> Refers(st, o, secret);
    case _ =>
      assert forall o :: Refers(Step(d, st, a), o, secret) <==> Refers(st, o, secret);
  }

  /** In a run in which nobody abandons a Secret, none is left pinned for nobody. */
  lemma {:induction false} NoLeakUnlessAbandoned(d: Digest, st: State, steps: seq<Action>, secret: string)
    requires Initial(st) && forall i :: 0 <= i < |steps| ==> !Abandons(Run(d, st, steps[..i]), steps[i], secret)
    ensures !Leaked(Run(d, st, steps), secret)
  {
    if steps != [] {
      var k := |steps| - 1;
      forall i | 0 <= i < k ensures !Abandons(Run(d, st, steps[..k][..i]), steps[..k][i], secret) {
        assert steps[..k][..i] == steps[..i];
      }
      NoLeakUnlessAbandoned(d, st, steps[..k], secret);
      LeaksExactly(d, Run(d, st, steps[..k]), steps[k], secret);
    }
  }

  // ---- a Gateway against a teardown ----

  /** Stamping names that were free adds fresh records under exactly the expected names. */
  lemma {:induction false} StampFresh(
    d: Digest, rs: Records, t: string, bs: seq<Bastion>, gw: GatewayKey, specs: seq<HostSpec>)
    requires InjectiveNames(d) && DistinctHosts(specs) && forall i :: 0 <= i < |specs| ==>
        d.name(gw, specs[i].host) !in rs
    ensures var s := Stamp(d, rs, t, bs, gw, specs);
            && s.ok && s.records.Keys == rs.Keys + s.expected && s.expected !! rs.Keys
            && (forall n :: n in rs ==> s.records[n] == rs[n])
            && (forall n :: n in s.expected ==> exists i :: 0 <= i < |specs| && n == d.name(gw, specs[i].host))
            && (forall n :: n in s.expected ==>
                  s.records[n].taasRef == t && !s.records[n].finalizer && !s.records[n].deleting
                    && s.records[n].gateway == Some(gw))
  {
    if specs != [] {
      var k := |specs| - 1;
      StampFresh(d, rs, t, bs, gw, specs[..k]);
      assert forall i :: 0 <= i < k ==> specs[..k][i] == specs[i];
    }
  }

  /** `t` is ready for its last pass, and a Gateway without records so far wants one under a free name. */
  ghost predicate Contended(d: Digest, st: State, t: string, token: string, gw: GatewayKey, ls: seq<Listener>) {
    && InjectiveNames(d) && Drain.TearingDown(st, t, token) && OwnedRecords(st, t) == {} && st.taases.Keys == {t}
    && Labelled(st.records, gw) == {} && (forall h :: AnyNames(ls, h) ==> d.name(gw, h) !in st.records)
    && exists h :: Wanted(st.taases[t].status.bastions, ls, h)
  }

  /** What the Gateway stamps when its names are free: fresh records, all of `t`, all its own. */
  ghost predicate StampsFresh(st: State, t: string, gw: GatewayKey, s: Stamped) {
    && s.ok && s.expected != {} && s.records.Keys == st.records.Keys + s.expected && s.expected !! st.records.Keys
    && (forall n :: n in st.records ==> s.records[n] == st.records[n])
    && (forall n :: n in s.expected ==>
          s.records[n].taasRef == t && !s.records[n].finalizer && !s.records[n].deleting
            && s.records[n].gateway == Some(gw))
  }

  lemma ContendedStampsFresh(d: Digest, st: State, t: string, token: string, gw: GatewayKey, ls: seq<Listener>)
    requires Contended(d, st, t, token, gw, ls)
    ensures StampsFresh(st, t, gw, Stamp(d, st.records, t, st.taases[t].status.bastions, gw, Classify(ls)))
  {
    var bs, specs := st.taases[t].status.bastions, Classify(ls);
    HostsAre(ls);
    ClassifiedSpecs(d, bs, gw, ls);
    forall i | 0 <= i < |specs| ensures d.name(gw, specs[i].host) !in st.records { assert Hosts(ls)[i] in Hosts(ls); }
    StampFresh(d, st.records, t, bs, gw, specs);
    StampEffect(d, st.records, t, bs, gw, specs);
    var h :| Wanted(bs, ls, h);
    StampedForHost(d, st.records, t, bs, gw, ls, Stamp(d, st.records, t, bs, gw, specs), h);
  }

  lemma FreshAreLabelled(st: State, t: string, gw: GatewayKey, s: Stamped)
    requires StampsFresh(st, t, gw, s) && Labelled(st.records, gw) == {}
    ensures DeleteAll(s.records, Labelled(s.records, gw) - s.expected) == s.records
  {
    forall n | n in Labelled(s.records, gw) ensures n in s.expected {
      assert n !in Labelled(st.records, gw);
    }
  }

  lemma FreshAreOwned(st: State, t: string, gw: GatewayKey, s: Stamped)
    requires StampsFresh(st, t, gw, s) && OwnedRecords(st, t) == {}
    ensures OwnedRecords(st.(records := s.records), t) == s.expected == Unmarked(st.(records := s.records), t)
    ensures DeleteAll(s.records, s.expected) == st.records
  {
    var st' := st.(records := s.records);
    forall n ensures n in OwnedRecords(st', t) <==> n in s.expected {
      assert n !in OwnedRecords(st, t);
    }
  }

  /**
   * A Gateway can hold a teardown up for ever. It stamps its record whether or not the object is
   * being deleted; the next pass over the object deletes that record, which no controller has seen
   * yet, and waits; and both are back in the state they started from.
   */
  lemma GatewayHoldsTeardownUp(
    d: Digest, st: State, t: string, token: string, gw: GatewayKey, ls: seq<Listener>, now: int, order: seq<string>)
    requires Contended(d, st, t, token, gw, ls)
    ensures TaaSPass(GatewayPass(d, st, gw, ls), t, now, order, NO_TAAS_FAULTS) == st
  {
    var s := Stamp(d, st.records, t, st.taases[t].status.bastions, gw, Classify(ls));
    ContendedStampsFresh(d, st, t, token, gw, ls);
    assert Singleton(st) == Some(t);
    FreshAreLabelled(st, t, gw, s);
    FreshAreOwned(st, t, gw, s);
    CascadeUndoes(st, t, token, s, now, order);
  }

  lemma CascadeUndoes(st: State, t: string, token: string, s: Stamped, now: int, order: seq<string>)
    requires Drain.TearingDown(st, t, token) && s.expected != {} && DeleteAll(s.records, s.expected) == st.records
    requires OwnedRecords(st.(records := s.records), t) == s.expected == Unmarked(st.(records := s.records), t)
    ensures TaaSPass(st.(records := s.records), t, now, order, NO_TAAS_FAULTS) == st
  {
  }
}
