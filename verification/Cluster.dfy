/** One namespace of the cluster with its remote account server, and one pass of each controller over it. */
module Cluster {
  import opened Order
  import opened Text
  import opened Api
  import opened Remote
  import opened DnsRecord
  import opened Gateway

  datatype State = State(
    secrets: map<string, Secret>,
    taases: map<string, TaaS>,
    records: map<string, Record>,
    servers: map<string, WeftServer>,
    remote: Server)

  // ---- credentials ----

  /** readToken: the referenced key of the referenced Secret, if both exist and the value is not empty. */
  function TokenAt(secrets: map<string, Secret>, ref: SecretRef): Option<string> {
    if ref.name in secrets && ref.key in secrets[ref.name].data && secrets[ref.name].data[ref.key] != ""
    then Some(secrets[ref.name].data[ref.key]) else None
  }

  function TokenOf(st: State, t: TaaS): Option<string> {
    if t.secretRef.None? then None else TokenAt(st.secrets, t.secretRef.value)
  }

  datatype Credentials = Credentials(taas: TaaS, token: string) | NoCredentials(reason: Reason)

  /** resolveAquaductTaaS */
  function Resolve(st: State, taasRef: string): Credentials {
    if taasRef == "" then NoCredentials(SpecInvalid)
    else if taasRef !in st.taases then NoCredentials(MissingAquaductTaaS)
    else if st.taases[taasRef].secretRef.None? then NoCredentials(SpecInvalid)
    else
      var token := TokenOf(st, st.taases[taasRef]);
      if token.None? then NoCredentials(SecretError) else Credentials(st.taases[taasRef], token.value)
  }

  // ---- the DNSRecord pass ----

  /** handleDeletion: the finalizer goes only after DELETE succeeded, or was answered as foreign or missing. */
  function RecordDeletion(st: State, n: string, now: int, f: Faults): State
    requires n in st.records
  {
    var r := st.records[n];
    match Resolve(st, r.taasRef)
    case NoCredentials(reason) =>
      st.(records := st.records[n := r.(status := Fail(r.status, Registered, reason, Text(reason, [], []), now))])
    case Credentials(_, token) =>
      var applied := f.delete == NoFault || f.delete == AnswerLost;
      var remote := if applied then Delete(st.remote, token, r.domain) else st.remote;
      if f.delete in {NoFault, Refused, Vanished} then st.(remote := remote, records := st.records - {n})
      else
        var status := Fail(r.status, Ready, CleanupFailed, Text(CleanupFailed, [], []), now);
        st.(remote := remote, records := st.records[n := r.(status := status)])
  }

  /** The work on a live record that holds its finalizer: the account server and the status after it. */
  function RecordWork(st: State, r: Record, now: int, f: Faults): (Server, RecordStatus) {
    match Resolve(st, r.taasRef)
    case NoCredentials(reason) => (st.remote, Fail(r.status, Registered, reason, Text(reason, [], []), now))
    case Credentials(taas, token) =>
      if taas.status.lastSync.None? then
        (st.remote, Fail(r.status, Registered, WaitingForBastions, Text(WaitingForBastions, [], []), now))
      else WorkingPass(st.remote, token, taas.status.bastions, r, now, f)
  }

  /** One DNSRecord reconcile. */
  function RecordPass(st: State, n: string, now: int, f: Faults): State {
    if n !in st.records then st
    else
      var r := st.records[n];
      if r.deleting then (if r.finalizer then RecordDeletion(st, n, now, f) else st)
      else if !r.finalizer then st.(records := st.records[n := r.(finalizer := true)])
      else
        var (remote, status) := RecordWork(st, r, now, f);
        st.(remote := remote, records := st.records[n := r.(status := status)])
  }

  // ---- the AquaductTaaS pass ----

  predicate IDLess(a: Bastion, b: Bastion) { Less(a.id, b.id) }

  /** The names syncWeftServers mirrors: bastions that are not suspended and have an address. */
  function Desired(bs: seq<Bastion>): set<string> { set b | b in bs && !b.suspended && b.ip != "" :: b.name }

  /** The answer of the API is refused on an empty name or id, or on two mirrored bastions of one name. */
  predicate Acceptable(bs: seq<Bastion>) {
    && (forall i :: 0 <= i < |bs| ==> bs[i].name != "" && bs[i].id != "")
    && (forall i, j :: 0 <= i < j < |bs| && bs[i] in Eligible(bs) && bs[j] in Eligible(bs) ==> bs[i].name != bs[j].name)
  }

  datatype Synced = Synced(servers: map<string, WeftServer>, ok: bool)

  /** The upserts, in the order the API listed the bastions; one owned by another object stops the sync. */
  function UpsertServers(servers: map<string, WeftServer>, t: string, bs: seq<Bastion>, desired: set<string>): Synced {
    if bs == [] then Synced(servers, true)
    else
      var s, b := UpsertServers(servers, t, bs[..|bs| - 1], desired), bs[|bs| - 1];
      if !s.ok || b.name !in desired then s
      else if b.name in s.servers && s.servers[b.name].owner != "" && s.servers[b.name].owner != t then s.(ok := false)
      else s.(servers := s.servers[b.name := WeftServer(t, b.id)])
  }

  function Mirror(servers: map<string, WeftServer>, t: string, bs: seq<Bastion>): Synced {
    if !Acceptable(bs) then Synced(servers, false)
    else
      var s := UpsertServers(servers, t, bs, Desired(bs));
      if !s.ok then s
      else s.(servers := map n | n in s.servers && (s.servers[n].owner == t ==> n in Desired(bs)) :: s.servers[n])
  }

  function Publish(was: TaaSStatus, bs: seq<Bastion>, names: seq<string>, now: int): TaaSStatus {
    var available := Transition(was.available, true, SyncedOk, SyncedCount(|names|), now);
    var next := TaaSStatus(Sort(bs, IDLess), names, was.lastSync, Some(available));
    if next == was && was.lastSync.Some? && now - was.lastSync.value < RESYNC_INTERVAL then was
    else next.(lastSync := Some(now))
  }

  /** failure(): Available becomes False; the rest of the status stays as it was read. */
  function FailedStatus(was: TaaSStatus, reason: Reason, now: int): TaaSStatus {
    was.(available := Some(Transition(was.available, false, reason, Text(reason, [], []), now)))
  }

  function Unavailable(st: State, t: string, reason: Reason, now: int): State
    requires t in st.taases
  {
    st.(taases := st.taases[t := st.taases[t].(status := FailedStatus(st.taases[t].status, reason, now))])
  }

  /** Why the token cannot be had. */
  function NoToken(taas: TaaS): Reason { if taas.secretRef.None? then SpecInvalid else SecretError }

  /** The mirrored names, sorted; an acceptable answer has each once. */
  function MirroredNames(bs: seq<Bastion>): seq<string> {
    var e := Eligible(bs);
    SortStrings(seq(|e|, i requires 0 <= i < |e| => e[i].name))
  }

  /** What an AquaductTaaS pass may meet: the list call failing, and suspend calls failing. */
  datatype TaaSFaults = TaaSFaults(list: bool, suspend: set<string>)

  const NO_TAAS_FAULTS := TaaSFaults(false, {})

  /** The suspend loop over the mirrored servers in the order they were listed; stops at the first failure. */
  datatype Suspended = Suspended(remote: Server, ok: bool)

  function SuspendAll(
    remote: Server, token: string, servers: map<string, WeftServer>, names: seq<string>, failing: set<string>)
    : Suspended
  {
    if names == [] then Suspended(remote, true)
    else
      var s, n := SuspendAll(remote, token, servers, names[..|names| - 1], failing), names[|names| - 1];
      if !s.ok || n !in servers then s
      else
        var id := servers[n].bastionID;
        if id == "" || id in failing || !KnowsBastion(s.remote, token, id) then s.(ok := false)
        else s.(remote := Suspend(s.remote, token, id))
  }

  function OwnedRecords(st: State, t: string): set<string> { set n | n in st.records && st.records[n].taasRef == t }

  function Unmarked(st: State, t: string): set<string> { set n | n in OwnedRecords(st, t) && !st.records[n].deleting }

  function OwnedServers(st: State, t: string): set<string> { set n | n in st.servers && st.servers[n].owner == t }

  /** A listing of `names` by the API server, in whatever order. */
  ghost predicate Lists(order: seq<string>, names: set<string>) { forall n :: n in order <==> n in names }

  /** Some other AquaductTaaS that is not being deleted refers to the Secret. */
  predicate StillReferenced(st: State, t: string, secret: string) {
    exists o :: o in st.taases && o != t && !st.taases[o].deleting && st.taases[o].secretRef.Some?
      && st.taases[o].secretRef.value.name == secret
  }

  /** releaseSecretFinalizer; a Secret already being deleted goes with its last finalizer. */
  function Release(st: State, t: string, secret: string): map<string, Secret> {
    if secret !in st.secrets || !st.secrets[secret].inUse || StillReferenced(st, t, secret) then st.secrets
    else if st.secrets[secret].deleting then st.secrets - {secret}
    else st.secrets[secret := st.secrets[secret].(inUse := false)]
  }

  /** The object removed, its Secret released, the account server as the suspend loop left it. */
  function Gone(st: State, t: string, remote: Server): State
    requires t in st.taases && st.taases[t].secretRef.Some?
  {
    st.(remote := remote, secrets := Release(st, t, st.taases[t].secretRef.value.name), taases := st.taases - {t})
  }

  /** handleDeletion: records first, then bastions, then the Secret, then the object itself. */
  function TaaSDeletion(st: State, t: string, now: int, order: seq<string>, f: TaaSFaults): State
    requires t in st.taases
  {
    var taas := st.taases[t];
    var token := TokenOf(st, taas);
    if !taas.finalizer then st
    else if token.None? then Unavailable(st, t, NoToken(taas), now)
    else if OwnedRecords(st, t) != {} then
      st.(records := DeleteAll(st.records, Unmarked(st, t)))
    else
      var s := SuspendAll(st.remote, token.value, st.servers, order, f.suspend);
      if !s.ok then Unavailable(st.(remote := s.remote), t, SuspendError, now)
      else Gone(st, t, s.remote)
  }

  /** What a sync makes of the mirror and the status; `done` when it went through. */
  datatype Sync = Sync(servers: map<string, WeftServer>, status: TaaSStatus, done: bool)

  function TaaSSync(st: State, t: string, token: string, now: int, f: TaaSFaults): Sync
    requires t in st.taases
  {
    var was := st.taases[t].status;
    if f.list then Sync(st.servers, FailedStatus(was, APIError, now), false)
    else
      var bs := BastionsOf(st.remote, token);
      var s := Mirror(st.servers, t, bs);
      if !s.ok then Sync(s.servers, FailedStatus(was, SyncError, now), false)
      else Sync(s.servers, Publish(was, bs, MirroredNames(bs), now), true)
  }

  /** The in-use finalizer on the Secret just read. */
  function PinSecret(secrets: map<string, Secret>, secret: string): map<string, Secret>
    requires secret in secrets
  {
    secrets[secret := secrets[secret].(inUse := true)]
  }

  /** One AquaductTaaS reconcile. `order` is how the API server listed the servers it owns. */
  function TaaSPass(st: State, t: string, now: int, order: seq<string>, f: TaaSFaults): State {
    if t !in st.taases then st
    else
      var taas := st.taases[t];
      if taas.deleting then TaaSDeletion(st, t, now, order, f)
      else if !taas.finalizer then st.(taases := st.taases[t := taas.(finalizer := true)])
      else
        match TokenOf(st, taas)
        case None => Unavailable(st, t, NoToken(taas), now)
        case Some(token) =>
          var s := TaaSSync(st, t, token, now, f);
          st.(secrets := PinSecret(st.secrets, taas.secretRef.value.name), servers := s.servers,
              taases := st.taases[t := taas.(status := s.status, synced := taas.synced || s.done)])
  }

  // ---- the Gateway pass ----

  /** findSingletonTaaS */
  ghost function Singleton(st: State): (r: Option<string>)
    ensures r.Some? ==> st.taases.Keys == {r.value}
  {
    if exists t :: st.taases.Keys == {t} then var t :| st.taases.Keys == {t}; Some(t) else None
  }

  ghost function GatewayPass(d: Digest, st: State, gw: GatewayKey, ls: seq<Listener>): State {
    match Singleton(st)
    case None => st
    case Some(t) => st.(records := Reconciled(d, st.records, t, st.taases[t].status.bastions, gw, ls).records)
  }

  /** cleanupDNSRecords for a Gateway being deleted. */
  ghost function GatewayCleanup(st: State, gw: GatewayKey): State {
    match Singleton(st)
    case None => st
    case Some(_) => st.(records := DeleteAll(st.records, Labelled(st.records, gw)))
  }
}
