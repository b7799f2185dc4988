/** internal/controller/weftlocaldnsreflector/reconciler.go: passes over reflectors that share ConfigMaps. */
module Reflectors {
  import opened Order
  import opened Text
  import opened Api
  import opened LocalDns
  import opened Claims
  import opened Routes
  import opened CoreDns

  // ---- one pass ----

  /** The address of the proxy Service: not assigned, not an IP, or an IP in canonical text. */
  datatype ServiceIP = Unassigned | Malformed | IP(text: string)

  /** The call of a pass that fails, if one does, in the order they are made. */
  datatype Stage = Nowhere | Lists | Certificates | TrustBundle | Pods | Service | Deployment | ConfigMap | NodeAgent

  /**
   * What a pass meets: the expiry of its certificate, the pods that do not trust it, the Service and the
   * Deployment.
   */
  datatype Env = Env(failure: Stage, notAfter: int, untrusted: nat, sample: seq<string>, ip: ServiceIP,
    deploymentAvailable: bool)

  /** An error before the DNS stage. */
  predicate StopsEarly(env: Env) { env.failure in {Lists, Certificates, TrustBundle, Pods, Service, Deployment} }

  /** certNames: a placeholder while nothing is claimed. */
  function CertNames(self: Reflector, claimed: seq<string>, suffix: string): seq<string> {
    if claimed == [] then [self.name + suffix] else claimed
  }

  function ServedRoutes(self: Reflector, all: seq<Reflector>, ts: seq<Tunnel>): seq<Route> {
    ComputedRoutes(Claimed(self, all, ts), ts).routes
  }

  predicate Trusted(self: Reflector, env: Env) { env.untrusted == 0 || self.ignoreUntrusted }

  /** DNS points at the proxy only while it can answer and everybody trusts it. */
  predicate Publishes(self: Reflector, routes: seq<Route>, env: Env) {
    !self.dnsDisabled && env.deploymentAvailable && routes != [] && Trusted(self, env) && env.ip != Unassigned
  }

  function AddressOf(ip: ServiceIP): Option<string> { if ip.IP? then Some(ip.text) else None }

  function ContentFrom(syn: Syntax, self: Reflector, routes: seq<Route>, env: Env): Option<string> {
    if !Publishes(self, routes, env) then Some("")
    else
      match Rendered(syn, self.name, AddressOf(env.ip), RoutedHostnames(routes))
      case File(text) => Some(text)
      case _ => None
  }

  /**
   * What the pass writes under its key, the empty text meaning that the key is withdrawn; None when rendering
   * fails.
   */
  function ContentOf(syn: Syntax, self: Reflector, all: seq<Reflector>, ts: seq<Tunnel>, env: Env): Option<string> {
    ContentFrom(syn, self, ServedRoutes(self, all, ts), env)
  }

  method RenderContent(
    syn: Syntax, self: Reflector, routes: seq<Route>, routed: seq<string>, env: Env)
    returns (content: Option<string>)
    requires routed == RoutedHostnames(routes)
    ensures content == ContentFrom(syn, self, routes, env)
  {
    var trusted := env.untrusted == 0 || self.ignoreUntrusted;
    var available := env.deploymentAvailable && |routes| > 0;
    if !self.dnsDisabled && available && trusted && env.ip != Unassigned {
      var r := RenderCoreDNS(syn, self.name, AddressOf(env.ip), routed);
      if !r.File? {
        return None;
      }
      return Some(r.text);
    }
    content := Some("");
  }

  // ---- the status ----

  datatype Kind = CertificateReady | ClientsTrustCA | ProxyAvailable | DNSPublished | IsReady

  datatype Why =
    | Issued | IssueFailed | AllPodsTrust | IgnoredBySpec | PodsNeedRestart | NoRoutes | Waiting | Available
    | RenderFailed | SyncFailed | Disabled | Published | WaitingForTrust | Withdrawn
    | Reflecting | NotReady | ReconcileError

  datatype Mark = Mark(ok: bool, why: Why)

  datatype Status = Status(
    reflected: seq<string>, conflicting: seq<string>, routes: seq<Route>, unrouted: seq<string>, notAfter: Option<int>,
    bundle: bool, untrusted: nat, sample: seq<string>, ip: ServiceIP, marks: map<Kind, Mark>)

  function Marked(s: Status, k: Kind, ok: bool, why: Why): Status { s.(marks := s.marks[k := Mark(ok, why)]) }

  /** A pass that ended in an error. */
  function Errored(s: Status): Status { Marked(s, IsReady, false, ReconcileError) }

  function WithClaims(s: Status, self: Reflector, all: seq<Reflector>, ts: seq<Tunnel>): Status {
    var claimed := Claimed(self, all, ts);
    var rs := ComputedRoutes(claimed, ts);
    s.(reflected := claimed, conflicting := Conflicting(self, all, ts), routes := rs.routes, unrouted := rs.unrouted)
  }

  function WithCertificate(s: Status, env: Env): Status
  {
    Marked(s.(notAfter := Some(env.notAfter)), CertificateReady, true, Issued)
  }

  function WithTrust(s: Status, self: Reflector, env: Env): Status {
    Marked(s.(untrusted := env.untrusted, sample := env.sample), ClientsTrustCA, Trusted(self, env),
           if env.untrusted == 0 then AllPodsTrust else if self.ignoreUntrusted then IgnoredBySpec else PodsNeedRestart)
  }

  predicate Answers(routes: seq<Route>, env: Env) { env.deploymentAvailable && routes != [] }

  function WithProxy(s: Status, env: Env): Status {
    Marked(s, ProxyAvailable, Answers(s.routes, env),
           if s.routes == [] then NoRoutes else if !env.deploymentAvailable then Waiting else Available)
  }

  function WithDns(s: Status, self: Reflector, env: Env, published: bool): Status {
    Marked(s, DNSPublished, self.dnsDisabled || published,
           if self.dnsDisabled then Disabled else if published then Published
           else if !Trusted(self, env) then WaitingForTrust else Withdrawn)
  }

  function WithReady(s: Status, self: Reflector, env: Env, published: bool): Status {
    var ready := Answers(s.routes, env) && Trusted(self, env) && (published || self.dnsDisabled);
    Marked(s, IsReady, ready, if ready then Reflecting else NotReady)
  }

  /** From the claims to the DNS stage. */
  function PreparedFrom(s: Status, self: Reflector, env: Env): Status {
    if env.failure == Certificates then Marked(s, CertificateReady, false, IssueFailed)
    else
      var s := WithCertificate(s, env);
      if env.failure == TrustBundle then s
      else if env.failure == Pods then s.(bundle := true)
      else
        var s := WithTrust(s.(bundle := true), self, env);
        if env.failure == Service then s
        else if env.failure == Deployment then s.(ip := env.ip)
        else WithProxy(s.(ip := env.ip), env)
  }

  /** The part of a pass before the DNS stage. */
  function Prepared(was: Status, self: Reflector, all: seq<Reflector>, ts: seq<Tunnel>, env: Env): Status {
    if env.failure == Lists then was else PreparedFrom(WithClaims(was, self, all, ts), self, env)
  }

  /** The DNS stage and what follows. */
  function Concluded(s: Status, self: Reflector, env: Env, content: Option<string>): Status {
    if content.None? then Errored(Marked(s, DNSPublished, false, RenderFailed))
    else if env.failure == ConfigMap then Errored(Marked(s, DNSPublished, false, SyncFailed))
    else
      var published := content.value != "";
      var s := WithDns(s, self, env, published);
      if env.failure == NodeAgent then Errored(s) else WithReady(s, self, env, published)
  }

  /** The status a pass leaves, wherever it stops. */
  function StatusAfter(
    was: Status, self: Reflector, all: seq<Reflector>, ts: seq<Tunnel>, env: Env, content: Option<string>): Status
  {
    var s := Prepared(was, self, all, ts, env);
    if StopsEarly(env) then Errored(s) else Concluded(s, self, env, content)
  }

  /** The shared ConfigMap a pass leaves. */
  function DataAfter(
    was: Option<map<string, string>>, key: string, env: Env, content: Option<string>): Option<map<string, string>>
  {
    if StopsEarly(env) || content.None? || env.failure == ConfigMap then was else Synced(was, key, content.value)
  }

  /** The hostnames the node agents are given. */
  function AgentHosts(self: Reflector, routes: seq<Route>, env: Env): seq<string> {
    if Trusted(self, env) then RoutedHostnames(routes) else []
  }

  /** A reflector in the controller's hands: its status, and the ConfigMap it shares. */
  class Reconciler {
    const cm: CustomConfigMap
    var status: Status

    constructor (cm: CustomConfigMap, status: Status)
      ensures this.cm == cm && this.status == status
    {
      this.cm, this.status := cm, status;
    }

    method SetMark(k: Kind, ok: bool, why: Why)
      modifies this`status
      ensures status == Marked(old(status), k, ok, why)
    {
      status := status.(marks := status.marks[k := Mark(ok, why)]);
    }

    /** The lists, claims and routes; false when a list failed. */
    method TakeClaims(self: Reflector, all: seq<Reflector>, ts: seq<Tunnel>, env: Env) returns (ok: bool)
      requires DistinctNames(all) && DistinctKeys(ts)
      modifies this`status
      ensures ok == (env.failure != Lists) && status == if ok then WithClaims(old(status), self, all, ts)
          else old(status)
    {
      if env.failure == Lists {
        return false;
      }
      var claimed, conflicting := ResolveClaims(self, all, ts);
      var rs := ComputeRoutes(claimed, ts);
      status := status.(reflected := claimed, conflicting := conflicting, routes := rs.routes, unrouted := rs.unrouted);
      ok := true;
    }

    /** Certificate, trust and proxy, in this order; false when a call failed. */
    method Prepare(self: Reflector, env: Env) returns (ok: bool)
      requires env.failure != Lists
      modifies this`status
      ensures status == PreparedFrom(old(status), self, env) && ok == !StopsEarly(env)
    {
      if env.failure == Certificates {
        SetMark(CertificateReady, false, IssueFailed);
        return false;
      }
      status := status.(notAfter := Some(env.notAfter));
      SetMark(CertificateReady, true, Issued);
      if env.failure == TrustBundle {
        return false;
      }
      status := status.(bundle := true);
      if env.failure == Pods {
        return false;
      }
      status := status.(untrusted := env.untrusted, sample := env.sample);
      if env.untrusted == 0 {
        SetMark(ClientsTrustCA, true, AllPodsTrust);
      } else if self.ignoreUntrusted {
        SetMark(ClientsTrustCA, true, IgnoredBySpec);
      } else {
        SetMark(ClientsTrustCA, false, PodsNeedRestart);
      }
      if env.failure == Service {
        return false;
      }
      status := status.(ip := env.ip);
      if env.failure == Deployment {
        return false;
      }
      if |status.routes| == 0 {
        SetMark(ProxyAvailable, false, NoRoutes);
      } else if !env.deploymentAvailable {
        SetMark(ProxyAvailable, false, Waiting);
      } else {
        SetMark(ProxyAvailable, true, Available);
      }
      ok := true;
    }

    /** The DNS stage and what follows: the ConfigMap, the node agents' host list, Ready. */
    method Publish(syn: Syntax, key: string, self: Reflector, env: Env) returns (ok: bool, agentHosts: seq<string>)
      requires !StopsEarly(env)
      modifies this`status, cm
      ensures var content := ContentFrom(syn, self, old(status).routes, env);
              && ok == (env.failure == Nowhere && content.Some?)
              && Concluded(old(status), self, env, content) == (if ok then status else Errored(status))
              && cm.data == DataAfter(old(cm.data), key, env, content)
              && (ok ==> agentHosts == AgentHosts(self, old(status).routes, env))
    {
      var trusted := env.untrusted == 0 || self.ignoreUntrusted;
      var available := env.deploymentAvailable && |status.routes| > 0;
      var routed := ComputeRoutedHostnames(status.routes);
      var content := RenderContent(syn, self, status.routes, routed, env);
      if content.None? {
        SetMark(DNSPublished, false, RenderFailed);
        return false, [];
      }
      if env.failure == ConfigMap {
        SetMark(DNSPublished, false, SyncFailed);
        return false, [];
      }
      var published := cm.Sync(key, content.value);
      if self.dnsDisabled {
        SetMark(DNSPublished, true, Disabled);
      } else if published {
        SetMark(DNSPublished, true, Published);
      } else if !trusted {
        SetMark(DNSPublished, false, WaitingForTrust);
      } else {
        SetMark(DNSPublished, false, Withdrawn);
      }
      agentHosts := if trusted then routed else [];
      if env.failure == NodeAgent {
        return false, agentHosts;
      }
      var ready := available && trusted && (published || self.dnsDisabled);
      SetMark(IsReady, ready, if ready then Reflecting else NotReady);
      ok := true;
    }

    /** The DNS stage, with its error handling. */
    method Conclude(syn: Syntax, key: string, self: Reflector, env: Env) returns (ok: bool, agentHosts: seq<string>)
      requires !StopsEarly(env)
      modifies this`status, cm
      ensures var content := ContentFrom(syn, self, old(status).routes, env);
              && ok == (env.failure == Nowhere && content.Some?)
              && status == Concluded(old(status), self, env, content)
              && cm.data == DataAfter(old(cm.data), key, env, content)
              && (ok ==> agentHosts == AgentHosts(self, old(status).routes, env))
    {
      ok, agentHosts := Publish(syn, key, self, env);
      if !ok {
        SetMark(IsReady, false, ReconcileError);
      }
    }

    method BeforeDns(self: Reflector, all: seq<Reflector>, ts: seq<Tunnel>, env: Env) returns (ok: bool)
      requires DistinctNames(all) && DistinctKeys(ts)
      modifies this`status
      ensures status == Prepared(old(status), self, all, ts, env) && ok == !StopsEarly(env)
      ensures ok ==> status.routes == ServedRoutes(self, all, ts)
    {
      ok := TakeClaims(self, all, ts, env);
      if ok {
        PreparedKeeps(status, self, env);
        ok := Prepare(self, env);
      }
    }

    /** One pass; an error anywhere ends it and makes the reflector not ready. */
    method Reconcile(syn: Syntax, key: string, self: Reflector, all: seq<Reflector>, ts: seq<Tunnel>, env: Env)
      returns (ok: bool, agentHosts: seq<string>)
      requires DistinctNames(all) && DistinctKeys(ts)
      modifies this`status, cm
      ensures status == StatusAfter(old(status), self, all, ts, env, ContentOf(syn, self, all, ts, env))
      ensures ok == (env.failure == Nowhere && ContentOf(syn, self, all, ts, env).Some?)
      ensures cm.data == DataAfter(old(cm.data), key, env, ContentOf(syn, self, all, ts, env))
      ensures ok ==> agentHosts == AgentHosts(self, ServedRoutes(self, all, ts), env)
    {
      ok := BeforeDns(self, all, ts, env);
      agentHosts := [];
      if ok {
        ok, agentHosts := Conclude(syn, key, self, env);
      } else {
        SetMark(IsReady, false, ReconcileError);
      }
    }
  }

  /** What follows the claims leaves them in the status. */
  lemma PreparedKeeps(s: Status, self: Reflector, env: Env)
    ensures var after := PreparedFrom(s, self, env);
            after.reflected == s.reflected && after.conflicting == s.conflicting && after.routes == s.routes
              && after.unrouted == s.unrouted
  {
  }

  lemma PreparedReports(was: Status, self: Reflector, all: seq<Reflector>, ts: seq<Tunnel>, env: Env)
    requires env.failure != Lists
    ensures var after, rs := Prepared(was, self, all, ts, env), ComputedRoutes(Claimed(self, all, ts), ts);
            && after.reflected == Claimed(self, all, ts) && after.conflicting == Conflicting(self, all, ts)
            && after.routes == rs.routes && after.unrouted == rs.unrouted
  {
    PreparedKeeps(WithClaims(was, self, all, ts), self, env);
  }

  /** The marks set before the DNS stage, in terms of what the pass met. */
  lemma PreparedMarks(s: Status, self: Reflector, env: Env)
    requires env.failure !in {Lists, Certificates, TrustBundle, Pods, Service, Deployment}
    ensures var after := PreparedFrom(s, self, env);
            && after.notAfter == Some(env.notAfter) && after.bundle && after.ip == env.ip
            && after.untrusted == env.untrusted && after.sample == env.sample
            && CertificateReady in after.marks && after.marks[CertificateReady] == Mark(true, Issued)
            && ClientsTrustCA in after.marks
            && (after.marks[ClientsTrustCA].ok <==> env.untrusted == 0 || self.ignoreUntrusted)
            && (after.marks[ClientsTrustCA].why == AllPodsTrust <==> env.untrusted == 0)
            && (after.marks[ClientsTrustCA].why == PodsNeedRestart <==> env.untrusted != 0 && !self.ignoreUntrusted)
            && ProxyAvailable in after.marks
            && (after.marks[ProxyAvailable].ok <==> env.deploymentAvailable && s.routes != [])
            && (after.marks[ProxyAvailable].why == NoRoutes <==> s.routes == [])
  {
  }

  /** The stage that fails is the last one to leave a mark; what it did not reach stays as it was. */
  lemma PreparedStops(s: Status, self: Reflector, env: Env)
    requires env.failure in {Certificates, TrustBundle, Pods, Service, Deployment}
    ensures var after := PreparedFrom(s, self, env);
            && CertificateReady in after.marks && (after.marks[CertificateReady].ok <==> env.failure != Certificates)
            && (env.failure == Certificates ==> after.notAfter == s.notAfter)
            && (env.failure in {Certificates, TrustBundle} ==> after.bundle == s.bundle)
            && (env.failure in {Certificates, TrustBundle, Pods} ==>
                 after.untrusted == s.untrusted && after.sample == s.sample)
            && (env.failure in {Service, Deployment} ==> after.untrusted == env.untrusted)
            && (env.failure != Deployment ==> after.ip == s.ip)
            && forall k :: k in {DNSPublished, ProxyAvailable, IsReady} ==>
                 (k in after.marks <==> k in s.marks) && (k in s.marks ==> after.marks[k] == s.marks[k])
  {
  }

  lemma ConcludedMarks(s: Status, self: Reflector, env: Env, content: Option<string>)
    requires env.failure in {Nowhere, ConfigMap, NodeAgent}
    ensures var after := Concluded(s, self, env, content);
            && IsReady in after.marks && DNSPublished in after.marks
            && (after.marks[IsReady].ok <==>
                  && env.failure == Nowhere && content.Some? && env.deploymentAvailable && s.routes != []
                  && (env.untrusted == 0 || self.ignoreUntrusted) && (content.value != "" || self.dnsDisabled))
            && (after.marks[DNSPublished].ok <==>
                  content.Some? && env.failure != ConfigMap && (content.value != "" || self.dnsDisabled))
            && (after.marks[DNSPublished].why == WaitingForTrust <==>
                  && content.Some? && env.failure != ConfigMap && !self.dnsDisabled && content.value == ""
                  && env.untrusted != 0 && !self.ignoreUntrusted)
            && after == s.(marks := after.marks)
            && forall k :: k in {CertificateReady, ClientsTrustCA, ProxyAvailable} ==>
                 (k in after.marks <==> k in s.marks) && (k in s.marks ==> after.marks[k] == s.marks[k])
  {
  }

  /**
   * The status a pass leaves, in terms of what it met. Ready says exactly that the pass went through
   * and that names resolve to a proxy that has routes, is available and is trusted (or need not be);
   * and unless the lists failed, the status reports the present claims and routes, whatever fails later.
   */
  lemma StatusExactly(
    was: Status, self: Reflector, all: seq<Reflector>, ts: seq<Tunnel>, env: Env, content: Option<string>)
    ensures var after, rs := StatusAfter(was, self, all, ts, env, content), ComputedRoutes(Claimed(self, all, ts), ts);
            && IsReady in after.marks
            && (after.marks[IsReady].ok <==>
                  && env.failure == Nowhere && content.Some? && env.deploymentAvailable && rs.routes != []
                  && (env.untrusted == 0 || self.ignoreUntrusted) && (content.value != "" || self.dnsDisabled))
            && (env.failure != Lists ==>
                  && after.reflected == Claimed(self, all, ts) && after.conflicting == Conflicting(self, all, ts)
                  && after.routes == rs.routes && after.unrouted == rs.unrouted)
  {
    var s := Prepared(was, self, all, ts, env);
    if env.failure != Lists { PreparedReports(was, self, all, ts, env); }
    if !StopsEarly(env) { ConcludedMarks(s, self, env, content); }
  }

  /** The marks a pass leaves that reached the DNS stage: trust, proxy and publication. */
  lemma MarksExactly(
    was: Status, self: Reflector, all: seq<Reflector>, ts: seq<Tunnel>, env: Env, content: Option<string>)
    requires env.failure in {Nowhere, ConfigMap, NodeAgent}
    ensures var after, rs := StatusAfter(was, self, all, ts, env, content), ComputedRoutes(Claimed(self, all, ts), ts);
            && ClientsTrustCA in after.marks && ProxyAvailable in after.marks && DNSPublished in after.marks
            && (after.marks[ClientsTrustCA].ok <==> env.untrusted == 0 || self.ignoreUntrusted)
            && (after.marks[ProxyAvailable].ok <==> env.deploymentAvailable && rs.routes != [])
            && (after.marks[DNSPublished].ok <==>
                  content.Some? && env.failure != ConfigMap && (content.value != "" || self.dnsDisabled))
            && after.notAfter == Some(env.notAfter) && after.untrusted == env.untrusted && after.ip == env.ip
  {
    PreparedMarks(WithClaims(was, self, all, ts), self, env);
    ConcludedMarks(Prepared(was, self, all, ts, env), self, env, content);
  }

  // ---- when DNS is published ----

  lemma EmitIsNotEmpty(lines: seq<string>)
    requires lines != []
    ensures Emit(lines) != ""
  {
    assert |lines[0] + "\n" + Emit(lines[1..])| > 0;
  }

  lemma ContentOfRoutes(syn: Syntax, self: Reflector, routes: seq<Route>, env: Env)
    ensures var content, gate := ContentFrom(syn, self, routes, env), env.untrusted == 0 || self.ignoreUntrusted;
            && (content == Some("") <==>
                  self.dnsDisabled || !env.deploymentAvailable || routes == [] || !gate || env.ip.Unassigned?)
            && (content.Some? ==> (content.value != "" ==> env.ip.IP?))
            && (!self.dnsDisabled && env.deploymentAvailable && routes != [] && gate && !env.ip.Unassigned? ==>
                  (content.Some? <==> Rendered(syn, self.name, AddressOf(env.ip), RoutedHostnames(routes)).File?))
  {
    var hosts := SortedLower(RoutedHostnames(routes));
    if env.ip.IP? { EmitIsNotEmpty([syn.banner + self.name + syn.bannerEnd] + Blocks(syn, env.ip.text, hosts)); }
  }

  /** The routed hostnames are those of the routes. */
  lemma RoutedOf(rs: seq<Route>)
    ensures forall i :: 0 <= i < |rs| ==> rs[i].hostname in RoutedHostnames(rs)
    ensures forall h :: h in RoutedHostnames(rs) ==> exists i :: 0 <= i < |rs| && rs[i].hostname == h
  {
    HostsOfMembers(rs);
    SortStringsProperties(HostsOf(rs));
    forall i | 0 <= i < |rs| ensures HasRoute(rs, rs[i].hostname) { }
  }

  lemma ServableOf(rs: seq<Route>)
    ensures (forall h :: h in RoutedHostnames(rs) ==> Servable(h)) <==>
        (forall i :: 0 <= i < |rs| ==> Servable(rs[i].hostname))
  {
    RoutedOf(rs);
  }

  /** Routed names render exactly when each of them is servable. */
  lemma RoutedRender(syn: Syntax, self: Reflector, all: seq<Reflector>, ts: seq<Tunnel>, ip: Option<string>)
    requires DistinctKeys(ts)
    ensures var rs := ComputedRoutes(Claimed(self, all, ts), ts).routes;
            rs != [] ==>
              (Rendered(syn, self.name, ip, RoutedHostnames(rs)).File? <==>
                 ip.Some? && forall i :: 0 <= i < |rs| ==> Servable(rs[i].hostname))
  {
    var rs := ComputedRoutes(Claimed(self, all, ts), ts).routes;
    RoutedAreClaimed(self, all, ts);
    RenderSucceeds(syn, self.name, ip, RoutedHostnames(rs));
    ServableOf(rs);
  }

  /**
   * When DNS is published, exactly. A pass writes a zone file if and only if the override is not
   * disabled, the proxy is available and has routes, no running pod distrusts the CA (or that is
   * ignored by the spec), the Service has an IP, and every routed name is servable. It withdraws
   * the key when one of the gates is closed or there is no address yet; and rendering fails when all
   * gates are open but the address is no IP or some routed name is not servable.
   */
  lemma ContentExactly(syn: Syntax, self: Reflector, all: seq<Reflector>, ts: seq<Tunnel>, env: Env)
    requires DistinctKeys(ts)
    ensures var content, rs := ContentOf(syn, self, all, ts, env), ComputedRoutes(Claimed(self, all, ts), ts).routes;
            && (content.Some? && content.value != "" <==>
                  && !self.dnsDisabled && env.deploymentAvailable && rs != []
                  && (env.untrusted == 0 || self.ignoreUntrusted)
                  && env.ip.IP? && forall i :: 0 <= i < |rs| ==> Servable(rs[i].hostname))
            && (content == Some("") <==>
                  || self.dnsDisabled || !env.deploymentAvailable || rs == []
                  || (env.untrusted != 0 && !self.ignoreUntrusted) || env.ip.Unassigned?)
            && (content.None? <==>
                  && !self.dnsDisabled && env.deploymentAvailable && rs != []
                  && (env.untrusted == 0 || self.ignoreUntrusted)
                  && (env.ip.Malformed? || (env.ip.IP? && exists i :: 0 <= i < |rs| && !Servable(rs[i].hostname))))
  {
    ContentOfRoutes(syn, self, ComputedRoutes(Claimed(self, all, ts), ts).routes, env);
    RoutedRender(syn, self, all, ts, AddressOf(env.ip));
  }

  /** A pass that gets to the ConfigMap sets or removes its key there, by its content; no other key changes. */
  lemma DataOfContent(was: Option<map<string, string>>, key: string, env: Env, content: Option<string>)
    ensures var after := DataAfter(was, key, env, content);
            && (env.failure !in {Nowhere, NodeAgent} || content.None? ==> after == was)
            && (env.failure in {Nowhere, NodeAgent} && content == Some("") ==> after.None? || key !in after.value)
            && (env.failure in {Nowhere, NodeAgent} && content.Some? && content.value != "" ==>
                  after.Some? && key in after.value && after.value[key] == content.value)
            && (forall k :: k != key ==>
                  (after.Some? && k in after.value <==> was.Some? && k in was.value)
                  && (was.Some? && k in was.value ==>
                       after.Some? && k in after.value && after.value[k] == was.value[k]))
  {
  }

  /**
   * What a pass does to its key of the shared ConfigMap, exactly. When no call fails before or at the
   * ConfigMap, the key is there afterwards if every gate is open and the names render, it is gone if
   * a gate is closed or there is no address yet, and it stays as it was if rendering fails.
   */
  lemma DataExactly(
    syn: Syntax, was: Option<map<string, string>>, key: string, self: Reflector, all: seq<Reflector>, ts: seq<Tunnel>,
    env: Env)
    requires DistinctKeys(ts) && env.failure in {Nowhere, NodeAgent}
    ensures var after := DataAfter(was, key, env, ContentOf(syn, self, all, ts, env));
            var rs := ComputedRoutes(Claimed(self, all, ts), ts).routes;
            var open := !self.dnsDisabled && env.deploymentAvailable && rs != []
                        && (env.untrusted == 0 || self.ignoreUntrusted) && !env.ip.Unassigned?;
            var renders := env.ip.IP? && forall i :: 0 <= i < |rs| ==> Servable(rs[i].hostname);
            && (open && renders ==> after.Some? && key in after.value && after.value[key] != "")
            && (!open ==> after.None? || key !in after.value)
            && (open && !renders ==> after == was)
  {
    ContentExactly(syn, self, all, ts, env);
    DataOfContent(was, key, env, ContentOf(syn, self, all, ts, env));
  }

  /** The node agents get the routed hostnames while the trust gate is open, and none while it is closed. */
  lemma AgentHostsExactly(self: Reflector, routes: seq<Route>, env: Env)
    ensures AgentHosts(self, routes, env) == [] <==> (env.untrusted != 0 && !self.ignoreUntrusted) || routes == []
    ensures forall h :: h in AgentHosts(self, routes, env) <==>
              (env.untrusted == 0 || self.ignoreUntrusted) && exists i :: 0 <= i < |routes| && routes[i].hostname == h
  {
    HostsOfMembers(routes);
    SortStringsProperties(HostsOf(routes));
    if routes != [] { assert HasRoute(routes, routes[0].hostname); }
  }

  // ---- published zones are servable ----

  predicate ServesZone(syn: Syntax, text: string, h: string) { Zone(h) in ReadBack(syn, text) }

  lemma ClaimedAreLower(self: Reflector, all: seq<Reflector>, ts: seq<Tunnel>)
    ensures forall h :: Names(Claimed(self, all, ts), h) <==> h in Claimed(self, all, ts)
  {
    var claimed := Claimed(self, all, ts);
    ClaimedMembers(self, all, ts);
    TunnelHostnamesMembers(ts);
    SortedNamesMembers(self.hostnames);
    forall h | h in claimed ensures Lower(h) == h {
      if self.allHostnames {
        ServableChars(h);
      } else {
        var i :| 0 <= i < |self.hostnames| && Lower(self.hostnames[i]) == h;
        LowerIdempotent(self.hostnames[i]);
      }
    }
    LowerNames(claimed);
  }

  lemma LowerNames(xs: seq<string>)
    requires forall h :: h in xs ==> Lower(h) == h
    ensures forall h :: Names(xs, h) <==> h in xs
  {
    forall h ensures Names(xs, h) <==> h in xs {
      if h in xs {
        var i :| 0 <= i < |xs| && xs[i] == h;
        assert Lower(xs[i]) == h;
      }
      if Names(xs, h) {
        var i :| 0 <= i < |xs| && Lower(xs[i]) == h;
        assert xs[i] in xs;
      }
    }
  }

  /** Routed hostnames are claimed, and already in the form SortedLower gives them. */
  lemma RoutedAreClaimed(self: Reflector, all: seq<Reflector>, ts: seq<Tunnel>)
    requires DistinctKeys(ts)
    ensures var routed := RoutedHostnames(ServedRoutes(self, all, ts));
            && (forall h :: h in routed ==> h in Claimed(self, all, ts))
            && (forall h :: Names(routed, h) <==> h in routed)
            && SortedLower(routed) == routed
            && (ServedRoutes(self, all, ts) != [] ==> routed != [])
  {
    var claimed, routes := Claimed(self, all, ts), ServedRoutes(self, all, ts);
    var routed := RoutedHostnames(routes);
    RoutedHostnamesExact(claimed, ts);
    ClaimedAreLower(self, all, ts);
    forall h | h in routed ensures Lower(h) == h { LowerOf(claimed, h); }
    LowerNames(routed);
    SortedLowerMembers(routed);
    StrictStringsUnique(SortedLower(routed), routed);
    if routes != [] {
      assert HasRoute(routes, routes[0].hostname);
    }
  }

  lemma LowerOf(xs: seq<string>, h: string)
    requires Names(xs, h)
    ensures Lower(h) == h
  {
    var i :| 0 <= i < |xs| && Lower(xs[i]) == h;
    LowerIdempotent(xs[i]);
  }

  /** The zones a pass publishes are exactly the routed hostnames; each is claimed and on the certificate. */
  lemma PublishedZones(syn: Syntax, self: Reflector, all: seq<Reflector>, ts: seq<Tunnel>, env: Env, suffix: string)
    requires Readable(syn) && DistinctKeys(ts) && '\n' !in self.name && (env.ip.IP? ==> PlainAddress(syn, env.ip.text))
    requires ContentOf(syn, self, all, ts, env).Some? && ContentOf(syn, self, all, ts, env).value != ""
    ensures var text, claimed := ContentOf(syn, self, all, ts, env).value, Claimed(self, all, ts);
            && (forall h :: ServesZone(syn, text, h) <==> HasRoute(ServedRoutes(self, all, ts), h))
            && (forall h :: ServesZone(syn, text, h) ==>
                 h in claimed && h in SortedLower(CertNames(self, claimed, suffix)))
  {
    var claimed, routes := Claimed(self, all, ts), ServedRoutes(self, all, ts);
    var routed := RoutedHostnames(routes);
    RoutedAreClaimed(self, all, ts);
    RoutedHostnamesExact(claimed, ts);
    RenderRoundTrip(syn, self.name, AddressOf(env.ip), routed);
    ExpectedZones(env.ip.text, routed);
    ClaimedAreLower(self, all, ts);
    SortedLowerMembers(claimed);
  }

  /** The file answers each of its zones with the Service's address, and nothing else. */
  lemma PublishedAnswers(syn: Syntax, self: Reflector, all: seq<Reflector>, ts: seq<Tunnel>, env: Env)
    requires Readable(syn) && DistinctKeys(ts) && '\n' !in self.name && (env.ip.IP? ==> PlainAddress(syn, env.ip.text))
    requires ContentOf(syn, self, all, ts, env).Some? && ContentOf(syn, self, all, ts, env).value != ""
    ensures var events := ReadBack(syn, ContentOf(syn, self, all, ts, env).value);
            env.ip.IP? && forall ip, h :: Answer(ip, h) in events <==> ip == env.ip.text && Zone(h) in events
  {
    var routed := RoutedHostnames(ServedRoutes(self, all, ts));
    RoutedAreClaimed(self, all, ts);
    RenderRoundTrip(syn, self.name, AddressOf(env.ip), routed);
    ExpectedZones(env.ip.text, routed);
  }

  /** Rendering cannot fail for `allHostnames`, nor for explicit names that are valid, given a valid address. */
  lemma RenderingCannotFail(syn: Syntax, self: Reflector, all: seq<Reflector>, ts: seq<Tunnel>, env: Env)
    requires DistinctKeys(ts) && (env.ip.IP? || env.ip.Unassigned?)
    requires self.allHostnames || forall h :: Names(self.hostnames, h) ==> Servable(h)
    ensures ContentOf(syn, self, all, ts, env).Some?
  {
    var routed := RoutedHostnames(ServedRoutes(self, all, ts));
    RoutedAreClaimed(self, all, ts);
    ClaimedMembers(self, all, ts);
    TunnelHostnamesMembers(ts);
    SortedNamesMembers(self.hostnames);
    RenderSucceeds(syn, self.name, AddressOf(env.ip), routed);
  }
}
