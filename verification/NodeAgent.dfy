/** internal/nodeagent: what one agent does to its node, and that Cleanup undoes all of it. */
module NodeAgent {
  import opened Text
  import opened Api
  import opened HostsFile
  import opened FileBytes
  import SharedFile

  /** One certs.d/<hostname> directory: hosts.toml, our CA file, and whatever else is in it. */
  datatype Dir = Dir(toml: Option<string>, ca: Option<string>, others: map<string, string>)

  /** The parts of a node the agent may write. `bundles` holds the host CA bundles that exist. */
  datatype Node = Node(hosts: string, bundles: map<string, string>, certs: map<string, Dir>)

  /** The text that marks what a reflector wrote: block markers per file kind, and the first line of hosts.toml. */
  datatype Tags = Tags(hosts: Markers, ca: Markers, toml: string)

  function TagsOf(reflector: string): Tags {
    Tags(MarkersOf(Hosts, reflector), MarkersOf(CA, reflector), CertsDMarker(reflector))
  }

  /** The agent's configuration; `tags` is always TagsOf(reflector). */
  datatype Config = Config(reflector: string, tags: Tags, serviceIP: string, trustFiles: seq<string>, certsDir: string)

  /**
   * One pass: the hostnames configured at that moment, the CA file (None when unreadable),
   * whether it holds a certificate, and the hostnames whose TLS handshake verifies.
   */
  datatype Pass = Pass(hostnames: seq<string>, ca: Option<string>, parses: bool, verified: set<string>)

  /** fmt's %q for names and paths that need no escaping. */
  function Quote(s: string): string { "\"" + s + "\"" }

  function CertsDMarker(reflector: string): string {
    "# Managed by weft-operator WeftLocalDNSReflector " + Quote(reflector) + ". Do not edit."
  }

  function RenderHostsTOML(tag: string, hostname: string, caPath: string): string {
    tag + ("\nserver = " + Quote("https://" + hostname) + "\nca = " + Quote(caPath) + "\n")
  }

  predicate IsSpace(c: char) { c in {' ', '\t', '\n', '\r', '\U{0B}', '\U{0C}'} }

  function TrimSpace(s: string): string
    decreases |s|
  {
    if s == [] then s
    else if IsSpace(s[0]) then TrimSpace(s[1..])
    else if IsSpace(s[|s| - 1]) then TrimSpace(s[..|s| - 1])
    else s
  }

  function HostsBody(ip: string, hostnames: seq<string>): seq<string> {
    if hostnames == [] then [] else [ip + " " + Join(hostnames, " ")]
  }

  function CABody(pem: string): seq<string> {
    if TrimSpace(pem) == "" then [] else Split(TrimSpace(pem), '\n')
  }

  function WithHostsBlock(cfg: Config, content: string, hostnames: seq<string>): string {
    WithManagedBlock(content, cfg.tags.hosts, HostsBody(cfg.serviceIP, hostnames))
  }

  function WithCABlock(cfg: Config, content: string, pem: string): string {
    WithManagedBlock(content, cfg.tags.ca, CABody(pem))
  }

  // ---- containerd certs.d ----

  predicate Owned(tag: string, dir: Dir) { dir.toml.Some? && HasPrefix(dir.toml.value, tag) }

  predicate Foreign(tag: string, dir: Dir) { dir.toml.Some? && !Owned(tag, dir) }

  const EMPTY_DIR := Dir(None, None, map[])

  function CAPath(cfg: Config, h: string): string { cfg.certsDir + "/" + h + "/weft-local-ca.crt" }

  function Written(cfg: Config, dir: Dir, h: string, pem: string): Dir {
    dir.(ca := Some(pem), toml := Some(RenderHostsTOML(cfg.tags.toml, h, CAPath(cfg, h))))
  }

  /** writeCertsD: refuses a directory with someone else's hosts.toml. */
  function WriteCerts(cfg: Config, certs: map<string, Dir>, h: string, pem: string): map<string, Dir> {
    if h in certs && Foreign(cfg.tags.toml, certs[h]) then certs
    else certs[h := Written(cfg, if h in certs then certs[h] else EMPTY_DIR, h, pem)]
  }

  function WriteAllCerts(cfg: Config, certs: map<string, Dir>, hs: seq<string>, pem: string): map<string, Dir> {
    if hs == [] then certs
    else WriteCerts(cfg, WriteAllCerts(cfg, certs, hs[..|hs| - 1], pem), hs[|hs| - 1], pem)
  }

  function OwnedHostnames(tag: string, certs: map<string, Dir>): set<string> {
    set h | h in certs && Owned(tag, certs[h])
  }

  function PruneCerts(cfg: Config, certs: map<string, Dir>, keep: seq<string>): map<string, Dir> {
    certs - (set h | h in OwnedHostnames(cfg.tags.toml, certs) && h !in keep)
  }

  function ApplyTrust(cfg: Config, bundles: map<string, string>, files: seq<string>, pem: string): map<string, string> {
    if files == [] then bundles
    else
      var done := ApplyTrust(cfg, bundles, files[..|files| - 1], pem);
      var f := files[|files| - 1];
      if f in done then done[f := WithCABlock(cfg, done[f], pem)] else done
  }

  lemma ApplyTrustNext(cfg: Config, bundles: map<string, string>, files: seq<string>, i: nat, pem: string)
    requires i < |files|
    ensures var done, f := ApplyTrust(cfg, bundles, files[..i], pem), files[i];
            ApplyTrust(cfg, bundles, files[..i + 1], pem) ==
              if f in done then done[f := WithCABlock(cfg, done[f], pem)] else done
  {
    assert files[..i + 1][..i] == files[..i];
  }

  predicate Healthy(p: Pass) {
    p.ca.Some? && p.parses && forall h :: h in p.hostnames ==> h in p.verified
  }

  /** What one Tick makes of the node. */
  function Ticked(cfg: Config, n: Node, p: Pass): Node {
    var hosts := WithHostsBlock(cfg, n.hosts, if Healthy(p) then p.hostnames else []);
    if p.ca.None? then n.(hosts := hosts)
    else
      var written := WriteAllCerts(cfg, n.certs, p.hostnames, p.ca.value);
      Node(hosts, ApplyTrust(cfg, n.bundles, cfg.trustFiles, p.ca.value), PruneCerts(cfg, written, p.hostnames))
  }

  /** What Cleanup makes of the node. */
  function CleanedUp(cfg: Config, n: Node): Node {
    Node(WithHostsBlock(cfg, n.hosts, []), ApplyTrust(cfg, n.bundles, cfg.trustFiles, ""), PruneCerts(cfg, n.certs, []))
  }

  /** The agent process and the node files mounted into it. */
  class Agent {
    const cfg: Config
    var hostnames: seq<string>
    var healthy: Option<bool>
    var hosts: string
    var bundles: map<string, string>
    var certs: map<string, Dir>

    constructor (cfg: Config, hostnames: seq<string>, node: Node)
      ensures this.cfg == cfg && this.hostnames == hostnames && View() == node && healthy == None
    {
      this.cfg, this.hostnames, healthy := cfg, hostnames, None;
      hosts, bundles, certs := node.hosts, node.bundles, node.certs;
    }

    function View(): Node
      reads this
    {
      Node(hosts, bundles, certs)
    }

    /** Tick: containerd trust, then the host CA bundles, then /etc/hosts by the health of the proxy. */
    method Tick(ca: Option<string>, parses: bool, verified: set<string>)
      modifies this
      ensures View() == Ticked(cfg, old(View()), Pass(hostnames, ca, parses, verified))
      ensures hostnames == old(hostnames)
      ensures healthy == if ca.Some? && parses then Some(Healthy(Pass(hostnames, ca, parses, verified)))
          else old(healthy)
    {
      if ca.None? {
        ApplyHosts([]);
        return;
      }
      InstallTrust(ca.value);
      if !parses {
        ApplyHosts([]);
        return;
      }
      var ok := CheckProxy(verified);
      if healthy.None? || healthy.value != ok {
        healthy := Some(ok);
      }
      if ok {
        ApplyHosts(hostnames);
      } else {
        ApplyHosts([]);
      }
    }

    /** The part of a pass that needs only the CA file. */
    method InstallTrust(pem: string)
      modifies this`certs, this`bundles
      ensures certs == PruneCerts(cfg, WriteAllCerts(cfg, old(certs), hostnames, pem), hostnames)
      ensures bundles == ApplyTrust(cfg, old(bundles), cfg.trustFiles, pem)
    {
      WriteAllCertsD(pem);
      RemoveCertsDExcept(hostnames);
      ApplyHostTrust(pem);
    }

    method WriteAllCertsD(pem: string)
      modifies this`certs
      ensures certs == WriteAllCerts(cfg, old(certs), hostnames, pem)
    {
      var i := 0;
      while i < |hostnames|
        invariant 0 <= i <= |hostnames|
        invariant certs == WriteAllCerts(cfg, old(certs), hostnames[..i], pem)
      {
        WriteCertsD(hostnames[i], pem);
        assert hostnames[..i + 1][..i] == hostnames[..i];
        i := i + 1;
      }
      assert hostnames[..i] == hostnames;
    }

    method CheckProxy(verified: set<string>) returns (ok: bool)
      ensures ok <==> forall h :: h in hostnames ==> h in verified
    {
      var i := 0;
      while i < |hostnames|
        invariant 0 <= i <= |hostnames|
        invariant forall k :: 0 <= k < i ==> hostnames[k] in verified
      {
        if hostnames[i] !in verified {
          return false;
        }
        i := i + 1;
      }
      return true;
    }

    method WriteCertsD(h: string, pem: string)
      modifies this`certs
      ensures certs == WriteCerts(cfg, old(certs), h, pem)
    {
      if h in certs && Foreign(cfg.tags.toml, certs[h]) {
        return;
      }
      if h !in certs {
        certs := certs[h := EMPTY_DIR];
      }
      // CA first: hosts.toml must never name a CA file that is not there.
      certs := certs[h := certs[h].(ca := Some(pem))];
      certs := certs[h := certs[h].(toml := Some(RenderHostsTOML(cfg.tags.toml, h, CAPath(cfg, h))))];
    }

    /** pruneCertsD, and with nothing to keep the certs.d half of Cleanup. */
    method RemoveCertsDExcept(keep: seq<string>)
      modifies this`certs
      ensures certs == PruneCerts(cfg, old(certs), keep)
    {
      var todo := OwnedHostnames(cfg.tags.toml, certs);
      ghost var all := todo;
      while todo != {}
        invariant todo <= all
        invariant forall h :: h in certs <==> h in old(certs) && (h in all - todo ==> h in keep)
        invariant forall h :: h in certs ==> certs[h] == old(certs)[h]
        decreases |todo|
      {
        var h :| h in todo;
        todo := todo - {h};
        if h !in keep {
          certs := certs - {h};
        }
      }
      assert certs == PruneCerts(cfg, old(certs), keep);
    }

    method ApplyHosts(names: seq<string>)
      modifies this`hosts
      ensures hosts == WithHostsBlock(cfg, old(hosts), names)
    {
      var next := ManagedBlock(hosts, cfg.tags.hosts, HostsBody(cfg.serviceIP, names));
      if next != hosts {
        hosts := next;
      }
    }

    method ApplyHostTrust(pem: string)
      modifies this`bundles
      ensures bundles == ApplyTrust(cfg, old(bundles), cfg.trustFiles, pem)
    {
      var files := cfg.trustFiles;
      var i := 0;
      while i < |files|
        invariant 0 <= i <= |files|
        invariant bundles == ApplyTrust(cfg, old(bundles), files[..i], pem)
      {
        var f := files[i];
        ApplyTrustNext(cfg, old(bundles), files, i, pem);
        if f in bundles {
          var next := ManagedBlock(bundles[f], cfg.tags.ca, CABody(pem));
          assert next == WithCABlock(cfg, bundles[f], pem);
          bundles := bundles[f := next];
        }
        i := i + 1;
      }
      assert files[..i] == files;
    }

    /** Cleanup on SIGTERM. */
    method Cleanup()
      modifies this`hosts, this`bundles, this`certs
      ensures View() == CleanedUp(cfg, old(View()))
    {
      ApplyHosts([]);
      ApplyHostTrust("");
      RemoveCertsDExcept([]);
    }
  }

  // ---- the node between passes ----

  /** A node without a block or a certs.d directory of this reflector. */
  ghost predicate Pristine(cfg: Config, n: Node) {
    && cfg.tags.hosts.begin !in Lines(n.hosts)
    && (forall f :: f in n.bundles && f in cfg.trustFiles ==> cfg.tags.ca.begin !in Lines(n.bundles[f]))
    && (forall h :: h in n.certs ==> !Owned(cfg.tags.toml, n.certs[h]))
  }

  /** Names come from validated flags; the CA file holds none of our marker lines. */
  ghost predicate PassOk(cfg: Config, p: Pass) {
    && (forall h :: h in p.hostnames ==> '\n' !in h)
    && (p.ca.Some? ==> Free(cfg.tags.ca, CABody(p.ca.value)))
  }

  ghost predicate PassesOk(cfg: Config, passes: seq<Pass>) {
    forall i :: 0 <= i < |passes| ==> PassOk(cfg, passes[i])
  }

  /** What the flags guarantee: the tags follow from a one-line name, and the service IP is an address. */
  predicate ConfigOk(cfg: Config) {
    && cfg.tags == TagsOf(cfg.reflector) && '\n' !in cfg.reflector
    && cfg.serviceIP != "" && cfg.serviceIP[0] != '#' && '\n' !in cfg.serviceIP
  }

  predicate MarkersUsable(m: Markers) {
    && m.begin != m.end && '\n' !in m.begin && '\n' !in m.end
    && m.begin != "" && m.end != "" && m.begin[0] == '#' && m.end[0] == '#'
  }

  predicate Usable(cfg: Config) {
    && MarkersUsable(cfg.tags.hosts) && MarkersUsable(cfg.tags.ca)
    && cfg.serviceIP != "" && cfg.serviceIP[0] != '#' && '\n' !in cfg.serviceIP
  }

  /** The untouched node plus at most our own blocks and our own certs.d directories. */
  ghost predicate OnlyOurs(cfg: Config, n0: Node, n: Node) {
    && EditedFrom(n.hosts, n0.hosts, cfg.tags.hosts)
    && BundlesOnlyOurs(cfg, n0.bundles, n.bundles)
    && CertsOnlyOurs(cfg, n0.certs, n.certs)
  }

  /** Bundles: the files in the list may carry the block, all others are untouched. */
  ghost predicate BundlesOnlyOurs(cfg: Config, b0: map<string, string>, b: map<string, string>) {
    && b.Keys == b0.Keys
    && (forall f :: f in b0 ==> if f in cfg.trustFiles then EditedFrom(b[f], b0[f], cfg.tags.ca) else b[f] == b0[f])
  }

  predicate KeptAt(c0: map<string, Dir>, c: map<string, Dir>, h: string) { h in c0 && h in c && c[h] == c0[h] }

  /** A directory there would be one we wrote. */
  predicate OursAt(cfg: Config, c: map<string, Dir>, h: string) { h in c ==> Owned(cfg.tags.toml, c[h]) }

  /** A directory that is there with no hosts.toml in it. */
  predicate BareAt(c0: map<string, Dir>, h: string) { h in c0 && c0[h].toml.None? }

  /** Each directory is as it was, or ours; it can have become ours only where there was none or a bare one. */
  ghost predicate CertsOnlyOurs(cfg: Config, c0: map<string, Dir>, c: map<string, Dir>) {
    forall h :: KeptAt(c0, c, h) || (OursAt(cfg, c, h) && (h in c0 ==> BareAt(c0, h)))
  }

  lemma MarkerTextIsOneLine(kind: Kind)
    ensures '\n' !in BEGIN_PREFIX && '\n' !in END_PREFIX && BEGIN_PREFIX[0] == '#' && END_PREFIX[0] == '#'
    ensures '\n' !in EndSuffix(kind)
  {
  }

  lemma BeginSuffixIsOneLine(kind: Kind)
    ensures '\n' !in BeginSuffix(kind)
  {
  }

  lemma WrappedMarker(p: string, name: string, s: string)
    requires p != "" && '\n' !in p && '\n' !in name && '\n' !in s
    ensures '\n' !in p + name + s && p + name + s != "" && (p + name + s)[0] == p[0]
  {
  }

  lemma MarkersOfUsable(kind: Kind, reflector: string)
    requires '\n' !in reflector
    ensures MarkersUsable(MarkersOf(kind, reflector))
  {
    MarkerTextIsOneLine(kind);
    BeginSuffixIsOneLine(kind);
    WrappedMarker(BEGIN_PREFIX, reflector, BeginSuffix(kind));
    WrappedMarker(END_PREFIX, reflector, EndSuffix(kind));
    SharedFile.MarkersDistinct(kind, reflector, reflector);
  }

  /** A one-line reflector name gives markers that are one line each, distinct, and start with '#'. */
  lemma ConfigOkUsable(cfg: Config)
    requires ConfigOk(cfg)
    ensures Usable(cfg)
  {
    MarkersOfUsable(Hosts, cfg.reflector);
    MarkersOfUsable(CA, cfg.reflector);
  }

  lemma {:induction false} JoinNoNewline(parts: seq<string>)
    requires NoneContains(parts, '\n')
    ensures '\n' !in Join(parts, " ")
  {
    if |parts| > 1 { JoinNoNewline(parts[1..]); }
  }

  lemma HostsBodyOk(cfg: Config, hostnames: seq<string>)
    requires Usable(cfg) && forall h :: h in hostnames ==> '\n' !in h
    ensures var body := HostsBody(cfg.serviceIP, hostnames);
            Free(cfg.tags.hosts, body) && OneLiners(body)
  {
    JoinNoNewline(hostnames);
    if hostnames != [] { assert HostsBody(cfg.serviceIP, hostnames)[0][0] == cfg.serviceIP[0]; }
  }

  lemma CABodyOneLiners(pem: string)
    ensures OneLiners(CABody(pem))
  {
    JoinSplit(TrimSpace(pem), '\n');
  }

  /** /etc/hosts after any edit is the untouched file plus the block that edit asked for. */
  lemma HostsEdited(cfg: Config, h0: string, h: string, names: seq<string>)
    requires Usable(cfg) && cfg.tags.hosts.begin !in Lines(h0) && EditedFrom(h, h0, cfg.tags.hosts)
    requires forall x :: x in names ==> '\n' !in x
    ensures WithHostsBlock(cfg, h, names) ==
            Render(Lines(h0) + BlockLines(cfg.tags.hosts, HostsBody(cfg.serviceIP, names)))
    ensures EditedFrom(WithHostsBlock(cfg, h, names), h0, cfg.tags.hosts)
  {
    HostsBodyOk(cfg, names);
    EditStaysEdited(h, h0, cfg.tags.hosts, HostsBody(cfg.serviceIP, names));
  }

  lemma BundleEdited(cfg: Config, b0: string, b: string, pem: string)
    requires Usable(cfg) && cfg.tags.ca.begin !in Lines(b0)
    requires EditedFrom(b, b0, cfg.tags.ca) && Free(cfg.tags.ca, CABody(pem))
    ensures WithCABlock(cfg, b, pem) == Render(Lines(b0) + BlockLines(cfg.tags.ca, CABody(pem)))
    ensures EditedFrom(WithCABlock(cfg, b, pem), b0, cfg.tags.ca)
  {
    CABodyOneLiners(pem);
    EditStaysEdited(b, b0, cfg.tags.ca, CABody(pem));
  }

  lemma {:induction false} TrustApplied(
    cfg: Config, b0: map<string, string>, b: map<string, string>, files: seq<string>, pem: string)
    requires Usable(cfg) && Free(cfg.tags.ca, CABody(pem))
    requires forall f :: f in b0 && f in cfg.trustFiles ==> cfg.tags.ca.begin !in Lines(b0[f])
    requires BundlesOnlyOurs(cfg, b0, b) && forall f :: f in files ==> f in cfg.trustFiles
    ensures BundlesOnlyOurs(cfg, b0, ApplyTrust(cfg, b, files, pem))
    ensures forall f :: f in b0 && f in files ==>
              ApplyTrust(cfg, b, files, pem)[f] == Render(Lines(b0[f]) + BlockLines(cfg.tags.ca, CABody(pem)))
  {
    if files != [] {
      var k := |files| - 1;
      TrustApplied(cfg, b0, b, files[..k], pem);
      var done := ApplyTrust(cfg, b, files[..k], pem);
      var f := files[k];
      assert files == files[..k] + [f];
      if f in done { BundleEdited(cfg, b0[f], done[f], pem); }
    }
  }

  // ---- certs.d through a pass ----

  lemma WrittenIsOwned(cfg: Config, dir: Dir, h: string, pem: string)
    ensures Owned(cfg.tags.toml, Written(cfg, dir, h, pem))
  {
  }

  lemma {:induction false} WritesOnlyOurs(
    cfg: Config, c0: map<string, Dir>, c: map<string, Dir>, hs: seq<string>, pem: string)
    requires CertsOnlyOurs(cfg, c0, c) && forall h :: h in c0 ==> !Owned(cfg.tags.toml, c0[h])
    ensures CertsOnlyOurs(cfg, c0, WriteAllCerts(cfg, c, hs, pem))
  {
    if hs != [] {
      var k := |hs| - 1;
      WritesOnlyOurs(cfg, c0, c, hs[..k], pem);
      var done, h := WriteAllCerts(cfg, c, hs[..k], pem), hs[k];
      WrittenIsOwned(cfg, if h in done then done[h] else EMPTY_DIR, h, pem);
      assert KeptAt(c0, done, h) || (OursAt(cfg, done, h) && (h in c0 ==> BareAt(c0, h)));
      var w := WriteCerts(cfg, done, h, pem);
      forall x ensures KeptAt(c0, w, x) || (OursAt(cfg, w, x) && (x in c0 ==> BareAt(c0, x)))
      {
        assert KeptAt(c0, done, x) || (OursAt(cfg, done, x) && (x in c0 ==> BareAt(c0, x)));
      }
    }
  }

  lemma PrunesOnlyOurs(cfg: Config, c0: map<string, Dir>, c: map<string, Dir>, keep: seq<string>)
    requires CertsOnlyOurs(cfg, c0, c) && forall h :: h in c0 ==> !Owned(cfg.tags.toml, c0[h])
    ensures CertsOnlyOurs(cfg, c0, PruneCerts(cfg, c, keep))
  {
    forall h
      ensures var p := PruneCerts(cfg, c, keep); KeptAt(c0, p, h) || (OursAt(cfg, p, h) && (h in c0 ==> BareAt(c0, h)))
    {
      assert KeptAt(c0, c, h) || (OursAt(cfg, c, h) && (h in c0 ==> BareAt(c0, h)));
    }
  }

  /** A bare directory nobody configures stays as it is. */
  lemma {:induction false} WritesKeep(
    cfg: Config, c0: map<string, Dir>, c: map<string, Dir>, hs: seq<string>, pem: string, h: string)
    requires KeptAt(c0, c, h) && !Owned(cfg.tags.toml, c0[h]) && (h in hs ==> c0[h].toml.Some?)
    ensures KeptAt(c0, WriteAllCerts(cfg, c, hs, pem), h)
  {
    if hs != [] {
      var k := |hs| - 1;
      assert hs == hs[..k] + [hs[k]];
      WritesKeep(cfg, c0, c, hs[..k], pem, h);
    }
  }

  /** A configured directory that is not foreign becomes ours, and one of ours stays ours. */
  lemma {:induction false} WritesOwn(cfg: Config, c: map<string, Dir>, hs: seq<string>, pem: string, h: string)
    requires h in c ==> !Foreign(cfg.tags.toml, c[h])
    ensures var w := WriteAllCerts(cfg, c, hs, pem);
            && (h in w ==> !Foreign(cfg.tags.toml, w[h]))
            && (h in hs ==> h in w && Owned(cfg.tags.toml, w[h]))
            && (OursAt(cfg, c, h) ==> OursAt(cfg, w, h))
  {
    if hs != [] {
      var k := |hs| - 1;
      WritesOwn(cfg, c, hs[..k], pem, h);
      assert hs == hs[..k] + [hs[k]];
      var done := WriteAllCerts(cfg, c, hs[..k], pem);
      WrittenIsOwned(cfg, if h in done then done[h] else EMPTY_DIR, h, pem);
    }
  }

  // ---- runs ----

  function Run(cfg: Config, n: Node, passes: seq<Pass>): Node {
    if passes == [] then n else Ticked(cfg, Run(cfg, n, passes[..|passes| - 1]), passes[|passes| - 1])
  }

  lemma TickKeepsOnlyOurs(cfg: Config, n0: Node, n: Node, p: Pass)
    requires Usable(cfg) && Pristine(cfg, n0) && OnlyOurs(cfg, n0, n) && PassOk(cfg, p)
    ensures OnlyOurs(cfg, n0, Ticked(cfg, n, p))
  {
    HostsEdited(cfg, n0.hosts, n.hosts, if Healthy(p) then p.hostnames else []);
    if p.ca.Some? {
      TrustApplied(cfg, n0.bundles, n.bundles, cfg.trustFiles, p.ca.value);
      WritesOnlyOurs(cfg, n0.certs, n.certs, p.hostnames, p.ca.value);
      PrunesOnlyOurs(cfg, n0.certs, WriteAllCerts(cfg, n.certs, p.hostnames, p.ca.value), p.hostnames);
    }
  }

  lemma {:induction false} RunIsOnlyOurs(cfg: Config, n0: Node, passes: seq<Pass>)
    requires Usable(cfg) && Pristine(cfg, n0) && PassesOk(cfg, passes)
    ensures OnlyOurs(cfg, n0, Run(cfg, n0, passes))
  {
    if passes == [] {
      assert forall h :: h in n0.certs ==> KeptAt(n0.certs, n0.certs, h);
    } else {
      var k := |passes| - 1;
      RunIsOnlyOurs(cfg, n0, passes[..k]);
      TickKeepsOnlyOurs(cfg, n0, Run(cfg, n0, passes[..k]), passes[k]);
    }
  }

  /**
   * Safety on the way: after any passes, healthy or not, with any hostname changes between them,
   * the node is the untouched one plus our own block per file and our own certs.d directories;
   * in particular a directory with someone else's hosts.toml never changes.
   */
  lemma RunKeepsOnlyOurs(cfg: Config, n0: Node, passes: seq<Pass>)
    requires ConfigOk(cfg) && Pristine(cfg, n0) && PassesOk(cfg, passes)
    ensures OnlyOurs(cfg, n0, Run(cfg, n0, passes))
    ensures forall h :: h in n0.certs && n0.certs[h].toml.Some? ==> KeptAt(n0.certs, Run(cfg, n0, passes).certs, h)
  {
    ConfigOkUsable(cfg);
    RunIsOnlyOurs(cfg, n0, passes);
  }

  /**
   * The /etc/hosts block is there exactly while the proxy verifies: after any pass the file holds
   * the untouched lines, plus the block for the configured hostnames if and only if the CA was
   * readable and held a certificate, and every configured hostname verified.
   */
  lemma HostsFollowHealth(cfg: Config, n0: Node, passes: seq<Pass>)
    requires ConfigOk(cfg) && Pristine(cfg, n0) && PassesOk(cfg, passes) && passes != []
    ensures var p, m := passes[|passes| - 1], cfg.tags.hosts;
            var healthy := p.ca.Some? && p.parses && forall h :: h in p.hostnames ==> h in p.verified;
            Run(cfg, n0, passes).hosts ==
            Render(Lines(n0.hosts) + if !healthy || p.hostnames == [] then []
                                     else [m.begin, cfg.serviceIP + " " + Join(p.hostnames, " "), m.end])
  {
    ConfigOkUsable(cfg);
    var k := |passes| - 1;
    var p := passes[k];
    RunIsOnlyOurs(cfg, n0, passes[..k]);
    var names := if Healthy(p) then p.hostnames else [];
    HostsEdited(cfg, n0.hosts, Run(cfg, n0, passes[..k]).hosts, names);
    HostsBlockLines(cfg, names);
  }

  lemma HostsBlockLines(cfg: Config, names: seq<string>)
    ensures BlockLines(cfg.tags.hosts, HostsBody(cfg.serviceIP, names)) ==
            if names == [] then []
            else [cfg.tags.hosts.begin, cfg.serviceIP + " " + Join(names, " "), cfg.tags.hosts.end]
  {
  }

  // ---- what is installed ----

  /** White space of the kinds a PEM file can hold. */
  predicate White(c: char) { c in {' ', '\t', '\n', '\r', '\U{0B}', '\U{0C}'} }

  predicate Blank(s: string) { forall i :: 0 <= i < |s| ==> White(s[i]) }

  /** `t` is `s` without the white space around it, `a` in front and `b` behind. */
  ghost predicate TrimmedTo(s: string, a: string, t: string, b: string) {
    s == a + (t + b) && Blank(a) && Blank(b) && (t != "" ==> !White(t[0]) && !White(t[|t| - 1]))
  }

  ghost predicate TrimmedOf(s: string, t: string) { exists a, b :: TrimmedTo(s, a, t, b) }

  lemma MoreInFront(c: char, s: string, a: string, t: string, b: string)
    requires TrimmedTo(s, a, t, b) && White(c)
    ensures TrimmedTo([c] + s, [c] + a, t, b)
  {
    assert [c] + (a + (t + b)) == ([c] + a) + (t + b);
  }

  lemma MoreBehind(c: char, s: string, a: string, t: string, b: string)
    requires TrimmedTo(s, a, t, b) && White(c)
    ensures TrimmedTo(s + [c], a, t, b + [c])
  {
    assert (a + (t + b)) + [c] == a + (t + (b + [c]));
  }

  /** TrimSpace takes off exactly the white space around the text. */
  lemma {:induction false} TrimSpaceExactly(s: string)
    ensures TrimmedOf(s, TrimSpace(s))
    decreases |s|
  {
    var t := TrimSpace(s);
    if s == [] {
      assert TrimmedTo(s, "", t, "");
    } else if IsSpace(s[0]) {
      TrimSpaceExactly(s[1..]);
      var a, b :| TrimmedTo(s[1..], a, t, b);
      MoreInFront(s[0], s[1..], a, t, b);
      assert [s[0]] + s[1..] == s;
    } else if IsSpace(s[|s| - 1]) {
      var init, last := s[..|s| - 1], s[|s| - 1];
      TrimSpaceExactly(init);
      var a, b :| TrimmedTo(init, a, t, b);
      MoreBehind(last, init, a, t, b);
      assert init + [last] == s;
    } else {
      assert "" + (s + "") == s;
      assert TrimmedTo(s, "", s, "");
    }
  }

  /** `lines` are the lines of the CA text without the white space around it; none of a blank one. */
  ghost predicate TextLines(pem: string, lines: seq<string>) {
    exists t :: TrimmedOf(pem, t) && if t == "" then lines == []
      else lines != [] && NoneContains(lines, '\n') && Join(lines, "\n") == t
  }

  lemma CABodyIsText(pem: string)
    ensures TextLines(pem, CABody(pem))
  {
    var t := TrimSpace(pem);
    TrimSpaceExactly(pem);
    JoinSplit(t, '\n');
    assert TrimmedOf(pem, t);
  }

  /** `i` is the last pass that could read the CA. */
  ghost predicate LastReadable(passes: seq<Pass>, i: nat) {
    i < |passes| && passes[i].ca.Some? && forall k :: i < k < |passes| ==> passes[k].ca.None?
  }

  /** The passes after the last readable one leave the bundles and certs.d alone. */
  lemma {:induction false} UnreadableKeeps(cfg: Config, n0: Node, passes: seq<Pass>, i: nat)
    requires i <= |passes| && forall k :: i <= k < |passes| ==> passes[k].ca.None?
    ensures Run(cfg, n0, passes).bundles == Run(cfg, n0, passes[..i]).bundles
    ensures Run(cfg, n0, passes).certs == Run(cfg, n0, passes[..i]).certs
  {
    if i == |passes| {
      assert passes[..i] == passes;
    } else {
      var k := |passes| - 1;
      UnreadableKeeps(cfg, n0, passes[..k], i);
      assert passes[..k][..i] == passes[..i];
    }
  }

  /** A listed file holds its original lines, then the CA's between the markers, or no block if there are none. */
  ghost predicate Carries(cfg: Config, original: string, content: string, lines: seq<string>) {
    content == Render(Lines(original) + if lines == [] then [] else [cfg.tags.ca.begin] + lines + [cfg.tags.ca.end])
  }

  /**
   * The bundles follow the CA. After any run that read a CA, every listed trust file that exists
   * holds its original lines followed by exactly the text of the CA last read, between the markers,
   * without the white space around it; no block for a blank one.
   */
  lemma BundlesFollowCA(cfg: Config, n0: Node, passes: seq<Pass>, i: nat, f: string)
    requires ConfigOk(cfg) && Pristine(cfg, n0) && PassesOk(cfg, passes) && LastReadable(passes, i)
    requires f in n0.bundles && f in cfg.trustFiles
    ensures var after := Run(cfg, n0, passes).bundles;
            && f in after
            && exists lines :: TextLines(passes[i].ca.value, lines) && Carries(cfg, n0.bundles[f], after[f], lines)
  {
    ConfigOkUsable(cfg);
    RunIsOnlyOurs(cfg, n0, passes);
    BundleFollowsCA(cfg, n0, passes, i, f);
  }

  /** Files not listed never change, none appears or goes, and without a readable CA no bundle changes. */
  lemma OtherBundlesKept(cfg: Config, n0: Node, passes: seq<Pass>)
    requires ConfigOk(cfg) && Pristine(cfg, n0) && PassesOk(cfg, passes)
    ensures var after := Run(cfg, n0, passes).bundles;
            && after.Keys == n0.bundles.Keys
            && (forall f :: f in n0.bundles && f !in cfg.trustFiles ==> after[f] == n0.bundles[f])
            && ((forall i :: 0 <= i < |passes| ==> passes[i].ca.None?) ==> after == n0.bundles)
  {
    ConfigOkUsable(cfg);
    RunIsOnlyOurs(cfg, n0, passes);
    if forall i :: 0 <= i < |passes| ==> passes[i].ca.None? { UnreadableKeeps(cfg, n0, passes, 0); }
  }

  lemma RunUpTo(cfg: Config, n0: Node, passes: seq<Pass>, i: nat)
    requires i < |passes|
    ensures Run(cfg, n0, passes[..i + 1]) == Ticked(cfg, Run(cfg, n0, passes[..i]), passes[i])
  {
    var upTo := passes[..i + 1];
    assert upTo[..|upTo| - 1] == passes[..i] && upTo[|upTo| - 1] == passes[i];
  }

  lemma TickedReading(cfg: Config, n: Node, p: Pass)
    requires p.ca.Some?
    ensures Ticked(cfg, n, p).bundles == ApplyTrust(cfg, n.bundles, cfg.trustFiles, p.ca.value)
    ensures Ticked(cfg, n, p).certs ==
        PruneCerts(cfg, WriteAllCerts(cfg, n.certs, p.hostnames, p.ca.value), p.hostnames)
  {
  }

  lemma PassesOkUpTo(cfg: Config, passes: seq<Pass>, i: nat)
    requires i <= |passes| && PassesOk(cfg, passes)
    ensures PassesOk(cfg, passes[..i])
  {
    forall k | 0 <= k < i ensures PassOk(cfg, passes[..i][k]) { assert passes[..i][k] == passes[k]; }
  }

  /** What the last readable pass made of the node is what there is at the end. */
  lemma LastReadableDecides(cfg: Config, n0: Node, passes: seq<Pass>, i: nat) returns (before: Node)
    requires Usable(cfg) && Pristine(cfg, n0) && PassesOk(cfg, passes) && LastReadable(passes, i)
    ensures OnlyOurs(cfg, n0, before)
    ensures var after, hs, pem := Run(cfg, n0, passes), passes[i].hostnames, passes[i].ca.value;
            && after.bundles == ApplyTrust(cfg, before.bundles, cfg.trustFiles, pem)
            && after.certs == PruneCerts(cfg, WriteAllCerts(cfg, before.certs, hs, pem), hs)
  {
    before := Run(cfg, n0, passes[..i]);
    PassesOkUpTo(cfg, passes, i);
    RunIsOnlyOurs(cfg, n0, passes[..i]);
    LastReadableRun(cfg, n0, passes, i);
    TickedReading(cfg, before, passes[i]);
  }

  lemma LastReadableRun(cfg: Config, n0: Node, passes: seq<Pass>, i: nat)
    requires LastReadable(passes, i)
    ensures var after, ticked := Run(cfg, n0, passes), Ticked(cfg, Run(cfg, n0, passes[..i]), passes[i]);
            after.bundles == ticked.bundles && after.certs == ticked.certs
  {
    UnreadableKeeps(cfg, n0, passes, i + 1);
    RunUpTo(cfg, n0, passes, i);
  }

  lemma BundleFollowsCA(cfg: Config, n0: Node, passes: seq<Pass>, i: nat, f: string)
    requires Usable(cfg) && Pristine(cfg, n0) && PassesOk(cfg, passes) && LastReadable(passes, i)
    requires f in n0.bundles && f in cfg.trustFiles && f in Run(cfg, n0, passes).bundles
    ensures TextLines(passes[i].ca.value, CABody(passes[i].ca.value))
    ensures Carries(cfg, n0.bundles[f], Run(cfg, n0, passes).bundles[f], CABody(passes[i].ca.value))
  {
    var pem := passes[i].ca.value;
    CABodyIsText(pem);
    var before := LastReadableDecides(cfg, n0, passes, i);
    assert PassOk(cfg, passes[i]);
    TrustApplied(cfg, n0.bundles, before.bundles, cfg.trustFiles, pem);
  }

  /** What a directory of ours holds: the CA, and a hosts.toml that names the registry and the CA file. */
  ghost predicate Configured(cfg: Config, dir: Dir, h: string, pem: string) {
    && dir.ca == Some(pem)
    && dir.toml ==
       Some(cfg.tags.toml
         + ("\nserver = " + Quote("https://" + h) + "\nca = " + Quote(cfg.certsDir + "/" + h + "/weft-local-ca.crt")
           + "\n"))
  }

  lemma {:induction false} WritesConfigure(cfg: Config, c: map<string, Dir>, hs: seq<string>, pem: string, h: string)
    requires h in hs && (h in c ==> !Foreign(cfg.tags.toml, c[h]))
    ensures var w :=
        WriteAllCerts(cfg, c, hs, pem); h in w && Configured(cfg, w[h], h, pem) && Owned(cfg.tags.toml, w[h])
  {
    var k := |hs| - 1;
    assert hs == hs[..k] + [hs[k]];
    WritesOwn(cfg, c, hs[..k], pem, h);
    var done := WriteAllCerts(cfg, c, hs[..k], pem);
    if hs[k] == h {
      WrittenIsOwned(cfg, if h in done then done[h] else EMPTY_DIR, h, pem);
    } else {
      WritesConfigure(cfg, c, hs[..k], pem, h);
    }
  }

  lemma CertsAfterReading(
    cfg: Config, c0: map<string, Dir>, before: map<string, Dir>, hs: seq<string>, pem: string, h: string)
    requires CertsOnlyOurs(cfg, c0, before) && forall x :: x in c0 ==> !Owned(cfg.tags.toml, c0[x])
    ensures var certs := PruneCerts(cfg, WriteAllCerts(cfg, before, hs, pem), hs);
            && (h in hs && !(h in c0 && c0[h].toml.Some?) ==> h in certs && Configured(cfg, certs[h], h, pem))
            && (h in certs && Owned(cfg.tags.toml, certs[h]) ==> h in hs)
  {
    assert KeptAt(c0, before, h) || (OursAt(cfg, before, h) && (h in c0 ==> BareAt(c0, h)));
    if h in hs && !(h in c0 && c0[h].toml.Some?) { WritesConfigure(cfg, before, hs, pem, h); }
  }

  /**
   * certs.d follows the CA. After any run that read a CA: each hostname configured in the last such
   * pass has a directory with that CA and our hosts.toml, unless somebody else's was there; and a
   * directory of ours stands for no other hostname.
   */
  lemma CertsFollowCA(cfg: Config, n0: Node, passes: seq<Pass>, i: nat, h: string)
    requires ConfigOk(cfg) && Pristine(cfg, n0) && PassesOk(cfg, passes) && LastReadable(passes, i)
    ensures var certs := Run(cfg, n0, passes).certs;
            && (h in passes[i].hostnames && !(h in n0.certs && n0.certs[h].toml.Some?) ==>
                  h in certs && Configured(cfg, certs[h], h, passes[i].ca.value))
            && (h in certs && Owned(cfg.tags.toml, certs[h]) ==> h in passes[i].hostnames)
  {
    ConfigOkUsable(cfg);
    var before := LastReadableDecides(cfg, n0, passes, i);
    CertsAfterReading(cfg, n0.certs, before.certs, passes[i].hostnames, passes[i].ca.value, h);
  }

  // ---- the node after Cleanup, exactly ----

  /** A pass that could read the CA was configured with `h`. */
  predicate Configures(p: Pass, h: string) { p.ca.Some? && h in p.hostnames }

  /** Some pass of the run takes over a directory that is there without a hosts.toml. */
  ghost predicate Adopts(n0: Node, passes: seq<Pass>, h: string) {
    BareAt(n0.certs, h) && exists i :: 0 <= i < |passes| && Configures(passes[i], h)
  }

  lemma AdoptsSnoc(n0: Node, passes: seq<Pass>, h: string)
    requires passes != []
    ensures Adopts(n0, passes, h) <==>
            Adopts(n0, passes[..|passes| - 1], h) || (BareAt(n0.certs, h) && Configures(passes[|passes| - 1], h))
  {
    var k := |passes| - 1;
    if Adopts(n0, passes[..k], h) {
      var i :| 0 <= i < k && Configures(passes[..k][i], h);
      assert Configures(passes[i], h);
    }
    if Adopts(n0, passes, h) {
      var i :| 0 <= i < |passes| && Configures(passes[i], h);
      assert i < k ==> Configures(passes[..k][i], h);
    }
  }

  /** An original directory stays as it is until a pass adopts it; from then on it is ours or gone. */
  lemma {:induction false} DirectoryFate(cfg: Config, n0: Node, passes: seq<Pass>, h: string)
    requires h in n0.certs && !Owned(cfg.tags.toml, n0.certs[h])
    ensures Adopts(n0, passes, h) ==> OursAt(cfg, Run(cfg, n0, passes).certs, h)
    ensures !Adopts(n0, passes, h) ==> KeptAt(n0.certs, Run(cfg, n0, passes).certs, h)
  {
    if passes != [] {
      var k := |passes| - 1;
      var before, p := Run(cfg, n0, passes[..k]).certs, passes[k];
      DirectoryFate(cfg, n0, passes[..k], h);
      AdoptsSnoc(n0, passes, h);
      if p.ca.Some? {
        if Adopts(n0, passes, h) { WritesOwn(cfg, before, p.hostnames, p.ca.value, h); }
        else { WritesKeep(cfg, n0.certs, before, p.hostnames, p.ca.value, h); }
      }
    }
  }

  /** A bare directory adopted in any pass of any run is gone after Cleanup. */
  lemma BareDirectoryIsLost(cfg: Config, n0: Node, passes: seq<Pass>, h: string)
    requires Adopts(n0, passes, h)
    ensures h !in CleanedUp(cfg, Run(cfg, n0, passes)).certs
  {
    DirectoryFate(cfg, n0, passes, h);
  }

  lemma CertsRestored(cfg: Config, n0: Node, passes: seq<Pass>)
    requires Pristine(cfg, n0) && CertsOnlyOurs(cfg, n0.certs, Run(cfg, n0, passes).certs)
    ensures PruneCerts(cfg, Run(cfg, n0, passes).certs, []) == n0.certs <==> forall h :: !Adopts(n0, passes, h)
  {
    var c := Run(cfg, n0, passes).certs;
    var after := PruneCerts(cfg, c, []);
    forall h | Adopts(n0, passes, h) ensures h !in after { BareDirectoryIsLost(cfg, n0, passes, h); }
    if forall h :: !Adopts(n0, passes, h) {
      forall h | h in n0.certs ensures KeptAt(n0.certs, c, h) { DirectoryFate(cfg, n0, passes, h); }
      forall h | h in after ensures h in n0.certs { assert !OursAt(cfg, c, h); }
    }
  }

  lemma HostsRestored(cfg: Config, h0: string, h: string)
    requires Usable(cfg) && cfg.tags.hosts.begin !in Lines(h0) && EditedFrom(h, h0, cfg.tags.hosts)
    ensures WithHostsBlock(cfg, h, []) == h0 <==> Tidy(h0)
  {
    HostsEdited(cfg, h0, h, []);
    assert Lines(h0) + BlockLines(cfg.tags.hosts, []) == Lines(h0);
    TidyRender(h0);
  }

  lemma BundlesRestored(cfg: Config, b0: map<string, string>, b: map<string, string>)
    requires Usable(cfg) && BundlesOnlyOurs(cfg, b0, b)
    requires forall f :: f in b0 && f in cfg.trustFiles ==> cfg.tags.ca.begin !in Lines(b0[f])
    ensures ApplyTrust(cfg, b, cfg.trustFiles, "") == b0 <==> forall f :: f in b0 && f in cfg.trustFiles ==> Tidy(b0[f])
  {
    var m, done := cfg.tags.ca, ApplyTrust(cfg, b, cfg.trustFiles, "");
    assert CABody("") == [];
    TrustApplied(cfg, b0, b, cfg.trustFiles, "");
    forall f | f in b0 ensures done[f] == b0[f] <==> (f in cfg.trustFiles ==> Tidy(b0[f])) {
      if f in cfg.trustFiles {
        assert Lines(b0[f]) + BlockLines(m, []) == Lines(b0[f]);
        TidyRender(b0[f]);
      }
    }
  }

  /**
   * The node is restored, exactly when it can be. Any passes followed by Cleanup give back hosts,
   * bundles and certs.d if and only if the edited files are empty or end in exactly one newline,
   * and no pass with a readable CA configured a hostname whose directory was there without a hosts.toml.
   */
  lemma NodeRestored(cfg: Config, n0: Node, passes: seq<Pass>)
    requires ConfigOk(cfg) && Pristine(cfg, n0) && PassesOk(cfg, passes)
    ensures CleanedUp(cfg, Run(cfg, n0, passes)) == n0 <==>
            && Tidy(n0.hosts)
            && (forall f :: f in n0.bundles && f in cfg.trustFiles ==> Tidy(n0.bundles[f]))
            && (forall h :: !Adopts(n0, passes, h))
  {
    ConfigOkUsable(cfg);
    var n := Run(cfg, n0, passes);
    RunIsOnlyOurs(cfg, n0, passes);
    HostsRestored(cfg, n0.hosts, n.hosts);
    BundlesRestored(cfg, n0.bundles, n.bundles);
    CertsRestored(cfg, n0, passes);
  }
}
