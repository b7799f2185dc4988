/** internal/trust and the trust gate: the CA bundle, the pod mutation that mounts it, and who counts as untrusting. */
module Trust {
  import opened Order
  import opened Text
  import opened Api
  import opened LocalDns

  // ---- the bundle ----

  datatype CA = CA(reflector: string, pem: string, fingerprint: string)

  datatype Bundle = Bundle(all: string, cas: string, fingerprints: seq<string>)

  /** The system roots file, with how many certificates parse out of it. */
  datatype Roots = Roots(text: string, certs: nat)

  const MIN_SYSTEM_ROOTS := 20

  predicate CALess(a: CA, b: CA) { Less(a.reflector, b.reflector) }

  function TrimRight(s: string, c: char): string {
    if s != [] && s[|s| - 1] == c then TrimRight(s[..|s| - 1], c) else s
  }

  function Sections(header: string, cas: seq<CA>): string {
    if cas == [] then ""
    else
      var last := cas[|cas| - 1];
      Sections(header, cas[..|cas| - 1]) + (header + last.reflector + "\n" + last.pem)
  }

  function Fingerprints(cas: seq<CA>): seq<string> { seq(|cas|, i requires 0 <= i < |cas| => cas[i].fingerprint) }

  /** Build; None when the roots look truncated. */
  function Built(header: string, roots: Roots, cas: seq<CA>): Option<Bundle> {
    if roots.certs < MIN_SYSTEM_ROOTS then None
    else
      var sorted := Sort(cas, CALess);
      Some(Bundle(TrimRight(roots.text, '\n') + "\n" + Sections(header, sorted), Sections(header, sorted),
        SortStrings(Fingerprints(sorted))))
  }

  method Build(header: string, roots: Roots, cas: seq<CA>) returns (b: Option<Bundle>)
    ensures b == Built(header, roots, cas)
  {
    if roots.certs < MIN_SYSTEM_ROOTS {
      return None;
    }
    var sorted := Sort(cas, CALess);
    var top := TrimRight(roots.text, '\n') + "\n";
    var all, only := top, "";
    var fps: seq<string> := [];
    var i := 0;
    while i < |sorted|
      invariant 0 <= i <= |sorted|
      invariant only == Sections(header, sorted[..i]) && all == top + only && fps == Fingerprints(sorted[..i])
    {
      assert sorted[..i + 1][..i] == sorted[..i];
      var ca := sorted[i];
      assert all + (header + ca.reflector + "\n" + ca.pem) == top + (only + (header + ca.reflector + "\n" + ca.pem));
      all := all + (header + ca.reflector + "\n" + ca.pem);
      only := only + (header + ca.reflector + "\n" + ca.pem);
      fps := fps + [ca.fingerprint];
      i := i + 1;
    }
    assert sorted[..i] == sorted;
    b := Some(Bundle(all, only, SortStrings(fps)));
  }

  ghost predicate DistinctReflectors(cas: seq<CA>) {
    forall i, j :: 0 <= i < j < |cas| ==> cas[i].reflector != cas[j].reflector
  }

  lemma CALessIsStrictWeak()
    ensures StrictWeak(CALess)
  {
    LessIsStrictWeak();
    forall a: CA, b: CA, c: CA | CALess(a, c) ensures CALess(a, b) || CALess(b, c) {}
  }

  /** The bundle does not depend on the order the CAs are listed in. */
  lemma BuildIgnoresOrder(header: string, roots: Roots, cas: seq<CA>, cas': seq<CA>)
    requires DistinctReflectors(cas) && multiset(cas) == multiset(cas')
    ensures Built(header, roots, cas) == Built(header, roots, cas')
  {
    CALessIsStrictWeak();
    forall x, y | x in cas && y in cas && x != y ensures CALess(x, y) || CALess(y, x) {
      LessTotal(x.reflector, y.reflector);
    }
    SortPermutation(cas, cas', CALess);
  }

  /** `r` is `s` without the run of `c` at its end. */
  ghost predicate TrimmedRight(s: string, c: char, r: string) {
    r <= s && (forall i :: |r| <= i < |s| ==> s[i] == c) && (r != "" ==> r[|r| - 1] != c)
  }

  lemma {:induction false} TrimRightExactly(s: string, c: char)
    ensures TrimmedRight(s, c, TrimRight(s, c))
  {
    if s != [] && s[|s| - 1] == c { TrimRightExactly(s[..|s| - 1], c); }
  }

  /** Each CA under a line that names its reflector. */
  function SectionTexts(header: string, cas: seq<CA>): seq<string> {
    seq(|cas|, i requires 0 <= i < |cas| => header + cas[i].reflector + "\n" + cas[i].pem)
  }

  lemma JoinSnoc(parts: seq<string>, last: string)
    ensures Join(parts + [last], "") == Join(parts, "") + last
  {
    if parts == [] {
      assert parts + [last] == [last];
    } else {
      JoinAppend(parts, [last], "");
      assert "" + last == last;
    }
  }

  lemma {:induction false} SectionsJoined(header: string, cas: seq<CA>)
    ensures Sections(header, cas) == Join(SectionTexts(header, cas), "")
  {
    if cas != [] {
      var k := |cas| - 1;
      var init, last := cas[..k], header + cas[k].reflector + "\n" + cas[k].pem;
      SectionsJoined(header, init);
      assert SectionTexts(header, cas) == SectionTexts(header, init) + [last];
      JoinSnoc(SectionTexts(header, init), last);
    }
  }

  /** The sections are those of the CAs, by the names of their reflectors. */
  ghost predicate ListsSections(header: string, cas: seq<CA>, order: seq<CA>, text: string) {
    && multiset(order) == multiset(cas)
    && (forall i, j :: 0 <= i < j < |order| ==> !Less(order[j].reflector, order[i].reflector))
    && text == Join(SectionTexts(header, order), "")
  }

  /**
   * A bundle is built exactly from twenty system roots on. It keeps the whole roots file but for the line
   * breaks at its end, and after one break every CA follows under its reflector's name, sorted.
   */
  lemma BuiltExactly(header: string, roots: Roots, cas: seq<CA>)
    ensures Built(header, roots, cas).Some? <==> roots.certs >= 20
    ensures roots.certs >= 20 ==>
              var b := Built(header, roots, cas).value;
              && (exists order :: ListsSections(header, cas, order, b.cas))
              && (exists top :: TrimmedRight(roots.text, '\n', top) && b.all == top + "\n" + b.cas)
              && Sorted(b.fingerprints, Less) && multiset(b.fingerprints) == multiset(Fingerprints(Sort(cas, CALess)))
  {
    var order := Sort(cas, CALess);
    CALessIsStrictWeak();
    SortSorted(cas, CALess);
    SortMultiset(cas, CALess);
    SectionsJoined(header, order);
    TrimRightExactly(roots.text, '\n');
    SortStringsProperties(Fingerprints(order));
    assert ListsSections(header, cas, order, Sections(header, order));
  }

  /** The bundle's fingerprints are those of its CAs, sorted. */
  lemma BuiltFingerprints(header: string, roots: Roots, cas: seq<CA>)
    requires Built(header, roots, cas).Some?
    ensures var fps := Built(header, roots, cas).value.fingerprints;
            Sorted(fps, Less) && |fps| == |cas| && forall f :: f in fps <==>
              exists ca :: ca in cas && ca.fingerprint == f
  {
    var sorted := Sort(cas, CALess);
    SortMembers(cas, CALess);
    SortMultiset(cas, CALess);
    SortStringsProperties(Fingerprints(sorted));
    forall f ensures f in Fingerprints(sorted) <==> exists ca :: ca in cas && ca.fingerprint == f {
      if ca :| ca in cas && ca.fingerprint == f {
        var i :| 0 <= i < |sorted| && sorted[i] == ca;
        assert Fingerprints(sorted)[i] == f;
      }
      if f in Fingerprints(sorted) {
        var i :| 0 <= i < |sorted| && Fingerprints(sorted)[i] == f;
        assert sorted[i] in cas;
      }
    }
  }

  // ---- pods ----

  datatype Mount = Mount(volume: string, path: string, subPath: string, readOnly: bool)

  /** The mounts of a container; the rest of it is not touched. */
  datatype Container = Container(name: string, mounts: seq<Mount>)

  datatype PodSpec = PodSpec(
    namespace: string,
    name: string,
    labels: map<string, string>,
    annotations: map<string, string>,
    windows: bool,
    volumes: seq<string>,
    init: seq<Container>,
    containers: seq<Container>)

  /** The fixed names: annotation keys, the injected volume and file, and the bundle paths. */
  datatype Words = Words(optOut: string, injected: string, mirror: string, volume: string, file: string,
    paths: seq<string>)

  function Get(m: map<string, string>, k: string): string { if k in m then m[k] else "" }

  predicate OptedOut(w: Words, p: PodSpec)
  {
    Get(p.labels, w.optOut) == "false" || Get(p.annotations, w.optOut) == "false"
  }

  /** A mount at `path` is at or above `p`. */
  predicate Covers(path: string, p: string) {
    var mp := TrimRight(path, '/');
    mp == "" || mp == p || HasPrefix(p, mp + "/")
  }

  predicate MountCovers(mounts: seq<Mount>, p: string) { exists i :: 0 <= i < |mounts| && Covers(mounts[i].path, p) }

  function OurMount(w: Words, p: string): Mount { Mount(w.volume, p, w.file, true) }

  function WithPaths(w: Words, mounts: seq<Mount>, paths: seq<string>): seq<Mount> {
    if paths == [] then mounts
    else
      var done, p := WithPaths(w, mounts, paths[..|paths| - 1]), paths[|paths| - 1];
      if MountCovers(done, p) then done else done + [OurMount(w, p)]
  }

  function InjectedContainer(w: Words, c: Container): Container { c.(mounts := WithPaths(w, c.mounts, w.paths)) }

  function InjectedAll(w: Words, cs: seq<Container>): seq<Container>
  {
    seq(|cs|, i requires 0 <= i < |cs| => InjectedContainer(w, cs[i]))
  }

  predicate Injectable(w: Words, p: PodSpec, b: Bundle) { !OptedOut(w, p) && !p.windows && b.fingerprints != [] }

  function FingerprintList(b: Bundle): string { Join(b.fingerprints, ",") }

  function Injected(w: Words, p: PodSpec, b: Bundle): PodSpec {
    if !Injectable(w, p, b) then p
    else
      p.(volumes := if w.volume in p.volumes then p.volumes else p.volumes + [w.volume],
         init := InjectedAll(w, p.init),
         containers := InjectedAll(w, p.containers),
         annotations := if Get(p.annotations, w.injected) == FingerprintList(b) then p.annotations
           else p.annotations[w.injected := FingerprintList(b)])
  }

  /** A pod under admission: the mutation works on its fields. */
  class Pod {
    const namespace: string
    const name: string
    const labels: map<string, string>
    const windows: bool
    var annotations: map<string, string>
    var volumes: seq<string>
    var init: seq<Container>
    var containers: seq<Container>

    constructor (p: PodSpec)
      ensures View() == p
    {
      namespace, name, labels, windows := p.namespace, p.name, p.labels, p.windows;
      annotations, volumes, init, containers := p.annotations, p.volumes, p.init, p.containers;
    }

    function View(): PodSpec
      reads this
    {
      PodSpec(namespace, name, labels, annotations, windows, volumes, init, containers)
    }

    /** InjectPod; the answer says whether anything changed. */
    method Inject(w: Words, b: Bundle) returns (changed: bool)
      modifies this
      ensures View() == Injected(w, old(View()), b)
      ensures changed <==> View() != old(View())
    {
      if OptedOut(w, View()) || windows || |b.fingerprints| == 0 {
        return false;
      }
      changed := false;
      if w.volume !in volumes {
        volumes := volumes + [w.volume];
        changed := true;
      }
      var cs, c := InjectContainers(w, init);
      init := cs;
      changed := changed || c;
      cs, c := InjectContainers(w, containers);
      containers := cs;
      changed := changed || c;
      var want := FingerprintList(b);
      if Get(annotations, w.injected) != want {
        annotations := annotations[w.injected := want];
        changed := true;
      }
    }
  }

  method InjectContainers(w: Words, cs: seq<Container>) returns (out: seq<Container>, changed: bool)
    ensures out == InjectedAll(w, cs) && (changed <==> out != cs)
  {
    out, changed := cs, false;
    var i := 0;
    while i < |cs|
      invariant 0 <= i <= |cs| && |out| == |cs|
      invariant forall k :: 0 <= k < i ==> out[k] == InjectedContainer(w, cs[k])
      invariant forall k :: i <= k < |cs| ==> out[k] == cs[k]
      invariant changed <==> exists k :: 0 <= k < i && out[k] != cs[k]
    {
      var mounts, more := AddMounts(w, cs[i].mounts);
      out := out[i := cs[i].(mounts := mounts)];
      changed := changed || more;
      i := i + 1;
    }
    assert out == InjectedAll(w, cs);
  }

  /** injectContainer */
  method AddMounts(w: Words, mounts0: seq<Mount>) returns (mounts: seq<Mount>, changed: bool)
    ensures mounts == WithPaths(w, mounts0, w.paths) && (changed <==> mounts != mounts0)
  {
    mounts, changed := mounts0, false;
    var i := 0;
    while i < |w.paths|
      invariant 0 <= i <= |w.paths| && mounts == WithPaths(w, mounts0, w.paths[..i])
      invariant |mounts| >= |mounts0| && (changed <==> |mounts| != |mounts0|) && (changed <==> mounts != mounts0)
    {
      assert w.paths[..i + 1][..i] == w.paths[..i];
      var covered := CheckCovered(mounts, w.paths[i]);
      if !covered {
        mounts := mounts + [OurMount(w, w.paths[i])];
        changed := true;
      }
      i := i + 1;
    }
    assert w.paths[..i] == w.paths;
  }

  /** mountCovers */
  method CheckCovered(mounts: seq<Mount>, p: string) returns (covered: bool)
    ensures covered <==> MountCovers(mounts, p)
  {
    var i := 0;
    while i < |mounts|
      invariant 0 <= i <= |mounts| && forall k :: 0 <= k < i ==> !Covers(mounts[k].path, p)
    {
      var mp := TrimRight(mounts[i].path, '/');
      if mp == "" {
        mp := "/";
      }
      if mp == p || mp == "/" || HasPrefix(p, mp + "/") {
        SlashTrimmed(mounts[i].path);
        return true;
      }
      i := i + 1;
    }
    return false;
  }

  lemma {:induction false} SlashTrimmed(s: string)
    ensures TrimRight(s, '/') != "/"
  {
    if s != [] && s[|s| - 1] == '/' { SlashTrimmed(s[..|s| - 1]); }
  }

  // ---- what injection does to a container ----

  lemma {:induction false} TrimShape(s: string)
    ensures HasPrefix(s, TrimRight(s, '/')) && (TrimRight(s, '/') != s ==> HasPrefix(s, TrimRight(s, '/') + "/"))
  {
    if s != [] && s[|s| - 1] == '/' {
      TrimShape(s[..|s| - 1]);
      var mp := TrimRight(s, '/');
      if mp == s[..|s| - 1] { assert mp + "/" == s; }
    }
  }

  /** A mount at `p` covers `p`, however many slashes it ends in. */
  lemma CoversItself(p: string)
    ensures Covers(p, p)
  {
    TrimShape(p);
  }

  lemma CoversMore(mounts: seq<Mount>, more: seq<Mount>, p: string)
    requires mounts <= more && MountCovers(mounts, p)
    ensures MountCovers(more, p)
  {
    var i :| 0 <= i < |mounts| && Covers(mounts[i].path, p);
    assert more[i] == mounts[i];
  }

  /** Every added mount is ours, at one of the paths, where no original mount covers. */
  ghost predicate AddedRightly(w: Words, mounts: seq<Mount>, paths: seq<string>, after: seq<Mount>) {
    forall i :: |mounts| <= i < |after| ==>
      after[i].path in paths && after[i] == OurMount(w, after[i].path) && !MountCovers(mounts, after[i].path)
  }

  lemma AddOne(w: Words, mounts: seq<Mount>, done: seq<Mount>, p: string)
    requires mounts <= done && !MountCovers(done, p)
    ensures mounts <= done + [OurMount(w, p)] && MountCovers(done + [OurMount(w, p)], p) && !MountCovers(mounts, p)
  {
    CoversItself(p);
    assert Covers((done + [OurMount(w, p)])[|done|].path, p);
    if MountCovers(mounts, p) { CoversMore(mounts, done, p); }
  }

  lemma {:induction false} MountsKept(w: Words, mounts: seq<Mount>, paths: seq<string>)
    ensures mounts <= WithPaths(w, mounts, paths)
  {
    if paths != [] { MountsKept(w, mounts, paths[..|paths| - 1]); }
  }

  lemma {:induction false} PathsCovered(w: Words, mounts: seq<Mount>, paths: seq<string>, i: nat)
    requires i < |paths|
    ensures MountCovers(WithPaths(w, mounts, paths), paths[i])
  {
    var n := |paths| - 1;
    var done, after := WithPaths(w, mounts, paths[..n]), WithPaths(w, mounts, paths);
    if i < n {
      PathsCovered(w, mounts, paths[..n], i);
      CoversMore(done, after, paths[i]);
    } else if !MountCovers(done, paths[n]) {
      AddOne(w, done, done, paths[n]);
    }
  }

  lemma AddedOneMore(w: Words, mounts: seq<Mount>, paths: seq<string>, p: string, done: seq<Mount>)
    requires mounts <= done && AddedRightly(w, mounts, paths, done)
    ensures AddedRightly(w, mounts, paths + [p], done)
    ensures !MountCovers(done, p) ==> AddedRightly(w, mounts, paths + [p], done + [OurMount(w, p)])
  {
    if !MountCovers(done, p) { AddOne(w, mounts, done, p); }
  }

  lemma {:induction false} MountsAddedRightly(w: Words, mounts: seq<Mount>, paths: seq<string>)
    ensures AddedRightly(w, mounts, paths, WithPaths(w, mounts, paths))
  {
    if paths != [] {
      var n := |paths| - 1;
      MountsAddedRightly(w, mounts, paths[..n]);
      MountsKept(w, mounts, paths[..n]);
      AddedOneMore(w, mounts, paths[..n], paths[n], WithPaths(w, mounts, paths[..n]));
      assert paths[..n] + [paths[n]] == paths;
    }
  }

  /** Original mounts stay a prefix, every path is covered, and a mount is added only where no original one covers. */
  lemma MountsAdded(w: Words, mounts: seq<Mount>, paths: seq<string>)
    ensures mounts <= WithPaths(w, mounts, paths) && AddedRightly(w, mounts, paths, WithPaths(w, mounts, paths))
    ensures forall i :: 0 <= i < |paths| ==> MountCovers(WithPaths(w, mounts, paths), paths[i])
  {
    MountsKept(w, mounts, paths);
    MountsAddedRightly(w, mounts, paths);
    forall i | 0 <= i < |paths| ensures MountCovers(WithPaths(w, mounts, paths), paths[i]) {
      PathsCovered(w, mounts, paths, i);
    }
  }

  lemma {:induction false} CoveredStays(w: Words, mounts: seq<Mount>, paths: seq<string>)
    requires forall i :: 0 <= i < |paths| ==> MountCovers(mounts, paths[i])
    ensures WithPaths(w, mounts, paths) == mounts
  {
    if paths != [] { CoveredStays(w, mounts, paths[..|paths| - 1]); }
  }

  /** No path is at or above another. */
  ghost predicate Apart(paths: seq<string>) { forall i, j :: 0 <= i < j < |paths| ==> !Covers(paths[i], paths[j]) }

  function OurMounts(w: Words, paths: seq<string>): seq<Mount>
  {
    seq(|paths|, i requires 0 <= i < |paths| => OurMount(w, paths[i]))
  }

  lemma OursDoNotCover(w: Words, mounts: seq<Mount>, missing: seq<string>, p: string)
    requires forall q :: q in missing ==> !Covers(q, p)
    ensures MountCovers(mounts + OurMounts(w, missing), p) <==> MountCovers(mounts, p)
  {
    var done := mounts + OurMounts(w, missing);
    if MountCovers(mounts, p) { CoversMore(mounts, done, p); }
    forall i | |mounts| <= i < |done| ensures !Covers(done[i].path, p) {
      assert done[i].path == missing[i - |mounts|];
    }
    forall i | 0 <= i < |mounts| ensures done[i] == mounts[i] { }
    assert MountCovers(done, p) ==> MountCovers(mounts, p);
  }

  /** With paths apart, exactly the uncovered ones are added, in their order. */
  lemma {:induction false} MountsAddedExactly(w: Words, mounts: seq<Mount>, paths: seq<string>)
    requires Apart(paths)
    ensures WithPaths(w, mounts, paths) == mounts + OurMounts(w, Keep(paths, (p: string) => !MountCovers(mounts, p)))
  {
    if paths != [] {
      var n := |paths| - 1;
      var free := (q: string) => !MountCovers(mounts, q);
      var p, missing := paths[n], Keep(paths[..n], free);
      MountsAddedExactly(w, mounts, paths[..n]);
      KeepMembers(paths[..n], free);
      forall q | q in missing ensures !Covers(q, p) {
        var k :| 0 <= k < n && paths[..n][k] == q;
        assert paths[k] == q;
      }
      OursDoNotCover(w, mounts, missing, p);
      assert mounts + OurMounts(w, missing) + [OurMount(w, p)] == mounts + OurMounts(w, missing + [p]);
    }
  }

  lemma InjectedContainerSettles(w: Words, c: Container)
    ensures InjectedContainer(w, InjectedContainer(w, c)) == InjectedContainer(w, c)
  {
    MountsAdded(w, c.mounts, w.paths);
    CoveredStays(w, WithPaths(w, c.mounts, w.paths), w.paths);
  }

  /** Annotation keys are told apart. */
  ghost predicate Apart3(w: Words) { w.optOut != w.injected && w.mirror != w.injected && w.optOut != w.mirror }

  /** Reinvocation is safe: injecting twice is injecting once. */
  lemma InjectIdempotent(w: Words, p: PodSpec, b: Bundle)
    requires Apart3(w)
    ensures Injected(w, Injected(w, p, b), b) == Injected(w, p, b)
  {
    forall c ensures InjectedContainer(w, InjectedContainer(w, c)) == InjectedContainer(w, c) {
      InjectedContainerSettles(w, c);
    }
    var q := Injected(w, p, b);
    assert InjectedAll(w, InjectedAll(w, p.init)) == InjectedAll(w, p.init);
    assert InjectedAll(w, InjectedAll(w, p.containers)) == InjectedAll(w, p.containers);
  }

  /** A label or annotation of this key says "false". */
  ghost predicate SaysFalse(m: map<string, string>, k: string) { k in m && m[k] == "false" }

  /** A container keeps its name and mounts, and is given no mount but the bundle's, read-only, at its paths. */
  ghost predicate OnlyMountsAdded(w: Words, c: Container, after: Container) {
    && after.name == c.name && c.mounts <= after.mounts
    && forall k :: |c.mounts| <= k < |after.mounts| ==>
         after.mounts[k].path in w.paths && after.mounts[k] == Mount(w.volume, after.mounts[k].path, w.file, true)
  }

  ghost predicate EachOnlyMountsAdded(w: Words, cs: seq<Container>, after: seq<Container>) {
    |after| == |cs| && forall i :: 0 <= i < |cs| ==> OnlyMountsAdded(w, cs[i], after[i])
  }

  lemma ContainersInjected(w: Words, cs: seq<Container>)
    ensures EachOnlyMountsAdded(w, cs, InjectedAll(w, cs))
  {
    forall i | 0 <= i < |cs| ensures OnlyMountsAdded(w, cs[i], InjectedContainer(w, cs[i])) {
      MountsAdded(w, cs[i].mounts, w.paths);
    }
  }

  /**
   * Injection leaves alone a pod that opted out, one that targets Windows, and every pod while there is no CA.
   * Any other gets the volume, the mounts and the annotation; the rest of it is as it was.
   */
  lemma InjectedExactly(w: Words, p: PodSpec, b: Bundle)
    ensures var q := Injected(w, p, b);
            if SaysFalse(p.labels, w.optOut) || SaysFalse(p.annotations, w.optOut) || p.windows || b.fingerprints == []
            then q == p
            else
              && q.volumes == (if w.volume in p.volumes then p.volumes else p.volumes + [w.volume])
              && EachOnlyMountsAdded(w, p.init, q.init) && EachOnlyMountsAdded(w, p.containers, q.containers)
              && (if w.injected in q.annotations then q.annotations[w.injected] else "") == Join(b.fingerprints, ",")
              && (forall k :: k != w.injected ==> (k in q.annotations <==> k in p.annotations))
              && (forall k :: k != w.injected && k in p.annotations ==> q.annotations[k] == p.annotations[k])
              && q.namespace == p.namespace && q.name == p.name && q.labels == p.labels && q.windows == p.windows
  {
    ContainersInjected(w, p.init);
    ContainersInjected(w, p.containers);
  }

  lemma TrimmedRightUnique(s: string, c: char, a: string, b: string)
    requires TrimmedRight(s, c, a) && TrimmedRight(s, c, b)
    ensures a == b
  {
    assert a != "" ==> s[|a| - 1] != c;
    assert b != "" ==> s[|b| - 1] != c;
  }

  lemma LongerSplits(mp: string, rest: string)
    ensures Split(mp, '/') < Split(mp + "/" + rest, '/')
  {
    SplitAround(mp, rest, '/');
    assert mp + "/" + rest == mp + (['/'] + rest);
  }

  lemma JoinPrefix(a: seq<string>, b: seq<string>, sep: string)
    requires a != [] && a < b
    ensures Join(a, sep) + sep <= Join(b, sep)
  {
    var more := b[|a|..];
    assert b == a + more;
    JoinAppend(a, more, sep);
    PrefixOfThree(Join(a, sep), sep, Join(more, sep));
  }

  lemma PrefixOfThree(a: string, b: string, c: string)
    ensures a + b <= a + (b + c)
  {
  }

  lemma SplitsLonger(mp: string, p: string)
    requires Split(mp, '/') < Split(p, '/')
    ensures HasPrefix(p, mp + "/")
  {
    JoinSplit(mp, '/');
    JoinSplit(p, '/');
    JoinPrefix(Split(mp, '/'), Split(p, '/'), ['/']);
  }

  /** The segments of `p` start with those of `mp` and go on. */
  lemma LongerPath(mp: string, p: string)
    ensures HasPrefix(p, mp + "/") <==> Split(mp, '/') < Split(p, '/')
  {
    if HasPrefix(p, mp + "/") {
      assert p == mp + "/" + p[|mp| + 1..];
      LongerSplits(mp, p[|mp| + 1..]);
    }
    if Split(mp, '/') < Split(p, '/') { SplitsLonger(mp, p); }
  }

  /** A mount covers a path exactly when it is at the root, or its segments begin the path's. */
  lemma CoversExactly(path: string, p: string, mp: string)
    requires TrimmedRight(path, '/', mp)
    ensures Covers(path, p) <==> mp == "" || Split(mp, '/') <= Split(p, '/')
  {
    TrimRightExactly(path, '/');
    TrimmedRightUnique(path, '/', mp, TrimRight(path, '/'));
    LongerPath(mp, p);
    JoinSplit(mp, '/');
    JoinSplit(p, '/');
    var a, b := Split(mp, '/'), Split(p, '/');
    assert a == b <==> mp == p;
    assert a <= b <==> a < b || a == b;
  }

  /** Every container of an injected pod has every bundle path covered. */
  lemma InjectedPodIsCovered(w: Words, p: PodSpec, b: Bundle, c: Container, path: string)
    requires Injectable(w, p, b) && path in w.paths
    requires c in Injected(w, p, b).init || c in Injected(w, p, b).containers
    ensures MountCovers(c.mounts, path) && w.volume in Injected(w, p, b).volumes
  {
    var q := Injected(w, p, b);
    var o :| (o in p.init || o in p.containers) && c == InjectedContainer(w, o);
    MountsAdded(w, o.mounts, w.paths);
  }

  // ---- the gate ----

  predicate TrustsCA(w: Words, annotations: map<string, string>, fingerprint: string) {
    fingerprint in Split(Get(annotations, w.injected), ',')
  }

  /** An injected pod trusts exactly the bundle's CAs. */
  lemma InjectedTrustsExactly(w: Words, p: PodSpec, b: Bundle, f: string)
    requires Injectable(w, p, b) && NoneContains(b.fingerprints, ',')
    ensures TrustsCA(w, Injected(w, p, b).annotations, f) <==> f in b.fingerprints
  {
    SplitJoin(b.fingerprints, ',');
    assert [','] == ",";
  }

  /** Build, inject, check: the pod trusts a fingerprint exactly when it is one of the CAs'. */
  lemma BuiltAndInjectedTrusts(w: Words, header: string, roots: Roots, cas: seq<CA>, p: PodSpec, f: string)
    requires Built(header, roots, cas).Some? && Injectable(w, p, Built(header, roots, cas).value)
    requires forall i :: 0 <= i < |cas| ==> ',' !in cas[i].fingerprint
    ensures TrustsCA(w, Injected(w, p, Built(header, roots, cas).value).annotations, f) <==>
        exists ca :: ca in cas && ca.fingerprint == f
  {
    var b := Built(header, roots, cas).value;
    BuiltFingerprints(header, roots, cas);
    forall i | 0 <= i < |b.fingerprints| ensures ',' !in b.fingerprints[i] {
      assert b.fingerprints[i] in b.fingerprints;
    }
    InjectedTrustsExactly(w, p, b, f);
  }

  /** exemptFromTrust: excluded namespaces, opted-out pods and mirror pods. */
  predicate Exempt(w: Words, excluded: seq<string>, p: PodSpec) {
    p.namespace in excluded || OptedOut(w, p) || w.mirror in p.annotations
  }

  predicate HoldsGate(w: Words, excluded: seq<string>, f: string, p: PodSpec)
  {
    !Exempt(w, excluded, p) && !TrustsCA(w, p.annotations, f)
  }

  /**
   * A pod holds the gate exactly when its namespace is not excluded, neither a label nor an annotation opts it
   * out, it is no mirror pod, and the fingerprint is not in the comma-separated list of its annotation.
   */
  lemma HoldsGateExactly(w: Words, excluded: seq<string>, f: string, p: PodSpec, list: seq<string>)
    requires list != [] && NoneContains(list, ',')
    requires Join(list, ",") == if w.injected in p.annotations then p.annotations[w.injected] else ""
    ensures HoldsGate(w, excluded, f, p) <==>
            && p.namespace !in excluded && !SaysFalse(p.labels, w.optOut) && !SaysFalse(p.annotations, w.optOut)
            && w.mirror !in p.annotations && f !in list
  {
    SplitJoin(list, ',');
    assert [','] == ",";
  }

  function PodNames(ps: seq<PodSpec>): seq<string>
  {
    seq(|ps|, i requires 0 <= i < |ps| => ps[i].namespace + "/" + ps[i].name)
  }

  const SAMPLE_SIZE := 20

  function FirstOf(xs: seq<string>, n: nat): seq<string> { if |xs| > n then xs[..n] else xs }

  /** untrustedPods: how many running pods hold the gate, and the first names among them. */
  method UntrustedPods(
    w: Words, excluded: seq<string>, f: string, pods: seq<PodSpec>)
    returns (count: nat, sample: seq<string>)
    ensures var holding := Keep(pods, (p: PodSpec) => HoldsGate(w, excluded, f, p));
            && count == |holding|
            && sample == FirstOf(SortStrings(PodNames(holding)), SAMPLE_SIZE)
  {
    count, sample := 0, [];
    var i := 0;
    while i < |pods|
      invariant 0 <= i <= |pods|
      invariant count == |Keep(pods[..i], (p: PodSpec) => HoldsGate(w, excluded, f, p))|
      invariant sample == PodNames(Keep(pods[..i], (p: PodSpec) => HoldsGate(w, excluded, f, p)))
    {
      assert pods[..i + 1][..i] == pods[..i];
      var p := pods[i];
      if !(Exempt(w, excluded, p) || TrustsCA(w, p.annotations, f)) {
        count := count + 1;
        sample := sample + [p.namespace + "/" + p.name];
      }
      i := i + 1;
    }
    assert pods[..i] == pods;
    sample := SortStrings(sample);
    if |sample| > SAMPLE_SIZE {
      sample := sample[..SAMPLE_SIZE];
    }
  }

  /** `name` is that of some pod that holds the gate, under its namespace. */
  ghost predicate NamesHolder(w: Words, excluded: seq<string>, f: string, pods: seq<PodSpec>, name: string) {
    exists i :: 0 <= i < |pods| && HoldsGate(w, excluded, f, pods[i]) && name == pods[i].namespace + "/" + pods[i].name
  }

  /** The sample: at most twenty names of pods that hold the gate, sorted; all of them where there are no more. */
  lemma SampleExactly(w: Words, excluded: seq<string>, f: string, pods: seq<PodSpec>)
    ensures var holding := Keep(pods, (p: PodSpec) => HoldsGate(w, excluded, f, p));
            var sample := FirstOf(SortStrings(PodNames(holding)), SAMPLE_SIZE);
            && Sorted(sample, Less) && |sample| == (if |holding| <= 20 then |holding| else 20)
            && (forall n :: n in sample ==> NamesHolder(w, excluded, f, pods, n))
            && (|holding| <= 20 ==> forall n :: NamesHolder(w, excluded, f, pods, n) ==> n in sample)
  {
    var p := (p: PodSpec) => HoldsGate(w, excluded, f, p);
    var holding := Keep(pods, p);
    var names := PodNames(holding);
    KeepMembers(pods, p);
    SortStringsProperties(names);
    forall n ensures n in names <==> NamesHolder(w, excluded, f, pods, n) {
      if n in names {
        var i :| 0 <= i < |names| && names[i] == n;
        assert holding[i] in holding;
        var k :| 0 <= k < |pods| && pods[k] == holding[i];
      }
      if k: nat :| k < |pods| && p(pods[k]) && n == pods[k].namespace + "/" + pods[k].name {
        assert pods[k] in holding;
        var i :| 0 <= i < |holding| && holding[i] == pods[k];
        assert names[i] == n;
      }
    }
    forall n | n in FirstOf(SortStrings(names), SAMPLE_SIZE) ensures n in names {
      assert n in SortStrings(names);
    }
  }

  /**
   * Injection opens the gate, except on Windows: with the fingerprint in the bundle, a pod that
   * went through injection still holds the gate exactly when it targets Windows, is not exempt and
   * did not carry the fingerprint already.
   */
  lemma InjectionOpensGate(w: Words, excluded: seq<string>, p: PodSpec, b: Bundle, f: string)
    requires Apart3(w) && f in b.fingerprints && NoneContains(b.fingerprints, ',')
    ensures HoldsGate(w, excluded, f, Injected(w, p, b)) <==> p.windows && HoldsGate(w, excluded, f, p)
  {
    if Injectable(w, p, b) { InjectedTrustsExactly(w, p, b, f); }
  }

  /** The gate is open exactly when every running pod is exempt or trusts the CA. */
  lemma GateOpenExactly(w: Words, excluded: seq<string>, f: string, pods: seq<PodSpec>)
    ensures |Keep(pods, (p: PodSpec) => HoldsGate(w, excluded, f, p))| == 0 <==>
            forall i :: 0 <= i < |pods| ==> Exempt(w, excluded, pods[i]) || TrustsCA(w, pods[i].annotations, f)
  {
    var p := (p: PodSpec) => HoldsGate(w, excluded, f, p);
    KeepMembers(pods, p);
    var holding := Keep(pods, p);
    if holding != [] {
      assert holding[0] in holding;
      var i :| 0 <= i < |pods| && pods[i] == holding[0];
    } else {
      forall i | 0 <= i < |pods| ensures Exempt(w, excluded, pods[i]) || TrustsCA(w, pods[i].annotations, f) {
        assert pods[i] !in holding;
      }
    }
  }

  // ---- the operator's own words ----

  const SYSTEM_BUNDLE_PATHS :=
    ["/etc/ssl/certs/ca-certificates.crt", "/etc/pki/tls/certs/ca-bundle.crt", "/etc/ssl/cert.pem"]

  lemma NotAbove(a: string, b: string, k: nat)
    requires a != "" && a[|a| - 1] != '/' && k < |a| && k < |b| && a[k] != b[k]
    ensures !Covers(a, b)
  {
    assert TrimRight(a, '/') == a;
    assert (a + "/")[k] == a[k];
  }

  lemma SystemPathsApart()
    ensures Apart(SYSTEM_BUNDLE_PATHS)
  {
    var a, b, c := SYSTEM_BUNDLE_PATHS[0], SYSTEM_BUNDLE_PATHS[1], SYSTEM_BUNDLE_PATHS[2];
    NotAbove(a, b, 5);
    NotAbove(a, c, 13);
    NotAbove(b, c, 5);
  }
}
