/** Runs of reflector passes over shared CoreDNS ConfigMaps, with users and other writers in between. */
module SettledDns {
  import opened Text
  import opened Api
  import opened LocalDns
  import opened Claims
  import opened Routes
  import opened CoreDns
  import opened Reflectors

  /** How a reflector's last pass ended, and on what it worked. */
  datatype Last = Succeeded(self: Reflector, all: seq<Reflector>, ts: seq<Tunnel>) | Unsuccessful

  /** `maps` holds the data of every CoreDNS ConfigMap by its location; `last` is history. */
  datatype World = World(
    reflectors: map<string, Reflector>,
    finalizers: set<string>,
    tunnels: seq<Tunnel>,
    maps: map<string, map<string, string>>,
    last: map<string, Last>)

  /** Passes work on whatever lists they were given, fresh or stale. */
  datatype Action =
    | Create(reflector: Reflector)
    | Change(name: string, allHostnames: bool, hostnames: seq<string>, dnsDisabled: bool, ignoreUntrusted: bool)
    | Delete(name: string)
    | SetTunnels(tunnels: seq<Tunnel>)
    | OtherWrite(location: string, dataKey: string, content: string)
    | Pass(name: string, all: seq<Reflector>, ts: seq<Tunnel>, env: Env)

  /**
   * How the operator uses ConfigMaps: the words of a file, the data key of a reflector, and what a pass
   * writes there.
   */
  datatype Layout = Layout(
    syn: Syntax,
    key: string -> string,
    content: (Reflector, seq<Reflector>, seq<Tunnel>, Env) -> Option<string>)

  /** One name has one key, and a pass writes only zones it claims. */
  ghost predicate Sound(lay: Layout) {
    && (forall a, b :: lay.key(a) == lay.key(b) ==> a == b)
    && (forall self: Reflector, all, ts, env: Env :: SaneInput(lay, self, ts, env) ==>
          WritesClaimedZones(lay, self, all, ts, lay.content(self, all, ts, env)))
  }

  ghost predicate SaneInput(lay: Layout, self: Reflector, ts: seq<Tunnel>, env: Env) {
    DistinctKeys(ts) && '\n' !in self.name && (env.ip.IP? ==> PlainAddress(lay.syn, env.ip.text))
  }

  ghost predicate WritesClaimedZones(
    lay: Layout, self: Reflector, all: seq<Reflector>, ts: seq<Tunnel>, content: Option<string>)
  {
    content.Some? && content.value != "" ==> ZonesWithin(lay, content.value, Claimed(self, all, ts))
  }

  ghost predicate Foreign(lay: Layout, k: string) { forall n :: lay.key(n) != k }

  function Lookup(maps: map<string, map<string, string>>, location: string, k: string): Option<string> {
    if location in maps && k in maps[location] then Some(maps[location][k]) else None
  }

  function SetKey(
    maps: map<string, map<string, string>>, location: string, k: string, content: string)
    : map<string, map<string, string>>
  {
    match Synced(if location in maps then Some(maps[location]) else None, k, content)
    case None => maps
    case Some(data) => maps[location := data]
  }

  lemma SetKeyLookup(maps: map<string, map<string, string>>, location: string, k: string, content: string)
    ensures Lookup(SetKey(maps, location, k, content), location, k) == if content == "" then None else Some(content)
    ensures forall l, j :: l != location || j != k ==>
        Lookup(SetKey(maps, location, k, content), l, j) == Lookup(maps, l, j)
  {
  }

  /** finalize: the key goes, then the object. */
  function Finalized(lay: Layout, w: World, n: string): World
    requires n in w.reflectors
  {
    World(w.reflectors - {n}, w.finalizers - {n}, w.tunnels, SetKey(w.maps, w.reflectors[n].configMap, lay.key(n), ""),
      w.last - {n})
  }

  /** A pass of a live reflector that came to write `content`. */
  function Worked(
    lay: Layout, w: World, n: string, all: seq<Reflector>, ts: seq<Tunnel>, env: Env, content: Option<string>): World
    requires n in w.reflectors
  {
    var self := w.reflectors[n];
    if StopsEarly(env) || content.None? || env.failure == ConfigMap then
      w.(finalizers := w.finalizers + {n}, last := w.last[n := Unsuccessful])
    else
      w.(finalizers := w.finalizers + {n},
         maps := SetKey(w.maps, self.configMap, lay.key(n), content.value),
         last := w.last[n := if env.failure == NodeAgent then Unsuccessful else Succeeded(self, all, ts)])
  }

  function Passed(lay: Layout, w: World, n: string, all: seq<Reflector>, ts: seq<Tunnel>, env: Env): World {
    if n !in w.reflectors then w
    else if !w.reflectors[n].deleting then Worked(lay, w, n, all, ts, env, lay.content(w.reflectors[n], all, ts, env))
    else if n !in w.finalizers || env.failure == ConfigMap then w
    else Finalized(lay, w, n)
  }

  function Deleted(w: World, n: string): World {
    if n !in w.reflectors then w
    else if n in w.finalizers then w.(reflectors := w.reflectors[n := w.reflectors[n].(deleting := true)])
    else w.(reflectors := w.reflectors - {n}, last := w.last - {n})
  }

  function Changed(
    w: World, n: string, allHostnames: bool, hostnames: seq<string>, dnsDisabled: bool, ignoreUntrusted: bool): World
  {
    if n !in w.reflectors then w
    else
      var r :=
        w.reflectors[n].(allHostnames := allHostnames, hostnames := hostnames, dnsDisabled := dnsDisabled,
          ignoreUntrusted := ignoreUntrusted);
      w.(reflectors := w.reflectors[n := r])
  }

  function Created(w: World, r: Reflector): World {
    if r.name in w.reflectors then w else w.(reflectors := w.reflectors[r.name := r.(deleting := false)])
  }

  function Step(lay: Layout, w: World, a: Action): World {
    match a
    case Create(r) => Created(w, r)
    case Change(n, allHostnames, hostnames, dnsDisabled, ignore) =>
      Changed(w, n, allHostnames, hostnames, dnsDisabled, ignore)
    case Delete(n) => Deleted(w, n)
    case SetTunnels(ts) => w.(tunnels := ts)
    case OtherWrite(location, k, content) => w.(maps := SetKey(w.maps, location, k, content))
    case Pass(n, all, ts, env) => Passed(lay, w, n, all, ts, env)
  }

  function Run(lay: Layout, w: World, steps: seq<Action>): World {
    if steps == [] then w else Step(lay, Run(lay, w, steps[..|steps| - 1]), steps[|steps| - 1])
  }

  /** Lists come from the API server, addresses from net.IP, and other writers use other keys. */
  ghost predicate Sane(lay: Layout, a: Action) {
    match a
    case Create(r) => '\n' !in r.name
    case OtherWrite(_, k, _) => Foreign(lay, k)
    case Pass(_, all, ts, env) =>
      DistinctNames(all) && DistinctKeys(ts) && (env.ip.IP? ==> PlainAddress(lay.syn, env.ip.text))
    case _ => true
  }

  ghost predicate SaneRun(lay: Layout, steps: seq<Action>) {
    forall i :: 0 <= i < |steps| ==> Sane(lay, steps[i])
  }

  /** No reflector yet, and no key of one. */
  ghost predicate Initial(lay: Layout, w: World) {
    && w.reflectors == map[] && w.finalizers == {} && w.last == map[]
    && forall location, n :: Lookup(w.maps, location, lay.key(n)).None?
  }

  // ---- what every step keeps ----

  ghost predicate ZonesWithin(lay: Layout, text: string, names: seq<string>)
  {
    forall h :: ServesZone(lay.syn, text, h) ==> h in names
  }

  ghost predicate Tidy(w: World) {
    && (forall n :: n in w.reflectors ==> w.reflectors[n].name == n && '\n' !in n)
    && w.finalizers <= w.reflectors.Keys && w.last.Keys <= w.reflectors.Keys
  }

  /** A key in a ConfigMap belongs to a reflector that exists, holds its finalizer and looks there. */
  ghost predicate KeysAreOwned(lay: Layout, w: World) {
    forall location, n :: Lookup(w.maps, location, lay.key(n)).Some? ==>
      n in w.finalizers && n in w.reflectors && w.reflectors[n].configMap == location
  }

  ghost predicate RemembersPass(lay: Layout, w: World, n: string)
    requires n in w.last && n in w.reflectors
  {
    w.last[n].Succeeded? ==>
      var text := Lookup(w.maps, w.reflectors[n].configMap, lay.key(n));
      DistinctNames(w.last[n].all)
        && (text.Some? ==> ZonesWithin(lay, text.value, Claimed(w.last[n].self, w.last[n].all, w.last[n].ts)))
  }

  /** A key written by a successful pass serves only zones that pass claimed. */
  ghost predicate LastIsRemembered(lay: Layout, w: World) {
    forall n :: n in w.last && n in w.reflectors ==> RemembersPass(lay, w, n)
  }

  ghost predicate Inv(lay: Layout, w: World) { Tidy(w) && KeysAreOwned(lay, w) && LastIsRemembered(lay, w) }

  lemma WorkedKeepsInv(
    lay: Layout, w: World, n: string, all: seq<Reflector>, ts: seq<Tunnel>, env: Env, content: Option<string>)
    requires Sound(lay) && Inv(lay, w) && n in w.reflectors && DistinctNames(all)
    requires content.Some? && content.value != "" ==> ZonesWithin(lay, content.value, Claimed(w.reflectors[n], all, ts))
    ensures Inv(lay, Worked(lay, w, n, all, ts, env, content))
  {
    var self := w.reflectors[n];
    var w' := Worked(lay, w, n, all, ts, env, content);
    if content.Some? { SetKeyLookup(w.maps, self.configMap, lay.key(n), content.value); }
    forall m | m in w'.last && m in w'.reflectors ensures RemembersPass(lay, w', m) {
      if m != n { assert RemembersPass(lay, w, m); }
    }
  }

  lemma PassKeepsInv(lay: Layout, w: World, n: string, all: seq<Reflector>, ts: seq<Tunnel>, env: Env)
    requires Sound(lay) && Inv(lay, w) && Sane(lay, Pass(n, all, ts, env))
    ensures Inv(lay, Passed(lay, w, n, all, ts, env))
  {
    if n in w.reflectors && !w.reflectors[n].deleting {
      var content := lay.content(w.reflectors[n], all, ts, env);
      assert WritesClaimedZones(lay, w.reflectors[n], all, ts, content);
      WorkedKeepsInv(lay, w, n, all, ts, env, content);
    } else if n in w.reflectors && n in w.finalizers && env.failure != ConfigMap {
      FinalizedKeepsInv(lay, w, n);
    }
  }

  lemma FinalizedKeepsInv(lay: Layout, w: World, n: string)
    requires Sound(lay) && Inv(lay, w) && n in w.reflectors
    ensures Inv(lay, Finalized(lay, w, n))
  {
    var w' := Finalized(lay, w, n);
    SetKeyLookup(w.maps, w.reflectors[n].configMap, lay.key(n), "");
    forall m | m in w'.last && m in w'.reflectors ensures RemembersPass(lay, w', m) { assert RemembersPass(lay, w, m); }
  }

  lemma OtherWriteKeepsInv(lay: Layout, w: World, location: string, k: string, content: string)
    requires Inv(lay, w) && Foreign(lay, k)
    ensures Inv(lay, w.(maps := SetKey(w.maps, location, k, content)))
  {
    var w' := w.(maps := SetKey(w.maps, location, k, content));
    SetKeyLookup(w.maps, location, k, content);
    forall m | m in w'.last && m in w'.reflectors ensures RemembersPass(lay, w', m) { assert RemembersPass(lay, w, m); }
  }

  /** Steps of users change no ConfigMap, and never move a reflector to another one. */
  lemma UserStepKeepsInv(lay: Layout, w: World, w': World)
    requires Inv(lay, w) && Tidy(w') && w'.maps == w.maps
    requires forall n :: n in w.finalizers ==>
        n in w'.finalizers && n in w'.reflectors && w'.reflectors[n].configMap == w.reflectors[n].configMap
    requires forall n :: n in w'.last ==>
        n in w.last && w'.last[n] == w.last[n] && n in w'.reflectors
          && w'.reflectors[n].configMap == w.reflectors[n].configMap
    ensures Inv(lay, w')
  {
    forall m | m in w'.last && m in w'.reflectors ensures RemembersPass(lay, w', m) { assert RemembersPass(lay, w, m); }
  }

  lemma DeletedKeepsInv(lay: Layout, w: World, n: string)
    requires Inv(lay, w)
    ensures Inv(lay, Deleted(w, n))
  {
    UserStepKeepsInv(lay, w, Deleted(w, n));
  }

  lemma CreatedKeepsInv(lay: Layout, w: World, r: Reflector)
    requires Inv(lay, w) && '\n' !in r.name
    ensures Inv(lay, Created(w, r))
  {
    UserStepKeepsInv(lay, w, Created(w, r));
  }

  lemma ChangedKeepsInv(
    lay: Layout, w: World, n: string, allHostnames: bool, hostnames: seq<string>, dnsDisabled: bool, ignore: bool)
    requires Inv(lay, w)
    ensures Inv(lay, Changed(w, n, allHostnames, hostnames, dnsDisabled, ignore))
  {
    UserStepKeepsInv(lay, w, Changed(w, n, allHostnames, hostnames, dnsDisabled, ignore));
  }

  lemma StepKeepsInv(lay: Layout, w: World, a: Action)
    requires Sound(lay) && Inv(lay, w) && Sane(lay, a)
    ensures Inv(lay, Step(lay, w, a))
  {
    match a
    case Create(r) => CreatedKeepsInv(lay, w, r);
    case Change(n, allHostnames, hostnames, dnsDisabled, ignore) =>
      ChangedKeepsInv(lay, w, n, allHostnames, hostnames, dnsDisabled, ignore);
    case Delete(n) => DeletedKeepsInv(lay, w, n);
    case SetTunnels(ts) => UserStepKeepsInv(lay, w, w.(tunnels := ts));
    case OtherWrite(location, k, content) => OtherWriteKeepsInv(lay, w, location, k, content);
    case Pass(n, all, ts, env) => PassKeepsInv(lay, w, n, all, ts, env);
  }

  lemma {:induction false} RunKeepsInv(lay: Layout, w: World, steps: seq<Action>)
    requires Sound(lay) && Initial(lay, w) && SaneRun(lay, steps)
    ensures Inv(lay, Run(lay, w, steps))
  {
    if steps != [] {
      var k := |steps| - 1;
      RunKeepsInv(lay, w, steps[..k]);
      StepKeepsInv(lay, Run(lay, w, steps[..k]), steps[k]);
    }
  }

  // ---- settled states ----

  /** The last pass of `n` succeeded on the reflectors and tunnels there are now. */
  ghost predicate UpToDate(w: World, n: string)
    requires n in w.reflectors
  {
    && n in w.last && w.last[n].Succeeded? && w.last[n].self == w.reflectors[n]
    && (forall r: Reflector :: !r.deleting ==> (r in w.last[n].all <==> r in w.reflectors.Values))
    && (forall t :: t in w.last[n].ts <==> t in w.tunnels)
  }

  ghost predicate Settled(w: World) {
    forall n :: n in w.reflectors ==> !w.reflectors[n].deleting && UpToDate(w, n)
  }

  ghost predicate Serves(lay: Layout, w: World, location: string, n: string, h: string) {
    var text := Lookup(w.maps, location, lay.key(n));
    text.Some? && ServesZone(lay.syn, text.value, h)
  }

  /** A zone under a reflector's key is one that reflector's last pass claimed. */
  lemma ServedIsClaimed(lay: Layout, w: World, location: string, n: string, h: string)
    requires Inv(lay, w) && Settled(w) && Serves(lay, w, location, n, h)
    ensures n in w.reflectors && w.reflectors[n].configMap == location
    ensures n in w.last && w.last[n].Succeeded? && h in Claimed(w.reflectors[n], w.last[n].all, w.last[n].ts)
  {
    assert UpToDate(w, n);
    assert RemembersPass(lay, w, n);
  }

  lemma SettledStatesAreExclusive(lay: Layout, w: World, l1: string, n1: string, l2: string, n2: string, h: string)
    requires Inv(lay, w) && Settled(w) && Serves(lay, w, l1, n1, h) && Serves(lay, w, l2, n2, h)
    ensures n1 == n2 && l1 == l2
  {
    ServedIsClaimed(lay, w, l1, n1, h);
    ServedIsClaimed(lay, w, l2, n2, h);
    var a, b := w.reflectors[n1], w.reflectors[n2];
    var p, q := w.last[n1], w.last[n2];
    assert UpToDate(w, n1) && UpToDate(w, n2) && RemembersPass(lay, w, n1);
    assert a in w.reflectors.Values && b in w.reflectors.Values;
    ClaimsSeeMembers(b, q.all, p.all, q.ts, p.ts);
    ClaimsAreDisjoint(a, b, p.all, p.ts, h);
  }

  /**
   * Settled exclusivity. After any interleaving of passes (on fresh or stale lists, failing
   * anywhere), finalizations, user changes and other writers: when every reflector is live and
   * its last pass succeeded on what there is now, no zone is under two keys.
   */
  lemma SettledExclusivity(
    lay: Layout, w: World, steps: seq<Action>, l1: string, n1: string, l2: string, n2: string, h: string)
    requires Sound(lay) && Initial(lay, w) && SaneRun(lay, steps)
    requires Settled(Run(lay, w, steps))
    requires Serves(lay, Run(lay, w, steps), l1, n1, h) && Serves(lay, Run(lay, w, steps), l2, n2, h)
    ensures n1 == n2 && l1 == l2
  {
    RunKeepsInv(lay, w, steps);
    SettledStatesAreExclusive(lay, Run(lay, w, steps), l1, n1, l2, n2, h);
  }

  // ---- settled states are reached ----

  /** Lists of the reflectors and tunnels there are. */
  ghost predicate Present(w: World, all: seq<Reflector>, ts: seq<Tunnel>) {
    && (forall r: Reflector :: !r.deleting ==> (r in all <==> r in w.reflectors.Values))
    && (forall t :: t in ts <==> t in w.tunnels)
  }

  predicate Untroubled(env: Env) { env.failure == Nowhere }

  lemma WorkedIsUpToDate(
    lay: Layout, w: World, n: string, all: seq<Reflector>, ts: seq<Tunnel>, env: Env, content: Option<string>)
    requires n in w.reflectors && Present(w, all, ts) && Untroubled(env) && content.Some?
    ensures var w' := Worked(lay, w, n, all, ts, env, content);
            && w'.reflectors == w.reflectors && w'.tunnels == w.tunnels && UpToDate(w', n)
            && forall m :: m in w.reflectors && UpToDate(w, m) ==> UpToDate(w', m)
  {
    var w' := Worked(lay, w, n, all, ts, env, content);
    assert w'.last[n] == Succeeded(w.reflectors[n], all, ts);
    forall m | m in w.reflectors && UpToDate(w, m) ensures UpToDate(w', m) {
      assert m != n ==> w'.last[m] == w.last[m];
    }
  }

  /** A pass of each named reflector in turn, on the same lists. */
  function PassEach(
    lay: Layout, w: World, names: seq<string>, all: seq<Reflector>, ts: seq<Tunnel>, env: string -> Env): World
  {
    if names == [] then w
    else
      var n := names[|names| - 1];
      Passed(lay, PassEach(lay, w, names[..|names| - 1], all, ts, env), n, all, ts, env(n))
  }

  /** The pass of `r` gets through. */
  ghost predicate GetsThrough(lay: Layout, r: Reflector, all: seq<Reflector>, ts: seq<Tunnel>, env: Env) {
    !r.deleting && Untroubled(env) && lay.content(r, all, ts, env).Some?
  }

  ghost predicate UpToDateAll(w: World, names: seq<string>)
  {
    forall n :: n in names ==> n in w.reflectors && UpToDate(w, n)
  }

  lemma PassIsUpToDate(
    lay: Layout, w: World, names: seq<string>, n: string, all: seq<Reflector>, ts: seq<Tunnel>, env: Env)
    requires n in w.reflectors && Present(w, all, ts) && GetsThrough(lay, w.reflectors[n], all, ts, env)
        && UpToDateAll(w, names)
    ensures var w' := Passed(lay, w, n, all, ts, env);
            w'.reflectors == w.reflectors && w'.tunnels == w.tunnels && UpToDateAll(w', names + [n])
  {
    WorkedIsUpToDate(lay, w, n, all, ts, env, lay.content(w.reflectors[n], all, ts, env));
  }

  ghost predicate AllGetThrough(
    lay: Layout, w: World, names: seq<string>, all: seq<Reflector>, ts: seq<Tunnel>, env: string -> Env)
  {
    forall i :: 0 <= i < |names| ==>
      names[i] in w.reflectors && GetsThrough(lay, w.reflectors[names[i]], all, ts, env(names[i]))
  }

  lemma {:induction false} PassedAreUpToDate(
    lay: Layout, w: World, names: seq<string>, all: seq<Reflector>, ts: seq<Tunnel>, env: string -> Env)
    requires Present(w, all, ts) && AllGetThrough(lay, w, names, all, ts, env)
    ensures var w' := PassEach(lay, w, names, all, ts, env);
            w'.reflectors == w.reflectors && w'.tunnels == w.tunnels && UpToDateAll(w', names)
  {
    if names != [] {
      var k := |names| - 1;
      PassedAreUpToDate(lay, w, names[..k], all, ts, env);
      PassIsUpToDate(lay, PassEach(lay, w, names[..k], all, ts, env), names[..k], names[k], all, ts, env(names[k]));
      assert names == names[..k] + [names[k]];
    }
  }

  /** One pass of every reflector on the present lists, in any order and whatever came before, settles the system. */
  lemma FreshPassesSettle(
    lay: Layout, w: World, names: seq<string>, all: seq<Reflector>, ts: seq<Tunnel>, env: string -> Env)
    requires Present(w, all, ts) && AllGetThrough(lay, w, names, all, ts, env)
    requires forall n :: n in w.reflectors ==> n in names
    ensures Settled(PassEach(lay, w, names, all, ts, env))
  {
    PassedAreUpToDate(lay, w, names, all, ts, env);
    var w' := PassEach(lay, w, names, all, ts, env);
    forall n | n in w'.reflectors ensures !w'.reflectors[n].deleting && UpToDate(w', n) {
      var i :| 0 <= i < |names| && names[i] == n;
    }
  }

  /** Once a reflector is gone, so is its key, everywhere. */
  lemma GoneMeansWithdrawn(lay: Layout, w: World, steps: seq<Action>, location: string, n: string)
    requires Sound(lay) && Initial(lay, w) && SaneRun(lay, steps)
    requires n !in Run(lay, w, steps).reflectors
    ensures Lookup(Run(lay, w, steps).maps, location, lay.key(n)).None?
  {
    RunKeepsInv(lay, w, steps);
  }

  // ---- keys of others ----

  /** What other writers left under a key. */
  function LeftByOthers(initial: Option<string>, steps: seq<Action>, location: string, k: string): Option<string> {
    if steps == [] then initial
    else
      var a := steps[|steps| - 1];
      if a.OtherWrite? && a.location == location
        && a.dataKey == k then (if a.content == "" then None else Some(a.content))
      else LeftByOthers(initial, steps[..|steps| - 1], location, k)
  }

  lemma WorkedFrame(
    lay: Layout, w: World, n: string, all: seq<Reflector>, ts: seq<Tunnel>, env: Env, content: Option<string>,
    location: string, k: string)
    requires n in w.reflectors && (k != lay.key(n) || location != w.reflectors[n].configMap)
    ensures Lookup(Worked(lay, w, n, all, ts, env, content).maps, location, k) == Lookup(w.maps, location, k)
    ensures Lookup(Finalized(lay, w, n).maps, location, k) == Lookup(w.maps, location, k)
  {
    if content.Some? { SetKeyLookup(w.maps, w.reflectors[n].configMap, lay.key(n), content.value); }
    SetKeyLookup(w.maps, w.reflectors[n].configMap, lay.key(n), "");
  }

  /**
   * A pass touches one key of one ConfigMap. This is also why locations must stay: a reflector
   * pointed at another ConfigMap never takes its key out of the former one.
   */
  lemma PassFrame(
    lay: Layout, w: World, n: string, all: seq<Reflector>, ts: seq<Tunnel>, env: Env, location: string, k: string)
    requires n in w.reflectors ==> k != lay.key(n) || location != w.reflectors[n].configMap
    ensures Lookup(Passed(lay, w, n, all, ts, env).maps, location, k) == Lookup(w.maps, location, k)
  {
    if n in w.reflectors {
      var content := lay.content(w.reflectors[n], all, ts, env);
      WorkedFrame(lay, w, n, all, ts, env, content, location, k);
      assert Passed(lay, w, n, all, ts, env) in {w, Worked(lay, w, n, all, ts, env, content), Finalized(lay, w, n)};
    }
  }

  /** A key no reflector owns holds what other writers left there. */
  lemma {:induction false} ForeignKeysUntouched(lay: Layout, w: World, steps: seq<Action>, location: string, k: string)
    requires Foreign(lay, k)
    ensures Lookup(Run(lay, w, steps).maps, location, k) ==
        LeftByOthers(Lookup(w.maps, location, k), steps, location, k)
  {
    if steps != [] {
      var n := |steps| - 1;
      var before, a := Run(lay, w, steps[..n]), steps[n];
      ForeignKeysUntouched(lay, w, steps[..n], location, k);
      match a
      case OtherWrite(l, j, content) => SetKeyLookup(before.maps, l, j, content);
      case Pass(m, all, ts, env) => PassFrame(lay, before, m, all, ts, env, location, k);
      case _ =>
    }
  }

  // ---- the operator's own keys ----

  function DataKey(name: string): string { "weft-local-dns-reflector-" + name + ".server" }

  lemma WrapInjective(p: string, a: string, b: string, s: string)
    requires p + a + s == p + b + s
    ensures a == b
  {
    assert (p + a + s)[|p|..|p| + |a|] == a;
    assert (p + b + s)[|p|..|p| + |b|] == b;
    assert |p + a + s| == |p| + |a| + |s| && |p + b + s| == |p| + |b| + |s|;
  }

  const OPERATOR := Layout(COREFILE, DataKey, (self, all, ts, env) => ContentOf(COREFILE, self, all, ts, env))

  lemma OperatorWritesClaimedZones(self: Reflector, all: seq<Reflector>, ts: seq<Tunnel>, env: Env)
    requires SaneInput(OPERATOR, self, ts, env)
    ensures WritesClaimedZones(OPERATOR, self, all, ts, ContentOf(COREFILE, self, all, ts, env))
  {
    var content := ContentOf(COREFILE, self, all, ts, env);
    if content.Some? && content.value != "" {
      CorefileIsReadable();
      PublishedZones(COREFILE, self, all, ts, env, "");
    }
  }

  /** The operator's own layout is sound: data keys differ, and what a pass renders are its claims. */
  lemma OperatorIsSound()
    ensures Sound(OPERATOR)
  {
    forall a, b | OPERATOR.key(a) == OPERATOR.key(b) ensures a == b {
      WrapInjective("weft-local-dns-reflector-", a, b, ".server");
    }
    forall self: Reflector, all, ts, env: Env | SaneInput(OPERATOR, self, ts, env)
      ensures WritesClaimedZones(OPERATOR, self, all, ts, OPERATOR.content(self, all, ts, env))
    {
      OperatorWritesClaimedZones(self, all, ts, env);
    }
  }

  /** SettledExclusivity for the operator as it is. */
  lemma OperatorZonesAreExclusive(
    w: World, steps: seq<Action>, l1: string, n1: string, l2: string, n2: string, h: string)
    requires Initial(OPERATOR, w) && SaneRun(OPERATOR, steps) && Settled(Run(OPERATOR, w, steps))
    requires Serves(OPERATOR, Run(OPERATOR, w, steps), l1, n1, h)
        && Serves(OPERATOR, Run(OPERATOR, w, steps), l2, n2, h)
    ensures n1 == n2 && l1 == l2
  {
    OperatorIsSound();
    SettledExclusivity(OPERATOR, w, steps, l1, n1, l2, n2, h);
  }
}
