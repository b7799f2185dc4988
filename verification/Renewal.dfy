/** internal/pki and the requeue arithmetic: serving certificates over runs of passes. Times are in nanoseconds. */
module Renewal {
  import opened Order
  import opened Text
  import opened Api
  import opened LocalDns
  import opened CoreDns

  const SECOND := 1_000_000_000
  const HOUR := 3600 * SECOND
  const LEAF_VALIDITY := 365 * 24 * HOUR
  const LEAF_RENEW_BEFORE := 30 * 24 * HOUR
  const MAX_REQUEUE := 12 * HOUR
  const TRUST_RECHECK := 120 * SECOND
  const TRUST_BLOCKED_RECHECK := 30 * SECOND

  /** A serving certificate; `issuer` is the CA that signed it. */
  datatype Leaf = Leaf(sans: seq<string>, issuer: int, notAfter: int)

  datatype RenewalReason = Missing | OtherIssuer | OtherNames | Expiring | StillGood

  /** RenewalReason, in the order it looks. */
  function Reason(leaf: Option<Leaf>, ca: int, names: seq<string>, now: int): RenewalReason {
    if leaf.None? then Missing
    else if leaf.value.issuer != ca then OtherIssuer
    else if SortedLower(leaf.value.sans) != SortedLower(names) then OtherNames
    else if now > leaf.value.notAfter - LEAF_RENEW_BEFORE then Expiring
    else StillGood
  }

  /** X.509 keeps whole seconds. */
  function WholeSeconds(t: int): int { t - t % SECOND }

  /** IssueLeaf; None when there is no name to certify. */
  function Issue(ca: int, names: seq<string>, now: int): Option<Leaf> {
    if names == [] then None else Some(Leaf(SortedLower(names), ca, WholeSeconds(now + LEAF_VALIDITY)))
  }

  /** The certificate after ensureCertificates; None is a failed pass. */
  function Ensured(leaf: Option<Leaf>, ca: int, names: seq<string>, now: int): Option<Leaf> {
    if Reason(leaf, ca, names, now) == StillGood then leaf else Issue(ca, names, now)
  }

  function Min(a: int, b: int): int { if a <= b then a else b }

  function Max(a: int, b: int): int { if a >= b then a else b }

  function OrDefault(d: int, def: int): int { if d > 0 then d else def }

  /** The two configured intervals, 0 meaning the default. */
  datatype Intervals = Intervals(recheck: int, blocked: int)

  function Recheck(iv: Intervals, trusted: bool): int {
    if trusted then OrDefault(iv.recheck, TRUST_RECHECK) else OrDefault(iv.blocked, TRUST_BLOCKED_RECHECK)
  }

  function Requeue(iv: Intervals, trusted: bool, notAfter: int, now: int): int {
    var recheck := Recheck(iv, trusted);
    Max(Min(Min(notAfter - LEAF_RENEW_BEFORE - now, MAX_REQUEUE), recheck), Min(recheck, 10 * SECOND))
  }

  /** Coming back is always in the future, and no later than the recheck interval. */
  lemma RequeueBounds(iv: Intervals, trusted: bool, notAfter: int, now: int)
    ensures 0 < Requeue(iv, trusted, notAfter, now) <= Recheck(iv, trusted)
    ensures now + Requeue(iv, trusted, notAfter, now) <= Max(notAfter - LEAF_RENEW_BEFORE, now + 10 * SECOND)
  {
  }

  /**
   * When to come back, in nanoseconds: the earliest of thirty days before expiry, twelve hours and the recheck
   * interval, but not before ten seconds or that interval. The interval is the configured one of the gate's
   * state, or two minutes with the gate open and thirty seconds with it closed.
   */
  lemma RequeueExactly(iv: Intervals, trusted: bool, notAfter: int, now: int)
    ensures var asked := if trusted then iv.recheck else iv.blocked;
            var every := if asked > 0 then asked else if trusted then 120_000_000_000 else 30_000_000_000;
            var floor := if every <= 10_000_000_000 then every else 10_000_000_000;
            var window := notAfter - 2_592_000_000_000_000 - now;
            var r := Requeue(iv, trusted, notAfter, now);
            && floor <= r <= every
            && (r > floor ==> r <= window && r <= 43_200_000_000_000)
            && (r == floor || r == every || r == window || r == 43_200_000_000_000)
  {
  }

  // ---- runs ----

  /** A successful pass: it looks at the certificate at `begin` and computes the requeue at `end`. */
  datatype Pass = Pass(begin: int, end: int, ca: int, names: seq<string>, trusted: bool)

  ghost predicate WellTimed(p: Pass) { p.begin <= p.end && p.names != [] }

  /** The certificate the passes leave. */
  function After(leaf: Option<Leaf>, passes: seq<Pass>): Option<Leaf> {
    if passes == [] then leaf
    else
      var p := passes[|passes| - 1];
      Ensured(After(leaf, passes[..|passes| - 1]), p.ca, p.names, p.begin)
  }

  /** Every pass begins no later than its predecessor asked for. */
  ghost predicate OnTime(iv: Intervals, leaf: Option<Leaf>, passes: seq<Pass>) {
    && (forall i :: 0 <= i < |passes| ==> WellTimed(passes[i]))
    && forall i :: 0 < i < |passes| ==>
         var left := After(leaf, passes[..i]);
         left.Some?
           && passes[i].begin <= passes[i - 1].end
              + Requeue(iv, passes[i - 1].trusted, left.value.notAfter, passes[i - 1].end)
  }

  /** A certificate a pass leaves is outside its renewal window when the pass begins. */
  lemma LeftOutsideWindow(leaf: Option<Leaf>, ca: int, names: seq<string>, now: int)
    requires names != []
    ensures Ensured(leaf, ca, names, now).Some?
        && now <= Ensured(leaf, ca, names, now).value.notAfter - LEAF_RENEW_BEFORE
    ensures Ensured(leaf, ca, names, now).value.issuer == ca
    ensures SortedLower(Ensured(leaf, ca, names, now).value.sans) == SortedLower(names)
  {
    SansNormal(names);
    assert 0 <= (now + LEAF_VALIDITY) % SECOND < SECOND;
  }

  lemma SansNormal(names: seq<string>)
    ensures SortedLower(SortedLower(names)) == SortedLower(names)
  {
    var sans := SortedLower(names);
    SortedLowerMembers(names);
    forall h ensures Names(sans, h) <==> Names(names, h) {
      if Names(sans, h) {
        var i :| 0 <= i < |sans| && Lower(sans[i]) == h;
        assert sans[i] in sans;
        var k :| 0 <= k < |names| && Lower(names[k]) == sans[i];
        LowerIdempotent(names[k]);
      }
      if Names(names, h) {
        var k :| 0 <= k < |names| && Lower(names[k]) == h;
        LowerIdempotent(names[k]);
        var i :| 0 <= i < |sans| && sans[i] == h;
        assert Lower(sans[i]) == h;
      }
    }
    SortedLowerSame(sans, names);
  }

  lemma LeftByPass(leaf: Option<Leaf>, passes: seq<Pass>)
    requires passes != [] && WellTimed(passes[|passes| - 1])
    ensures After(leaf, passes).Some?
        && passes[|passes| - 1].begin <= After(leaf, passes).value.notAfter - LEAF_RENEW_BEFORE
  {
    var p := passes[|passes| - 1];
    LeftOutsideWindow(After(leaf, passes[..|passes| - 1]), p.ca, p.names, p.begin);
  }

  lemma InTime(notAfter: int, before: int, slack: int, begin: int, end: int, requeue: int, next: int)
    requires begin <= notAfter - before && begin <= end && slack >= 0
    requires end + requeue <= Max(notAfter - before, end + slack) && next <= end + requeue
    ensures notAfter - next >= before - slack - (end - begin)
  {
  }

  /**
   * Renewal timing. In any run of on-time passes, whatever the names and the CA do, each pass
   * finds the certificate its predecessor left with thirty days remaining, less ten seconds and
   * the time the predecessor itself took.
   */
  lemma RenewedInTime(iv: Intervals, leaf: Option<Leaf>, passes: seq<Pass>, i: int)
    requires OnTime(iv, leaf, passes) && 0 < i < |passes|
    ensures var left := After(leaf, passes[..i]);
            && left.Some?
            && left.value.notAfter - passes[i].begin >=
               LEAF_RENEW_BEFORE - 10 * SECOND - (passes[i - 1].end - passes[i - 1].begin)
  {
    var p := passes[i - 1];
    LeftByPass(leaf, passes[..i]);
    var left := After(leaf, passes[..i]).value;
    RequeueBounds(iv, p.trusted, left.notAfter, p.end);
    InTime(left.notAfter, LEAF_RENEW_BEFORE, 10 * SECOND, p.begin, p.end, Requeue(iv, p.trusted, left.notAfter, p.end),
      passes[i].begin);
  }

  /** The pass asks for the same names, in whatever order and case, from the same CA, before the window. */
  ghost predicate Unchanged(p: Pass, leaf: Leaf) {
    p.ca == leaf.issuer && (forall h :: Names(p.names, h) <==> Names(leaf.sans, h))
      && p.begin <= leaf.notAfter - LEAF_RENEW_BEFORE
  }

  /** No needless reissue: through any run of such passes the certificate stays the one that was issued. */
  lemma {:induction false} NotReissuedEarly(leaf: Leaf, passes: seq<Pass>)
    requires forall i :: 0 <= i < |passes| ==> Unchanged(passes[i], leaf)
    ensures After(Some(leaf), passes) == Some(leaf)
  {
    if passes != [] {
      var n := |passes| - 1;
      NotReissuedEarly(leaf, passes[..n]);
      SortedLowerSame(leaf.sans, passes[n].names);
    }
  }

  /** A fresh certificate covers its names and lasts a year less a second, so eleven months of passes keep it. */
  lemma FreshLeaf(ca: int, names: seq<string>, now: int)
    requires names != []
    ensures var leaf := Issue(ca, names, now).value;
            && StrictlySorted(leaf.sans, Less) && (forall h :: h in leaf.sans <==> Names(names, h))
            && (forall h :: Names(leaf.sans, h) <==> Names(names, h)) && leaf.issuer == ca
            && now + LEAF_VALIDITY - SECOND < leaf.notAfter <= now + LEAF_VALIDITY
            && LEAF_VALIDITY == 31_536_000 * SECOND && SECOND == 1_000_000_000
  {
    var sans := SortedLower(names);
    SansNormal(names);
    SortedLowerMembers(names);
    SortedLowerMembers(sans);
    assert 0 <= (now + LEAF_VALIDITY) % SECOND < SECOND;
  }

  /** Any pass that sees another name, another CA or the window does reissue. */
  lemma ReissuedWhenNeeded(leaf: Leaf, p: Pass)
    requires WellTimed(p)
    ensures Ensured(Some(leaf), p.ca, p.names, p.begin) == Some(leaf) || !Unchanged(p, leaf)
    ensures !Unchanged(p, leaf) ==> Ensured(Some(leaf), p.ca, p.names, p.begin) == Issue(p.ca, p.names, p.begin)
  {
    if Unchanged(p, leaf) {
      SortedLowerSame(leaf.sans, p.names);
    } else if SortedLower(leaf.sans) == SortedLower(p.names) {
      SortedLowerMembers(leaf.sans);
      SortedLowerMembers(p.names);
    }
  }
}
