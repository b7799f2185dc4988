/** internal/controller/dnsrecord: one pass over a DNSRecord. */
module DnsRecord {
  import opened Order
  import opened Text
  import opened Api
  import opened Remote

  // ---- selectBastions ----

  /** Bastions that can serve: not suspended, with an address. */
  function Eligible(bs: seq<Bastion>): seq<Bastion> {
    if bs == [] then []
    else
      var done, b := Eligible(bs[..|bs| - 1]), bs[|bs| - 1];
      if b.suspended || b.ip == "" then done else done + [b]
  }

  function IDs(bs: seq<Bastion>): seq<string> { seq(|bs|, i requires 0 <= i < |bs| => bs[i].id) }

  function IPs(bs: seq<Bastion>): seq<string> { seq(|bs|, i requires 0 <= i < |bs| => bs[i].ip) }

  function ByID(bs: seq<Bastion>): map<string, Bastion> {
    if bs == [] then map[] else ByID(bs[..|bs| - 1])[bs[|bs| - 1].id := bs[|bs| - 1]]
  }

  /** The bastions named by `targets` that have an address. */
  function Chosen(byID: map<string, Bastion>, targets: seq<string>): seq<Bastion> {
    if targets == [] then []
    else
      var done, t := Chosen(byID, targets[..|targets| - 1]), targets[|targets| - 1];
      if t in byID && byID[t].ip != "" then done + [byID[t]] else done
  }

  function Missing(byID: map<string, Bastion>, targets: seq<string>): seq<string> {
    if targets == [] then []
    else
      var done, t := Missing(byID, targets[..|targets| - 1]), targets[|targets| - 1];
      if t in byID && byID[t].ip != "" then done else done + [t]
  }

  /** The bastions a record fans out to: its explicit targets, or every eligible one. */
  function Targets(bs: seq<Bastion>, targets: seq<string>): seq<Bastion> {
    if targets == [] then Eligible(bs) else Chosen(ByID(bs), targets)
  }

  datatype Selection = Selection(ips: seq<string>, ids: seq<string>, missing: seq<string>)

  function Select(bs: seq<Bastion>, targets: seq<string>): Selection {
    var chosen := Targets(bs, targets);
    Selection(SortStrings(IPs(chosen)), SortStrings(IDs(chosen)),
              if targets == [] then [] else SortStrings(Missing(ByID(bs), targets)))
  }

  method IndexByID(bs: seq<Bastion>) returns (byID: map<string, Bastion>)
    ensures byID == ByID(bs)
  {
    byID := map[];
    var i := 0;
    while i < |bs|
      invariant 0 <= i <= |bs| && byID == ByID(bs[..i])
    {
      assert bs[..i + 1][..i] == bs[..i];
      byID := byID[bs[i].id := bs[i]];
      i := i + 1;
    }
    assert bs[..i] == bs;
  }

  method SelectEligible(bs: seq<Bastion>) returns (ips: seq<string>, ids: seq<string>)
    ensures ips == IPs(Eligible(bs)) && ids == IDs(Eligible(bs))
  {
    ips, ids := [], [];
    var i := 0;
    while i < |bs|
      invariant 0 <= i <= |bs|
      invariant ips == IPs(Eligible(bs[..i])) && ids == IDs(Eligible(bs[..i]))
    {
      var b := bs[i];
      assert bs[..i + 1][..i] == bs[..i];
      if !(b.suspended || b.ip == "") {
        ips := ips + [b.ip];
        ids := ids + [b.id];
      }
      i := i + 1;
    }
    assert bs[..i] == bs;
  }

  method SelectTargets(byID: map<string, Bastion>, targets: seq<string>)
    returns (ips: seq<string>, ids: seq<string>, missing: seq<string>)
    ensures ips == IPs(Chosen(byID, targets)) && ids == IDs(Chosen(byID, targets))
    ensures missing == Missing(byID, targets)
  {
    ips, ids, missing := [], [], [];
    var i := 0;
    while i < |targets|
      invariant 0 <= i <= |targets|
      invariant ips == IPs(Chosen(byID, targets[..i])) && ids == IDs(Chosen(byID, targets[..i]))
      invariant missing == Missing(byID, targets[..i])
    {
      var t := targets[i];
      assert targets[..i + 1][..i] == targets[..i];
      if t !in byID || byID[t].ip == "" {
        missing := missing + [t];
      } else {
        ips := ips + [byID[t].ip];
        ids := ids + [byID[t].id];
      }
      i := i + 1;
    }
    assert targets[..i] == targets;
  }

  method SelectBastions(bs: seq<Bastion>, targets: seq<string>) returns (sel: Selection)
    ensures sel == Select(bs, targets)
  {
    var byID := IndexByID(bs);
    var ips, ids, missing: seq<string> := [], [], [];
    if |targets| == 0 {
      ips, ids := SelectEligible(bs);
    } else {
      ips, ids, missing := SelectTargets(byID, targets);
    }
    sel := Selection(SortStrings(ips), SortStrings(ids), SortStrings(missing));
  }

  lemma {:induction false} ByIDKeepsID(bs: seq<Bastion>)
    ensures forall id :: id in ByID(bs) ==> ByID(bs)[id] in bs && ByID(bs)[id].id == id
    ensures forall i :: 0 <= i < |bs| ==> bs[i].id in ByID(bs)
  {
    if bs != [] { ByIDKeepsID(bs[..|bs| - 1]); }
  }

  // ---- conditions and the status write ----

  /** meta.SetStatusCondition: the transition time moves only when the status flips. */
  function Transition(was: Option<Condition>, ok: bool, reason: Reason, msg: Message, now: int): Condition {
    Condition(ok, reason, msg, if was.Some? && was.value.ok == ok then was.value.since else now)
  }

  function SetCondition(
    cs: map<ConditionType, Condition>, t: ConditionType, ok: bool, reason: Reason, msg: Message, now: int)
    : map<ConditionType, Condition>
  {
    cs[t := Transition(if t in cs then Some(cs[t]) else None, ok, reason, msg, now)]
  }

  /** failure(): the given condition and Ready become False; always written. */
  function Fail(st: RecordStatus, t: ConditionType, reason: Reason, msg: Message, now: int): RecordStatus {
    var cs := SetCondition(st.conditions, t, false, reason, msg, now);
    st.(conditions := SetCondition(cs, Ready, false, reason, msg, now))
  }

  /** commitStatus: nothing is written while only the heartbeat would change and it is still fresh. */
  function Commit(before: RecordStatus, next: RecordStatus, now: int): RecordStatus {
    var recent := before.lastSync.Some? && now - before.lastSync.value < RESYNC_INTERVAL;
    if next.(lastSync := None) == before.(lastSync := None) && recent then before
    else next.(lastSync := Some(now))
  }

  // ---- remote calls that may fail ----

  /**
   * How one call can go wrong: lost on the way there, applied but the answer lost, refused as
   * somebody else's (401, 403 or 409), or answered 404 though the domain is there.
   */
  datatype Fault = NoFault | Lost | AnswerLost | Refused | Vanished

  datatype Faults = Faults(get: Fault, put: Fault, patch: Fault, lookup: Fault, delete: Fault)

  const NO_FAULTS := Faults(NoFault, NoFault, NoFault, NoFault, NoFault)

  /** The GET/PUT/PATCH stage: the server after it, and how the pass goes on. */
  datatype Registration =
    | Wrote(server: Server, view: DomainView, created: bool)
    | IsForeign(server: Server)
    | Stop(server: Server, reason: Reason)
    | Retry(server: Server)

  /** What the client makes of GET: a 403 is foreign, a 404 is missing, whatever the table says. */
  function Answered(s: Server, account: string, domain: string, f: Fault): Reply<DomainView> {
    match f
    case NoFault => Get(s, account, domain)
    case Refused => Foreign
    case Vanished => NotFound
    case _ => Failed
  }

  function Register(s: Server, account: string, domain: string, ids: seq<string>, f: Faults): Registration {
    var got := Answered(s, account, domain, f.get);
    if got.Failed? then Stop(s, APIError)
    else if got.Foreign? then IsForeign(s)
    else if got.NotFound? then
      var s' := if f.put == NoFault || f.put == AnswerLost then Put(s, account, domain, ids) else s;
      if f.put != NoFault || !Get(s', account, domain).Ok? then Stop(s', RegisterFailed)
      else Wrote(s', ViewOf(s', domain), true)
    else
      var s' := if f.patch == NoFault || f.patch == AnswerLost then Patch(s, account, domain, Some(ids)) else s;
      if f.patch == Refused then IsForeign(s')
      else if f.patch == Vanished then Retry(s')
      else if f.patch != NoFault then Stop(s', APIError)
      else Wrote(s', ViewOf(s', domain), false)
  }

  /** How the lookup compares with the expected addresses: the Resolved condition. */
  function ResolvedCondition(expected: seq<string>, found: seq<string>, lookupOk: bool): (bool, Reason, Message) {
    if !lookupOk then (false, LookupFailed, Text(LookupFailed, [], []))
    else if expected == [] then
      if found == [] then (true, NoTargets, Text(NoTargets, [], []))
      else (false, UnexpectedRecords, Text(UnexpectedRecords, found, []))
    else if found == expected then (true, ResolvedOk, Text(ResolvedOk, found, []))
    else (false, Mismatched, Text(Mismatched, expected, found))
  }

  /** The three conditions after the lookup, as the pass sets them. */
  function Conclude(st: RecordStatus, reg: Registration, found: seq<string>, lookupOk: bool, now: int): RecordStatus
    requires reg.Wrote? || reg.IsForeign?
  {
    var st := if lookupOk then st.(resolvedIPs := found) else st;
    var (ok, reason, msg) := ResolvedCondition(st.expectedIPs, found, lookupOk);
    var regReason := if reg.Wrote? then RegisteredOk else if ok then ExternallyManaged else ForeignOwned;
    var regMsg := if reg.Wrote? then
                    if reg.created then NewDomain(reg.view.id, |reg.view.bastionIDs|)
                      else KnownDomain(reg.view.id, |reg.view.bastionIDs|)
                  else Text(regReason, [], []);
    var cs := SetCondition(st.conditions, Registered, reg.Wrote?, regReason, regMsg, now);
    var cs := SetCondition(cs, Resolved, ok, reason, msg, now);
    var cs :=
      SetCondition(cs, Ready, ok, if ok then ReadyOk else reason, if ok then Text(ReadyOk, [], []) else msg, now);
    st.(conditions := cs)
  }

  function Applied(st: RecordStatus, reg: Registration): RecordStatus
    requires reg.Wrote?
  {
    var clobbered := if reg.created then false else if st.domainID.None? then true else st.clobbered;
    st.(domainID := Some(reg.view.id), appliedBastionIDs := reg.view.bastionIDs, appliedIPs := reg.view.ips,
      clobbered := clobbered)
  }

  /** The stages from selectBastions on, for a record whose AquaductTaaS has published its bastions. */
  function WorkingPass(
    s: Server, account: string, bs: seq<Bastion>, r: Record, now: int, f: Faults): (Server, RecordStatus)
  {
    var sel := Select(bs, r.targets);
    if sel.missing != [] then
      (s, Fail(r.status, Registered, UnknownBastion, Text(UnknownBastion, sel.missing, []), now))
    else
      var st := r.status.(expectedIPs := sel.ips);
      var reg := Register(s, account, r.domain, sel.ids, f);
      match reg
      case Stop(s', reason) => (s', Fail(st, Registered, reason, Text(reason, [], []), now))
      case Retry(s') => (s', r.status)
      case _ =>
        var st := if reg.Wrote? then Applied(st, reg) else st;
        var found := SortStrings(DerivedIPs(reg.server, r.domain));
        (reg.server, Commit(r.status, Conclude(st, reg, found, f.lookup == NoFault, now), now))
  }
}
