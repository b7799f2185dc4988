/** internal/controller/weftgateway: the DNSRecords a Gateway stamps. */
module Gateway {
  import opened Order
  import opened Text
  import opened Api
  import opened DnsRecord
  import Convergence

  datatype Protocol = HTTP | HTTPS | TLS | TCP | UDP

  datatype Listener = Listener(hostname: Option<string>, protocol: Protocol)

  /** A hostname and whether it must be pinned to one bastion. */
  datatype HostSpec = HostSpec(host: string, l4: bool)

  /** The digests of (Gateway, hostname): a record name and a number to pick a bastion with. */
  datatype Digest = Digest(name: (GatewayKey, string) -> string, pick: (GatewayKey, string) -> nat)

  predicate IsL4(p: Protocol) { p == TCP || p == UDP }

  predicate Names(l: Listener, h: string) { l.hostname == Some(h) && h != "" }

  predicate AnyNames(ls: seq<Listener>, h: string) { exists i :: 0 <= i < |ls| && Names(ls[i], h) }

  predicate AnyL4(ls: seq<Listener>, h: string) {
    exists i :: 0 <= i < |ls| && Names(ls[i], h) && IsL4(ls[i].protocol)
  }

  /** The distinct non-empty listener hostnames in encounter order. */
  function Hosts(ls: seq<Listener>): seq<string> {
    if ls == [] then []
    else
      var done, l := Hosts(ls[..|ls| - 1]), ls[|ls| - 1];
      if l.hostname.None? || l.hostname.value == "" || l.hostname.value in done then done else done + [l.hostname.value]
  }

  function Classify(ls: seq<Listener>): seq<HostSpec> {
    var hs := Hosts(ls);
    seq(|hs|, i requires 0 <= i < |hs| => HostSpec(hs[i], AnyL4(ls, hs[i])))
  }

  lemma {:induction false} HostsAre(ls: seq<Listener>)
    ensures Distinct(Hosts(ls))
    ensures forall h :: h in Hosts(ls) <==> AnyNames(ls, h)
  {
    if ls != [] {
      var init, l := ls[..|ls| - 1], ls[|ls| - 1];
      HostsAre(init);
      forall h ensures AnyNames(ls, h) <==> AnyNames(init, h) || Names(l, h) { NamesSnoc(ls, h); }
    }
  }

  lemma NamesSnoc(ls: seq<Listener>, h: string)
    requires ls != []
    ensures var init, l := ls[..|ls| - 1], ls[|ls| - 1];
            && (AnyNames(ls, h) <==> AnyNames(init, h) || Names(l, h))
            && (AnyL4(ls, h) <==> AnyL4(init, h) || (Names(l, h) && IsL4(l.protocol)))
  {
    var k := |ls| - 1;
    var init := ls[..k];
    assert forall i :: 0 <= i < k ==> init[i] == ls[i];
    if AnyNames(init, h) { var i :| 0 <= i < k && Names(init[i], h); assert Names(ls[i], h); }
    if AnyL4(init, h) { var i :| 0 <= i < k && Names(init[i], h) && IsL4(init[i].protocol); assert Names(ls[i], h); }
    if Names(ls[k], h) { assert AnyNames(ls, h); }
  }

  /** classifyListenerHostnames: one scan with an index from hostname to position. */
  method ClassifyListenerHostnames(ls: seq<Listener>) returns (out: seq<HostSpec>)
    ensures out == Classify(ls)
  {
    var index: map<string, nat> := map[];
    out := [];
    var i := 0;
    while i < |ls|
      invariant 0 <= i <= |ls|
      invariant out == Classify(ls[..i])
      invariant forall h :: h in index <==> h in Hosts(ls[..i])
      invariant forall h :: h in index ==> index[h] < |out| && out[index[h]].host == h
    {
      var l := ls[i];
      var pre := ls[..i + 1];
      assert pre[..i] == ls[..i];
      ghost var before := out;
      HostsAre(ls[..i]);
      forall h ensures AnyL4(pre, h) <==> AnyL4(ls[..i], h) || (Names(l, h) && IsL4(l.protocol)) { NamesSnoc(pre, h); }
      if l.hostname.Some? && l.hostname.value != "" {
        var h := l.hostname.value;
        if h !in index {
          index := index[h := |out|];
          NotYetL4(ls[..i], h);
          out := out + [HostSpec(h, false)];
        }
        if IsL4(l.protocol) {
          out := out[index[h] := HostSpec(h, true)];
        }
      }
      ExtendClassify(ls, i, before, out);
      i := i + 1;
    }
    assert ls[..i] == ls;
  }

  lemma NotYetL4(ls: seq<Listener>, h: string)
    requires h !in Hosts(ls)
    ensures !AnyL4(ls, h)
  {
    HostsAre(ls);
    assert !AnyNames(ls, h);
  }

  lemma ExtendClassify(ls: seq<Listener>, i: nat, before: seq<HostSpec>, out: seq<HostSpec>)
    requires i < |ls| && before == Classify(ls[..i])
    requires |out| == |Hosts(ls[..i + 1])|
    requires forall k :: 0 <= k < |out| ==>
        out[k].host == Hosts(ls[..i + 1])[k] && out[k].l4 == AnyL4(ls[..i + 1], out[k].host)
    ensures out == Classify(ls[..i + 1])
  {
  }

  // ---- pinning ----

  function EligibleIDs(bs: seq<Bastion>): seq<string> { SortStrings(IDs(Eligible(bs))) }

  /** pickL4Bastion; None where the source returns "". */
  function Pick(d: Digest, bs: seq<Bastion>, gw: GatewayKey, host: string): Option<string> {
    var ids := EligibleIDs(bs);
    SortStringsProperties(IDs(Eligible(bs)));
    if ids == [] then None else Some(ids[d.pick(gw, host) % |ids|])
  }

  // ---- reconcileDNSRecords ----

  type Records = map<string, Record>

  /** What CreateOrUpdate writes; None when the API server refuses because domainName is immutable. */
  function Upsert(
    rs: Records, name: string, host: string, taas: string, targets: seq<string>, gw: GatewayKey): Option<Records>
  {
    if name !in rs then Some(rs[name := Record(host, taas, targets, Some(gw), false, false, EMPTY_STATUS)])
    else if rs[name].domain != host then None
    else Some(rs[name := rs[name].(taasRef := taas, targets := targets, gateway := Some(gw))])
  }

  /** The bastions a hostname is pinned to; None when it must be pinned and nothing is eligible. */
  function PinFor(d: Digest, bs: seq<Bastion>, gw: GatewayKey, hs: HostSpec): Option<seq<string>> {
    if !hs.l4 then Some([])
    else match Pick(d, bs, gw, hs.host)
         case None => None
         case Some(id) => Some([id])
  }

  /** After stamping a prefix of the hostnames: the records, the expected names, and whether no write failed. */
  datatype Stamped = Stamped(records: Records, expected: set<string>, ok: bool)

  function Stamp(
    d: Digest, rs: Records, taas: string, bs: seq<Bastion>, gw: GatewayKey, specs: seq<HostSpec>): Stamped
  {
    if specs == [] then Stamped(rs, {}, true)
    else
      var s, hs := Stamp(d, rs, taas, bs, gw, specs[..|specs| - 1]), specs[|specs| - 1];
      if !s.ok then s
      else
        match PinFor(d, bs, gw, hs)
        case None => s
        case Some(targets) =>
          var name := d.name(gw, hs.host);
          match Upsert(s.records, name, hs.host, taas, targets, gw)
          case None => Stamped(s.records, s.expected, false)
          case Some(rs') => Stamped(rs', s.expected + {name}, true)
  }

  /** A Kubernetes delete of every record in `names`: gone at once without a finalizer, else marked. */
  function DeleteAll(rs: Records, names: set<string>): Records {
    map n | n in rs && (n in names ==> rs[n].finalizer) :: if n in names then rs[n].(deleting := true) else rs[n]
  }

  function Labelled(rs: Records, gw: GatewayKey): set<string> {
    set n | n in rs && rs[n].gateway == Some(gw)
  }

  /** One reconcileDNSRecords pass with the cluster's single AquaductTaaS. */
  function Reconciled(
    d: Digest, rs: Records, taas: string, bs: seq<Bastion>, gw: GatewayKey, ls: seq<Listener>): Stamped
  {
    var s := Stamp(d, rs, taas, bs, gw, Classify(ls));
    if !s.ok then s else s.(records := DeleteAll(s.records, Labelled(s.records, gw) - s.expected))
  }

  // ---- the records are exactly the listeners' ----

  /** A hostname that gets a record: named by a listener, and not both L4 and without an eligible bastion. */
  predicate Wanted(bs: seq<Bastion>, ls: seq<Listener>, h: string) {
    AnyNames(ls, h) && (AnyL4(ls, h) ==> Eligible(bs) != [])
  }

  ghost predicate InjectiveNames(d: Digest) {
    forall g, h, g', h' :: d.name(g, h) == d.name(g', h') ==> g == g' && h == h'
  }

  lemma EligibleIDsEmpty(bs: seq<Bastion>)
    ensures EligibleIDs(bs) == [] <==> Eligible(bs) == []
  {
    SortStringsProperties(IDs(Eligible(bs)));
  }

  lemma PinForWanted(d: Digest, bs: seq<Bastion>, gw: GatewayKey, ls: seq<Listener>, h: string)
    requires AnyNames(ls, h)
    ensures PinFor(d, bs, gw, HostSpec(h, AnyL4(ls, h))).Some? <==> Wanted(bs, ls, h)
  {
    EligibleIDsEmpty(bs);
  }

  /** What stamping some hostnames did: each stamped name holds its record, nothing else moved. */
  ghost predicate StampedExactly(
    d: Digest, rs: Records, taas: string, bs: seq<Bastion>, gw: GatewayKey, specs: seq<HostSpec>, s: Stamped)
  {
    && (forall n :: n in s.expected <==>
         exists i :: 0 <= i < |specs| && PinFor(d, bs, gw, specs[i]).Some? && n == d.name(gw, specs[i].host))
    && (forall i :: 0 <= i < |specs| && PinFor(d, bs, gw, specs[i]).Some? ==>
          var n := d.name(gw, specs[i].host);
          && n in s.records && s.records[n].domain == specs[i].host && s.records[n].taasRef == taas
          && s.records[n].targets == PinFor(d, bs, gw, specs[i]).value && s.records[n].gateway == Some(gw))
    && (forall n :: n !in s.expected ==> (n in s.records <==> n in rs) && (n in rs ==> s.records[n] == rs[n]))
  }

  ghost predicate DistinctHosts(specs: seq<HostSpec>) {
    forall i, j :: 0 <= i < j < |specs| ==> specs[i].host != specs[j].host
  }

  lemma {:induction false} StampEffect(
    d: Digest, rs: Records, taas: string, bs: seq<Bastion>, gw: GatewayKey, specs: seq<HostSpec>)
    requires InjectiveNames(d) && DistinctHosts(specs)
    ensures var s := Stamp(d, rs, taas, bs, gw, specs); s.ok ==> StampedExactly(d, rs, taas, bs, gw, specs, s)
  {
    if specs != [] {
      var k := |specs| - 1;
      var init := specs[..k];
      StampEffect(d, rs, taas, bs, gw, init);
      var s0, s := Stamp(d, rs, taas, bs, gw, init), Stamp(d, rs, taas, bs, gw, specs);
      if s.ok {
        assert s0.ok && StampedExactly(d, rs, taas, bs, gw, init, s0);
        assert specs == init + [specs[k]];
        StampOneMore(d, rs, taas, bs, gw, init, specs[k], s0, s);
      }
    }
  }

  lemma StampOneMore(
    d: Digest, rs: Records, taas: string, bs: seq<Bastion>, gw: GatewayKey, init: seq<HostSpec>, hs: HostSpec,
    s0: Stamped, s: Stamped)
    requires InjectiveNames(d) && forall i :: 0 <= i < |init| ==> init[i].host != hs.host
    requires StampedExactly(d, rs, taas, bs, gw, init, s0)
    requires match PinFor(d, bs, gw, hs)
             case None => s == s0
             case Some(targets) =>
               var u := Upsert(s0.records, d.name(gw, hs.host), hs.host, taas, targets, gw);
               u.Some? && s == Stamped(u.value, s0.expected + {d.name(gw, hs.host)}, true)
    ensures StampedExactly(d, rs, taas, bs, gw, init + [hs], s)
  {
    var specs := init + [hs];
    var pin, name := PinFor(d, bs, gw, hs), d.name(gw, hs.host);
    assert specs[|init|] == hs && forall i :: 0 <= i < |init| ==> specs[i] == init[i];
    forall n ensures n in s.expected <==>
      exists i :: 0 <= i < |specs| && PinFor(d, bs, gw, specs[i]).Some? && n == d.name(gw, specs[i].host)
    {
      if n in s0.expected {
        var i :| 0 <= i < |init| && PinFor(d, bs, gw, init[i]).Some? && n == d.name(gw, init[i].host);
        assert PinFor(d, bs, gw, specs[i]).Some?;
      }
      if pin.Some? && n == name { assert PinFor(d, bs, gw, specs[|init|]).Some?; }
    }
  }

  /** The labelled records of one Gateway after an error-free pass, stated without the algorithm. */
  ghost predicate RecordsExact(
    d: Digest, rs: Records, taas: string, bs: seq<Bastion>, gw: GatewayKey, ls: seq<Listener>, rs': Records)
  {
    // one record per wanted hostname, pinned exactly when a listener is TCP or UDP
    && (forall h :: Wanted(bs, ls, h) ==>
          var n := d.name(gw, h);
          && n in rs' && rs'[n].domain == h && rs'[n].taasRef == taas && rs'[n].gateway == Some(gw)
          && (AnyL4(ls, h) ==> Pick(d, bs, gw, h).Some? && rs'[n].targets == [Pick(d, bs, gw, h).value])
          && (!AnyL4(ls, h) ==> rs'[n].targets == []))
    // every other record with this Gateway's labels is on its way out
    && (forall n :: n in rs' && rs'[n].gateway == Some(gw) && !rs'[n].deleting ==>
          exists h :: Wanted(bs, ls, h) && n == d.name(gw, h))
    // nobody else's record moved
    && (forall n :: n in rs && rs[n].gateway != Some(gw) && (forall h :: Wanted(bs, ls, h) ==> n != d.name(gw, h)) ==>
         n in rs' && rs'[n] == rs[n])
    && (forall n :: n in rs' && n !in rs ==> exists h :: Wanted(bs, ls, h) && n == d.name(gw, h))
  }

  lemma ClassifiedSpecs(d: Digest, bs: seq<Bastion>, gw: GatewayKey, ls: seq<Listener>)
    ensures DistinctHosts(Classify(ls))
    ensures forall h :: Wanted(bs, ls, h) ==>
              exists i :: 0 <= i < |Classify(ls)| && Classify(ls)[i] == HostSpec(h, AnyL4(ls, h))
                && PinFor(d, bs, gw, Classify(ls)[i]).Some?
    ensures forall i :: 0 <= i < |Classify(ls)| && PinFor(d, bs, gw, Classify(ls)[i]).Some? ==>
        Wanted(bs, ls, Classify(ls)[i].host)
  {
    var specs, hs := Classify(ls), Hosts(ls);
    HostsAre(ls);
    forall h | Wanted(bs, ls, h)
      ensures exists i :: 0 <= i < |specs| && specs[i] == HostSpec(h, AnyL4(ls, h)) && PinFor(d, bs, gw, specs[i]).Some?
    {
      var i :| 0 <= i < |hs| && hs[i] == h;
      PinForWanted(d, bs, gw, ls, h);
      assert specs[i] == HostSpec(h, AnyL4(ls, h));
    }
    forall i | 0 <= i < |specs| && PinFor(d, bs, gw, specs[i]).Some? ensures Wanted(bs, ls, specs[i].host) {
      assert hs[i] in hs;
      PinForWanted(d, bs, gw, ls, hs[i]);
    }
  }

  /** What stamping left for a wanted hostname. */
  lemma StampedForHost(
    d: Digest, rs: Records, taas: string, bs: seq<Bastion>, gw: GatewayKey, ls: seq<Listener>, s: Stamped, h: string)
    requires StampedExactly(d, rs, taas, bs, gw, Classify(ls), s) && Wanted(bs, ls, h)
    ensures var n, pin := d.name(gw, h), PinFor(d, bs, gw, HostSpec(h, AnyL4(ls, h)));
            && n in s.expected && n in s.records && s.records[n].domain == h && s.records[n].taasRef == taas
            && s.records[n].gateway == Some(gw) && pin.Some? && s.records[n].targets == pin.value
  {
    var specs := Classify(ls);
    ClassifiedSpecs(d, bs, gw, ls);
    var i :| 0 <= i < |specs| && specs[i] == HostSpec(h, AnyL4(ls, h)) && PinFor(d, bs, gw, specs[i]).Some?;
  }

  lemma ExpectedAreWanted(
    d: Digest, rs: Records, taas: string, bs: seq<Bastion>, gw: GatewayKey, ls: seq<Listener>, s: Stamped, n: string)
    requires StampedExactly(d, rs, taas, bs, gw, Classify(ls), s) && n in s.expected
    ensures exists h :: Wanted(bs, ls, h) && n == d.name(gw, h)
  {
    var specs := Classify(ls);
    ClassifiedSpecs(d, bs, gw, ls);
    var i :| 0 <= i < |specs| && PinFor(d, bs, gw, specs[i]).Some? && n == d.name(gw, specs[i].host);
    assert Wanted(bs, ls, specs[i].host);
  }

  /**
   * Gateway records are exact. After an error-free pass: one record per distinct non-empty
   * listener hostname, except L4 hostnames with no eligible bastion; a record is pinned, to one
   * bastion, if and only if some listener of its hostname is TCP or UDP; every other record with
   * this Gateway's labels is being deleted; and no other record changed.
   */
  lemma GatewayRecordsExact(d: Digest, rs: Records, taas: string, bs: seq<Bastion>, gw: GatewayKey, ls: seq<Listener>)
    requires InjectiveNames(d)
    requires Reconciled(d, rs, taas, bs, gw, ls).ok
    ensures RecordsExact(d, rs, taas, bs, gw, ls, Reconciled(d, rs, taas, bs, gw, ls).records)
  {
    ClassifiedSpecs(d, bs, gw, ls);
    StampEffect(d, rs, taas, bs, gw, Classify(ls));
    PrunedExactly(d, rs, taas, bs, gw, ls, Stamp(d, rs, taas, bs, gw, Classify(ls)));
  }

  /** Pruning spares what was just stamped. */
  lemma WantedSurvives(
    d: Digest, rs: Records, taas: string, bs: seq<Bastion>, gw: GatewayKey, ls: seq<Listener>, s: Stamped, h: string)
    requires StampedExactly(d, rs, taas, bs, gw, Classify(ls), s) && Wanted(bs, ls, h)
    ensures var n, rs' := d.name(gw, h), DeleteAll(s.records, Labelled(s.records, gw) - s.expected);
            && n in rs' && rs'[n].domain == h && rs'[n].taasRef == taas && rs'[n].gateway == Some(gw)
            && (AnyL4(ls, h) ==> Pick(d, bs, gw, h).Some? && rs'[n].targets == [Pick(d, bs, gw, h).value])
            && (!AnyL4(ls, h) ==> rs'[n].targets == [])
  {
    StampedForHost(d, rs, taas, bs, gw, ls, s, h);
  }

  lemma PrunedExactly(
    d: Digest, rs: Records, taas: string, bs: seq<Bastion>, gw: GatewayKey, ls: seq<Listener>, s: Stamped)
    requires StampedExactly(d, rs, taas, bs, gw, Classify(ls), s)
    ensures RecordsExact(d, rs, taas, bs, gw, ls, DeleteAll(s.records, Labelled(s.records, gw) - s.expected))
  {
    var rs' := DeleteAll(s.records, Labelled(s.records, gw) - s.expected);
    forall h | Wanted(bs, ls, h) ensures
      var n := d.name(gw, h);
      && n in rs' && rs'[n].domain == h && rs'[n].taasRef == taas && rs'[n].gateway == Some(gw)
      && (AnyL4(ls, h) ==> Pick(d, bs, gw, h).Some? && rs'[n].targets == [Pick(d, bs, gw, h).value])
      && (!AnyL4(ls, h) ==> rs'[n].targets == [])
    {
      WantedSurvives(d, rs, taas, bs, gw, ls, s, h);
    }
    forall n | n in s.expected ensures exists h :: Wanted(bs, ls, h) && n == d.name(gw, h) {
      ExpectedAreWanted(d, rs, taas, bs, gw, ls, s, n);
    }
  }

  /** The pinned bastion does not depend on the order in which the bastions are listed. */
  lemma PickIgnoresOrder(d: Digest, bs: seq<Bastion>, bs': seq<Bastion>, gw: GatewayKey, host: string)
    requires multiset(bs) == multiset(bs')
    ensures Pick(d, bs, gw, host) == Pick(d, bs', gw, host)
  {
    EligibleIDsMultiset(bs, bs');
    SortStringsPermutation(Serving(bs), Serving(bs'));
  }

  /** The ids of the eligible bastions, as listed. */
  function Serving(bs: seq<Bastion>): seq<string> { IDs(Eligible(bs)) }

  lemma ServingSnoc(bs: seq<Bastion>, b: Bastion)
    ensures Serving(bs + [b]) == Serving(bs) + Serving([b])
  {
    assert (bs + [b])[..|bs|] == bs && [b][..0] == [];
    assert Eligible([b]) == if b.suspended || b.ip == "" then [] else [b];
    assert Eligible(bs + [b]) == Eligible(bs) + Eligible([b]);
    assert IDs(Eligible(bs) + Eligible([b])) == IDs(Eligible(bs)) + IDs(Eligible([b]));
  }

  lemma {:induction false} ServingAppend(a: seq<Bastion>, b: seq<Bastion>)
    ensures Serving(a + b) == Serving(a) + Serving(b)
  {
    if b == [] {
      assert a + b == a;
    } else {
      var init, last := b[..|b| - 1], b[|b| - 1];
      assert b == init + [last] && a + b == (a + init) + [last];
      ServingAppend(a, init);
      ServingSnoc(a + init, last);
      ServingSnoc(init, last);
    }
  }

  function Without(bs: seq<Bastion>, i: nat): (r: seq<Bastion>)
    requires i < |bs|
    ensures |r| == |bs| - 1
  {
    bs[..i] + bs[i + 1..]
  }

  /** Taking one bastion out of the list takes its id out of the served ones. */
  lemma ServingWithout(bs: seq<Bastion>, i: nat)
    requires i < |bs|
    ensures multiset(Without(bs, i)) == multiset(bs) - multiset{bs[i]}
    ensures multiset(Serving(bs)) == multiset(Serving([bs[i]])) + multiset(Serving(Without(bs, i)))
  {
    var pre, b, post := bs[..i], [bs[i]], bs[i + 1..];
    assert bs == pre + (b + post);
    ServingAppend(pre, b + post);
    ServingAppend(b, post);
    ServingAppend(pre, post);
  }

  lemma {:induction false} EligibleIDsMultiset(bs: seq<Bastion>, bs': seq<Bastion>)
    requires multiset(bs) == multiset(bs')
    ensures multiset(Serving(bs)) == multiset(Serving(bs'))
    decreases |bs|
  {
    MultisetMembers(bs, bs');
    if bs != [] {
      assert bs[0] in bs';
      var i :| 0 <= i < |bs'| && bs'[i] == bs[0];
      var rest, rest' := Without(bs, 0), Without(bs', i);
      ServingWithout(bs, 0);
      ServingWithout(bs', i);
      EligibleIDsMultiset(rest, rest');
    }
  }

  lemma SelectOne(bs: seq<Bastion>, id: string)
    requires id in ByID(bs) && ByID(bs)[id].ip != "" && ByID(bs)[id].id == id
    ensures Select(bs, [id]) == Selection([ByID(bs)[id].ip], [id], [])
  {
    var t, b := [id], ByID(bs)[id];
    assert t[..0] == [];
    assert Chosen(ByID(bs), t) == [] + [b] == [b] && Missing(ByID(bs), t) == [];
    assert IDs([b]) == [id] && IPs([b]) == [b.ip];
    SortOne(id);
    SortOne(b.ip);
  }

  /** The DNSRecord controller accepts the pinned bastion: it is known and gives exactly one address. */
  lemma PickIsAccepted(d: Digest, bs: seq<Bastion>, gw: GatewayKey, host: string)
    requires Convergence.UniqueIDs(bs) && Pick(d, bs, gw, host).Some?
    ensures var sel := Select(bs, [Pick(d, bs, gw, host).value]);
            sel.missing == [] && |sel.ips| == 1 && sel.ids == [Pick(d, bs, gw, host).value]
  {
    var e, id := Eligible(bs), Pick(d, bs, gw, host).value;
    SortStringsProperties(Serving(bs));
    assert id in Serving(bs);
    var i :| 0 <= i < |e| && e[i].id == id;
    Convergence.EligibleAre(bs);
    assert e[i] in bs && e[i].ip != "";
    ByIDKeepsID(bs);
    assert ByID(bs)[id] == e[i];
    SelectOne(bs, id);
  }
}
