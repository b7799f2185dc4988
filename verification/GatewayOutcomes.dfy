/** What a Gateway pass and a Gateway's cleanup leave in the cluster, said on the objects themselves. */
module GatewayOutcomes {
  import opened Order
  import opened Text
  import opened Api
  import opened DnsRecord
  import opened Gateway
  import opened Cluster
  import opened RecordOutcomes
  import Convergence

  /** A listener of this hostname is TCP or UDP. */
  ghost predicate PinnedHost(ls: seq<Listener>, h: string) {
    exists i :: 0 <= i < |ls| && ls[i].hostname == Some(h) && (ls[i].protocol == TCP || ls[i].protocol == UDP)
  }

  /** Some listener has this hostname. */
  ghost predicate ListenerHost(ls: seq<Listener>, h: string) { exists i :: 0 <= i < |ls| && ls[i].hostname == Some(h) }

  ghost predicate SomeUsable(bs: seq<Bastion>) { exists i :: 0 <= i < |bs| && !bs[i].suspended && bs[i].ip != "" }

  lemma UsableExactly(bs: seq<Bastion>)
    ensures Eligible(bs) != [] <==> SomeUsable(bs)
  {
    Convergence.EligibleAre(bs);
    if Eligible(bs) != [] {
      assert Eligible(bs)[0] in Eligible(bs);
      var i :| 0 <= i < |bs| && bs[i] == Eligible(bs)[0];
    }
    if i: nat :| i < |bs| && !bs[i].suspended && bs[i].ip != "" { assert bs[i] in Eligible(bs); }
  }

  /**
   * A hostname gets a record exactly when a listener has it, it is not empty, and, where one of its listeners
   * is TCP or UDP, some bastion is usable.
   */
  lemma WantedExactly(bs: seq<Bastion>, ls: seq<Listener>, h: string)
    ensures Wanted(bs, ls, h) <==> h != "" && ListenerHost(ls, h) && (PinnedHost(ls, h) ==> SomeUsable(bs))
    ensures AnyL4(ls, h) <==> h != "" && PinnedHost(ls, h)
  {
    UsableExactly(bs);
    if i: nat :| i < |ls| && ls[i].hostname == Some(h) && h != "" { assert Names(ls[i], h); }
    if AnyL4(ls, h) { var i :| 0 <= i < |ls| && Names(ls[i], h) && IsL4(ls[i].protocol); }
    if i: nat :| i < |ls| && ls[i].hostname == Some(h) && (ls[i].protocol == TCP || ls[i].protocol == UDP) && h != "" {
      assert Names(ls[i], h) && IsL4(ls[i].protocol);
    }
  }

  /** A pick is the usable bastion at the digest's place in the sorted list of ids; none without a usable bastion. */
  lemma PickExactly(d: Digest, bs: seq<Bastion>, gw: GatewayKey, host: string)
    ensures Pick(d, bs, gw, host).Some? <==> SomeUsable(bs)
    ensures Pick(d, bs, gw, host).Some? ==>
              exists c, ips, ids: seq<string> :: AreUsable(bs, c) && Gives(c, ips, ids) && ids != []
                && Pick(d, bs, gw, host).value == ids[d.pick(gw, host) % |ids|]
  {
    UsableExactly(bs);
    EligibleIDsEmpty(bs);
    SelectExactly(bs, []);
    var sel := Select(bs, []);
    assert sel.ids == EligibleIDs(bs);
    var c :| AreUsable(bs, c) && Gives(c, sel.ips, sel.ids);
  }

  // ---- when stamping goes through ----

  /** The name of this hostname's record is free, or that of a record for it. */
  ghost predicate NameFits(d: Digest, rs: Records, gw: GatewayKey, h: string) {
    d.name(gw, h) in rs ==> rs[d.name(gw, h)].domain == h
  }

  lemma {:induction false} StampSucceeds(
    d: Digest, rs: Records, taas: string, bs: seq<Bastion>, gw: GatewayKey, specs: seq<HostSpec>)
    requires InjectiveNames(d) && DistinctHosts(specs)
    ensures Stamp(d, rs, taas, bs, gw, specs).ok <==>
            forall i :: 0 <= i < |specs| && PinFor(d, bs, gw, specs[i]).Some? ==> NameFits(d, rs, gw, specs[i].host)
  {
    if specs != [] {
      var k := |specs| - 1;
      var init := specs[..k];
      StampSucceeds(d, rs, taas, bs, gw, init);
      assert forall i :: 0 <= i < k ==> init[i] == specs[i];
      if Stamp(d, rs, taas, bs, gw, init).ok {
        StampEffect(d, rs, taas, bs, gw, init);
        assert d.name(gw, specs[k].host) !in Stamp(d, rs, taas, bs, gw, init).expected;
      }
    }
  }

  /** Of a stamped record, only the spec and the labels are written; a new one starts empty. */
  ghost predicate KeepsStatus(rs: Records, rs': Records) {
    && (forall n :: n in rs ==>
          && n in rs' && rs'[n].domain == rs[n].domain && rs'[n].status == rs[n].status
          && rs'[n].finalizer == rs[n].finalizer && rs'[n].deleting == rs[n].deleting)
    && (forall n :: n in rs' && n !in rs ==>
          !rs'[n].finalizer && !rs'[n].deleting && rs'[n].status == EMPTY_STATUS)
  }

  lemma {:induction false} StampKeepsStatus(
    d: Digest, rs: Records, taas: string, bs: seq<Bastion>, gw: GatewayKey, specs: seq<HostSpec>)
    ensures KeepsStatus(rs, Stamp(d, rs, taas, bs, gw, specs).records)
  {
    if specs != [] { StampKeepsStatus(d, rs, taas, bs, gw, specs[..|specs| - 1]); }
  }

  // ---- one pass ----

  /** A pass goes through exactly when no wanted hostname's record name is taken by a record of another domain. */
  lemma PassSucceeds(d: Digest, rs: Records, taas: string, bs: seq<Bastion>, gw: GatewayKey, ls: seq<Listener>)
    requires InjectiveNames(d)
    ensures Reconciled(d, rs, taas, bs, gw, ls).ok <==> forall h :: Wanted(bs, ls, h) ==> NameFits(d, rs, gw, h)
  {
    var specs := Classify(ls);
    ClassifiedSpecs(d, bs, gw, ls);
    StampSucceeds(d, rs, taas, bs, gw, specs);
    forall i | 0 <= i < |specs| && PinFor(d, bs, gw, specs[i]).Some? ensures Wanted(bs, ls, specs[i].host) {}
  }

  lemma PassKeepsStatus(d: Digest, rs: Records, taas: string, bs: seq<Bastion>, gw: GatewayKey, ls: seq<Listener>)
    ensures var rs' := Reconciled(d, rs, taas, bs, gw, ls).records;
            && (forall n :: n in rs' && n in rs ==>
                  rs'[n].status == rs[n].status && rs'[n].finalizer == rs[n].finalizer)
            && (forall n :: n in rs' && n !in rs ==> rs'[n].status == EMPTY_STATUS && !rs'[n].finalizer)
  {
    StampKeepsStatus(d, rs, taas, bs, gw, Classify(ls));
  }

  /** A pass with exactly one AquaductTaaS. */
  ghost predicate OnlyTaaS(st: State, t: string) { st.taases.Keys == {t} }

  /**
   * A Gateway pass with exactly one AquaductTaaS in the cluster leaves exactly the records the listeners ask
   * for, unless a record name is taken; statuses and finalizers stay, and no other object changes.
   */
  lemma GatewayPassExactly(d: Digest, st: State, gw: GatewayKey, ls: seq<Listener>, t: string)
    requires InjectiveNames(d) && OnlyTaaS(st, t)
    ensures var st', bs := GatewayPass(d, st, gw, ls), st.taases[t].status.bastions;
            && st' == st.(records := st'.records)
            && ((forall h :: Wanted(bs, ls, h) ==> NameFits(d, st.records, gw, h)) ==>
                 RecordsExact(d, st.records, t, bs, gw, ls, st'.records))
            && (forall n :: n in st'.records && n in st.records ==>
                  st'.records[n].status == st.records[n].status && st'.records[n].finalizer == st.records[n].finalizer)
            && (forall n :: n in st'.records && n !in st.records ==>
                  st'.records[n].status == EMPTY_STATUS && !st'.records[n].finalizer)
  {
    var bs := st.taases[t].status.bastions;
    assert Singleton(st) == Some(t);
    PassSucceeds(d, st.records, t, bs, gw, ls);
    PassKeepsStatus(d, st.records, t, bs, gw, ls);
    if forall h :: Wanted(bs, ls, h) ==> NameFits(d, st.records, gw, h) {
      GatewayRecordsExact(d, st.records, t, bs, gw, ls);
    }
  }

  lemma NoSingleTaaS(d: Digest, st: State, gw: GatewayKey, ls: seq<Listener>)
    requires forall t :: !OnlyTaaS(st, t)
    ensures GatewayPass(d, st, gw, ls) == st && GatewayCleanup(st, gw) == st
  {
    forall t ensures st.taases.Keys != {t} { assert !OnlyTaaS(st, t); }
  }

  /**
   * The cleanup of a deleted Gateway: with exactly one AquaductTaaS every record with its labels is being
   * deleted, or gone where nothing holds it, and no other object changes.
   */
  lemma CleanupExactly(st: State, gw: GatewayKey, t: string)
    requires OnlyTaaS(st, t)
    ensures var st' := GatewayCleanup(st, gw);
            && st' == st.(records := st'.records)
            && (forall n :: n in st'.records <==>
                  n in st.records && (st.records[n].gateway == Some(gw) ==> st.records[n].finalizer))
            && (forall n :: n in st'.records ==>
                  st'.records[n] == if st.records[n].gateway == Some(gw) then st.records[n].(deleting := true)
                                    else st.records[n])
  {
    assert Singleton(st) == Some(t);
  }
}
