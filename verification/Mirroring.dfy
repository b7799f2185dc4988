/** What one successful sync of an AquaductTaaS leaves: an exact mirror of the account, and a quiet status. */
module Mirroring {
  import opened Order
  import opened Text
  import opened Api
  import opened Remote
  import opened DnsRecord
  import opened Cluster
  import Convergence

  /** `id` is the id of some bastion called `n`. */
  ghost predicate IsIDOf(bs: seq<Bastion>, n: string, id: string)
  {
    exists i :: 0 <= i < |bs| && bs[i].name == n && bs[i].id == id
  }

  ghost predicate IsNamed(bs: seq<Bastion>, n: string) { exists i :: 0 <= i < |bs| && bs[i].name == n }

  lemma NamedSnoc(bs: seq<Bastion>, n: string)
    requires bs != []
    ensures IsNamed(bs, n) <==> IsNamed(bs[..|bs| - 1], n) || n == bs[|bs| - 1].name
    ensures IsIDOf(bs, bs[|bs| - 1].name, bs[|bs| - 1].id)
  {
    var k := |bs| - 1;
    if IsNamed(bs[..k], n) {
      var i :| 0 <= i < k && bs[..k][i].name == n;
      assert bs[i].name == n;
    }
    if IsNamed(bs, n) {
      var i :| 0 <= i < |bs| && bs[i].name == n;
      assert i < k ==> bs[..k][i].name == n;
    }
    assert bs[k].name == bs[k].name;
  }

  lemma IDSnoc(bs: seq<Bastion>, n: string, id: string)
    requires bs != [] && IsIDOf(bs[..|bs| - 1], n, id)
    ensures IsIDOf(bs, n, id)
  {
    var k := |bs| - 1;
    var i :| 0 <= i < k && bs[..k][i].name == n && bs[..k][i].id == id;
    assert bs[i].name == n && bs[i].id == id;
  }

  /** The server called `n` was upserted from some bastion of that name, or is as it was. */
  ghost predicate UpsertedRightly(
    servers: map<string, WeftServer>, t: string, bs: seq<Bastion>, desired: set<string>,
    after: map<string, WeftServer>, n: string)
  {
    if n in desired && IsNamed(bs, n) then n in after && after[n].owner == t && IsIDOf(bs, n, after[n].bastionID)
    else (n in after <==> n in servers) && (n in servers ==> after[n] == servers[n])
  }

  lemma {:induction false} UpsertEffect(
    servers: map<string, WeftServer>, t: string, bs: seq<Bastion>, desired: set<string>, n: string)
    requires UpsertServers(servers, t, bs, desired).ok
    ensures UpsertedRightly(servers, t, bs, desired, UpsertServers(servers, t, bs, desired).servers, n)
  {
    if bs != [] {
      var k := |bs| - 1;
      UpsertEffect(servers, t, bs[..k], desired, n);
      var done := UpsertServers(servers, t, bs[..k], desired).servers;
      NamedSnoc(bs, n);
      if n in desired && IsNamed(bs[..k], n) { IDSnoc(bs, n, done[n].bastionID); }
    }
  }

  /** A bastion of this name is usable: not suspended, with an address. */
  ghost predicate UsableName(bs: seq<Bastion>, n: string) {
    exists i :: 0 <= i < |bs| && bs[i].name == n && !bs[i].suspended && bs[i].ip != ""
  }

  lemma DesiredExactly(bs: seq<Bastion>)
    ensures forall n :: n in Desired(bs) <==> UsableName(bs, n)
    ensures forall n :: n in Desired(bs) ==> IsNamed(bs, n)
  {
    forall n | n in Desired(bs) ensures UsableName(bs, n) && IsNamed(bs, n) {
      var b :| b in bs && !b.suspended && b.ip != "" && b.name == n;
      var i :| 0 <= i < |bs| && bs[i] == b;
    }
  }

  /**
   * The servers an AquaductTaaS owns are exactly the usable bastions, each with an id of its name; nobody
   * else's moved.
   */
  lemma MirrorExact(servers: map<string, WeftServer>, t: string, bs: seq<Bastion>)
    ensures var s := Mirror(servers, t, bs);
            s.ok ==>
              && (forall n :: n in s.servers && s.servers[n].owner == t <==> UsableName(bs, n))
              && (forall n :: UsableName(bs, n) ==> IsIDOf(bs, n, s.servers[n].bastionID))
              && (forall n :: !UsableName(bs, n) && n in servers && servers[n].owner != t ==>
                    n in s.servers && s.servers[n] == servers[n])
              && (forall n :: n in s.servers && !UsableName(bs, n) ==> n in servers && s.servers[n] == servers[n])
  {
    DesiredExactly(bs);
    var m := Mirror(servers, t, bs);
    if m.ok {
      forall n ensures
        && (n in m.servers && m.servers[n].owner == t <==> n in Desired(bs))
        && (n in Desired(bs) ==> IsIDOf(bs, n, m.servers[n].bastionID))
        && (n !in Desired(bs) && n in servers && servers[n].owner != t ==> n in m.servers && m.servers[n] == servers[n])
        && (n in m.servers && n !in Desired(bs) ==> n in servers && m.servers[n] == servers[n])
      {
        UpsertEffect(servers, t, bs, Desired(bs), n);
      }
    }
  }

  // ---- when a sync goes through ----

  /** The server of this name is free, ours or not there. */
  predicate Takeable(servers: map<string, WeftServer>, t: string, n: string) {
    n in servers ==> servers[n].owner == "" || servers[n].owner == t
  }

  lemma {:induction false} UpsertsSucceed(
    servers: map<string, WeftServer>, t: string, bs: seq<Bastion>, desired: set<string>)
    ensures UpsertServers(servers, t, bs, desired).ok <==>
            forall i :: 0 <= i < |bs| && bs[i].name in desired ==> Takeable(servers, t, bs[i].name)
    ensures UpsertServers(servers, t, bs, desired).ok ==>
            forall n :: Takeable(servers, t, n) <==> Takeable(UpsertServers(servers, t, bs, desired).servers, t, n)
  {
    if bs != [] {
      var k := |bs| - 1;
      UpsertsSucceed(servers, t, bs[..k], desired);
      assert forall i :: 0 <= i < k ==> bs[..k][i] == bs[i];
    }
  }

  /** No two usable bastions share a name. */
  ghost predicate UsableNamesDiffer(bs: seq<Bastion>) {
    forall i, j :: 0 <= i < j < |bs| && bs[i].name == bs[j].name ==>
      bs[i].suspended || bs[i].ip == "" || bs[j].suspended || bs[j].ip == ""
  }

  /**
   * A sync takes an answer exactly when every bastion has a name and an id, no two usable ones share
   * a name, and no server of a usable name is controlled by another object.
   */
  lemma MirrorSucceeds(servers: map<string, WeftServer>, t: string, bs: seq<Bastion>)
    ensures Mirror(servers, t, bs).ok <==>
            && (forall i :: 0 <= i < |bs| ==> bs[i].name != "" && bs[i].id != "")
            && UsableNamesDiffer(bs)
            && (forall n :: UsableName(bs, n) && n in servers ==> servers[n].owner == "" || servers[n].owner == t)
  {
    Convergence.EligibleAre(bs);
    DesiredExactly(bs);
    UpsertsSucceed(servers, t, bs, Desired(bs));
    forall n | n in Desired(bs) ensures exists i :: 0 <= i < |bs| && bs[i].name == n { assert UsableName(bs, n); }
  }

  function NamesOf(bs: seq<Bastion>): seq<string> { seq(|bs|, i requires 0 <= i < |bs| => bs[i].name) }

  lemma {:induction false} NamesAre(bs: seq<Bastion>)
    ensures forall n :: n in NamesOf(bs) <==> exists b :: b in bs && b.name == n
  {
    forall b | b in bs ensures b.name in NamesOf(bs) {
      var i :| 0 <= i < |bs| && bs[i] == b;
      assert NamesOf(bs)[i] == b.name;
    }
  }

  /** The names of the usable bastions are listed once each. */
  lemma {:induction false} UsableNamesOnce(bs: seq<Bastion>)
    requires UsableNamesDiffer(bs)
    ensures Distinct(NamesOf(Eligible(bs)))
  {
    if bs != [] {
      var k := |bs| - 1;
      UsableNamesOnce(bs[..k]);
      var e := Eligible(bs[..k]);
      NamesAre(e);
      Convergence.EligibleAre(bs[..k]);
      if !bs[k].suspended && bs[k].ip != "" {
        forall b | b in e ensures b.name != bs[k].name {
          var m :| 0 <= m < k && bs[..k][m] == b;
        }
        assert bs[k].name !in NamesOf(e);
        assert NamesOf(e + [bs[k]]) == NamesOf(e) + [bs[k].name];
      }
    }
  }

  /** The mirrored names: those of the usable bastions, strictly sorted. */
  lemma MirroredNamesExactly(bs: seq<Bastion>)
    requires UsableNamesDiffer(bs)
    ensures StrictlySorted(MirroredNames(bs), Less)
    ensures forall n :: n in MirroredNames(bs) <==> UsableName(bs, n)
  {
    var e := Eligible(bs);
    UsableNamesOnce(bs);
    assert MirroredNames(bs) == SortStrings(NamesOf(e));
    SortStringsProperties(NamesOf(e));
    NamesAre(e);
    Convergence.EligibleAre(bs);
    DesiredExactly(bs);
  }

  /** What Publish writes: the whole answer sorted by id, the given names, and Available. */
  lemma PublishExactly(was: TaaSStatus, bs: seq<Bastion>, names: seq<string>, now: int)
    ensures var after := Publish(was, bs, names, now);
            && multiset(after.bastions) == multiset(bs)
            && (forall i, j :: 0 <= i < j < |after.bastions| ==> !Less(after.bastions[j].id, after.bastions[i].id))
            && after.syncedServers == names && after.lastSync.Some?
            && after.available.Some? && after.available.value.ok && after.available.value.reason == SyncedOk
            && after.available.value.message == SyncedCount(|names|)
  {
    IDLessIsStrictWeak();
    SortSorted(bs, IDLess);
    SortMultiset(bs, IDLess);
  }

  /** The object is live, holds its finalizer, and its token can be read. */
  ghost predicate CanSync(st: State, t: string, token: string) {
    t in st.taases && !st.taases[t].deleting && st.taases[t].finalizer && TokenOf(st, st.taases[t]) == Some(token)
  }

  /**
   * What a successful sync publishes: every bastion of the account, suspended and addressless ones
   * included, sorted by id; the names of exactly the usable ones, each once, sorted; Available.
   */
  lemma SyncPublishes(st: State, t: string, token: string, now: int, order: seq<string>, f: TaaSFaults)
    requires CanSync(st, t, token) && !f.list && Mirror(st.servers, t, BastionsOf(st.remote, token)).ok
    ensures var st', bs := TaaSPass(st, t, now, order, f), BastionsOf(st.remote, token);
            var status := st'.taases[t].status;
            && multiset(status.bastions) == multiset(bs)
            && (forall i, j :: 0 <= i < j < |status.bastions| ==> !Less(status.bastions[j].id, status.bastions[i].id))
            && StrictlySorted(status.syncedServers, Less)
            && (forall n :: n in status.syncedServers <==> UsableName(bs, n))
            && status.available.Some? && status.available.value.ok && status.lastSync.Some?
            && status.available.value.message == SyncedCount(|status.syncedServers|)
            && st'.remote == st.remote && st'.records == st.records
            && st'.taases[t] == st.taases[t].(status := status, synced := true)
  {
    var bs := BastionsOf(st.remote, token);
    MirrorSucceeds(st.servers, t, bs);
    MirroredNamesExactly(bs);
    PublishExactly(st.taases[t].status, bs, MirroredNames(bs), now);
  }

  /** A sync that cannot read the token, list the bastions or mirror them says why and publishes nothing. */
  lemma FailedSyncPublishesNothing(st: State, t: string, now: int, order: seq<string>, f: TaaSFaults)
    requires t in st.taases && !st.taases[t].deleting && st.taases[t].finalizer
    requires var token := TokenOf(st, st.taases[t]);
             token.None? || f.list || !Mirror(st.servers, t, BastionsOf(st.remote, token.value)).ok
    ensures var st', was := TaaSPass(st, t, now, order, f), st.taases[t];
            && t in st'.taases && st'.remote == st.remote && st'.records == st.records
            && var status := st'.taases[t].status;
            && status.bastions == was.status.bastions && status.syncedServers == was.status.syncedServers
            && status.lastSync == was.status.lastSync && st'.taases[t].synced == was.synced
            && status.available.Some? && !status.available.value.ok
            && (was.secretRef.None? ==> status.available.value.reason == SpecInvalid)
            && (was.secretRef.Some? && TokenOf(st, was).None? ==> status.available.value.reason == SecretError)
            && (TokenOf(st, was).Some? && f.list ==> status.available.value.reason == APIError)
            && (TokenOf(st, was).Some? && !f.list ==> status.available.value.reason == SyncError)
  {
  }

  /** A deletion that has to stop says why: no reference, no token, or a bastion that cannot be suspended. */
  lemma StoppedDeletionSaysWhy(st: State, t: string, now: int, order: seq<string>, f: TaaSFaults)
    requires t in st.taases && st.taases[t].deleting && st.taases[t].finalizer && OwnedRecords(st, t) == {}
    requires t in TaaSPass(st, t, now, order, f).taases
    ensures var st', was := TaaSPass(st, t, now, order, f), st.taases[t];
            var available := st'.taases[t].status.available;
            && available.Some? && !available.value.ok && st'.secrets == st.secrets
            && (was.secretRef.None? ==> available.value.reason == SpecInvalid)
            && (was.secretRef.Some? && TokenOf(st, was).None? ==> available.value.reason == SecretError)
            && (TokenOf(st, was).Some? ==> available.value.reason == SuspendError)
  {
  }

  /** The Available condition kept its time unless it is new or flipped, which is then of now. */
  ghost predicate AvailableDated(was: Option<Condition>, after: Option<Condition>, now: int) {
    after.Some? ==>
      after.value.since == if was.Some? && was.value.ok == after.value.ok then was.value.since else now
  }

  lemma FailureDates(was: TaaSStatus, reason: Reason, now: int)
    ensures AvailableDated(was.available, FailedStatus(was, reason, now).available, now)
  {
  }

  lemma DeletionDates(st: State, t: string, now: int, order: seq<string>, f: TaaSFaults)
    requires t in st.taases && t in TaaSDeletion(st, t, now, order, f).taases
    ensures var after := TaaSDeletion(st, t, now, order, f);
            AvailableDated(st.taases[t].status.available, after.taases[t].status.available, now)
  {
    var taas, after := st.taases[t], TaaSDeletion(st, t, now, order, f);
    FailureDates(taas.status, NoToken(taas), now);
    FailureDates(taas.status, SuspendError, now);
    assert after.taases[t].status in
        {taas.status, FailedStatus(taas.status, NoToken(taas), now), FailedStatus(taas.status, SuspendError, now)};
  }

  lemma SyncDates(st: State, t: string, token: string, now: int, f: TaaSFaults)
    requires t in st.taases
    ensures AvailableDated(st.taases[t].status.available, TaaSSync(st, t, token, now, f).status.available, now)
  {
  }

  /** Available dates from its last flip, whichever way a pass goes. */
  lemma AvailableDatesFromFlips(st: State, t: string, now: int, order: seq<string>, f: TaaSFaults)
    requires t in st.taases && t in TaaSPass(st, t, now, order, f).taases
    ensures var after := TaaSPass(st, t, now, order, f);
            AvailableDated(st.taases[t].status.available, after.taases[t].status.available, now)
  {
    if st.taases[t].deleting {
      DeletionDates(st, t, now, order, f);
    } else if TokenOf(st, st.taases[t]).Some? {
      SyncDates(st, t, TokenOf(st, st.taases[t]).value, now, f);
    }
  }

  /** The token is the value under the referenced key of the referenced Secret, if that is there and not empty. */
  lemma TokenExactly(st: State, t: TaaS, token: string)
    ensures TokenOf(st, t) == Some(token) <==>
            && t.secretRef.Some? && t.secretRef.value.name in st.secrets
            && t.secretRef.value.key in st.secrets[t.secretRef.value.name].data
            && st.secrets[t.secretRef.value.name].data[t.secretRef.value.key] == token && token != ""
  {
  }

  /** After a sync every mirrored bastion can be named to the server, as teardown will need. */
  lemma SyncedCanBeSuspended(st: State, t: string, token: string, now: int, order: seq<string>, f: TaaSFaults)
    requires t in st.taases && !st.taases[t].deleting && st.taases[t].finalizer
        && TokenOf(st, st.taases[t]) == Some(token)
    requires !f.list && Mirror(st.servers, t, BastionsOf(st.remote, token)).ok
    ensures var st' := TaaSPass(st, t, now, order, f);
            && st'.taases[t].synced && st'.taases[t].status.lastSync.Some?
            && forall n :: n in OwnedServers(st', t) ==>
                 st'.servers[n].bastionID != "" && KnowsBastion(st'.remote, token, st'.servers[n].bastionID)
  {
    var bs, st' := BastionsOf(st.remote, token), TaaSPass(st, t, now, order, f);
    MirrorExact(st.servers, t, bs);
    forall n | n in OwnedServers(st', t)
      ensures st'.servers[n].bastionID != "" && KnowsBastion(st'.remote, token, st'.servers[n].bastionID)
    {
      assert UsableName(bs, n);
      var i :| 0 <= i < |bs| && bs[i].name == n && bs[i].id == st'.servers[n].bastionID;
    }
  }

  /** A second sync with the same answer while the heartbeat is fresh writes nothing. */
  lemma ResyncIsQuiet(was: TaaSStatus, bs: seq<Bastion>, names: seq<string>, t0: int, t1: int)
    ensures var once := Publish(was, bs, names, t0);
            && once.lastSync.Some?
            && (t1 - once.lastSync.value < RESYNC_INTERVAL ==> Publish(once, bs, names, t1) == once)
            && (t1 - once.lastSync.value >= RESYNC_INTERVAL ==>
                 Publish(once, bs, names, t1) == once.(lastSync := Some(t1)))
  {
  }

  lemma IDLessIsStrictWeak()
    ensures StrictWeak(IDLess)
  {
    LessIsStrictWeak();
    forall a: Bastion, b: Bastion, c: Bastion | IDLess(a, c) ensures IDLess(a, b) || IDLess(b, c) {}
  }

  /**
   * With unique ids the published list does not depend on the order of the answer, so reordering alone is not
   * a change.
   */
  lemma PublishIgnoresOrder(was: TaaSStatus, bs: seq<Bastion>, bs': seq<Bastion>, names: seq<string>, now: int)
    requires multiset(bs) == multiset(bs') && forall i, j :: 0 <= i < j < |bs| ==> bs[i].id != bs[j].id
    ensures Publish(was, bs, names, now) == Publish(was, bs', names, now)
  {
    IDLessIsStrictWeak();
    forall x, y | x in bs && y in bs && x != y ensures IDLess(x, y) || IDLess(y, x) { LessTotal(x.id, y.id); }
    SortPermutation(bs, bs', IDLess);
  }
}
