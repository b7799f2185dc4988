/** aquaduct.dev as the operator sees it (e2e/aquaduct/fake.go): bastions per account and one table of domains. */
module Remote {
  import opened Order
  import opened Text
  import opened Api

  /** `owner` is the account (its access token); `byOperator` remembers that this operator wrote the entry. */
  datatype Domain = Domain(id: int, owner: string, bastionIDs: seq<string>, byOperator: bool)

  datatype Server = Server(bastions: map<string, seq<Bastion>>, domains: map<string, Domain>, nextID: int)

  datatype Reply<+T> = Ok(value: T) | NotFound | Foreign | Failed

  /** What PUT, PATCH and GET answer: the id, the bound bastions and their addresses. */
  datatype DomainView = DomainView(id: int, bastionIDs: seq<string>, ips: seq<string>)

  function BastionsOf(s: Server, account: string): seq<Bastion> {
    if account in s.bastions then s.bastions[account] else []
  }

  /** Every non-suspended bastion, with or without an address. */
  function ActiveIDs(bs: seq<Bastion>): seq<string> {
    if bs == [] then []
    else (if bs[0].suspended then [] else [bs[0].id]) + ActiveIDs(bs[1..])
  }

  function ResolveIDs(bs: seq<Bastion>, ids: seq<string>): seq<string> {
    if ids == [] then ActiveIDs(bs) else ids
  }

  function AddressesOf(bs: seq<Bastion>, id: string): seq<string> {
    if bs == [] then []
    else
      var done, b := AddressesOf(bs[..|bs| - 1], id), bs[|bs| - 1];
      if b.id == id && b.ip != "" then done + [b.ip] else done
  }

  function Addresses(bs: seq<Bastion>, ids: seq<string>): seq<string> {
    if ids == [] then [] else AddressesOf(bs, ids[0]) + Addresses(bs, ids[1..])
  }

  /** What DNS holds for a domain: the addresses of the bastions it is bound to, sorted. */
  function DerivedIPs(s: Server, name: string): seq<string> {
    if name !in s.domains then []
    else SortStrings(Addresses(BastionsOf(s, s.domains[name].owner), s.domains[name].bastionIDs))
  }

  function ViewOf(s: Server, name: string): DomainView
    requires name in s.domains
  {
    DomainView(s.domains[name].id, s.domains[name].bastionIDs, DerivedIPs(s, name))
  }

  function Get(s: Server, account: string, name: string): Reply<DomainView> {
    if name !in s.domains then NotFound
    else if s.domains[name].owner != account then Foreign
    else Ok(ViewOf(s, name))
  }

  /** The table after a PUT; a foreign entry is refused and stays. */
  function Put(s: Server, account: string, name: string, ids: seq<string>): Server {
    var bound := ResolveIDs(BastionsOf(s, account), ids);
    if name !in s.domains then
      s.(domains := s.domains[name := Domain(s.nextID + 1, account, bound, true)], nextID := s.nextID + 1)
    else if s.domains[name].owner != account then s
    else s.(domains := s.domains[name := s.domains[name].(bastionIDs := bound, byOperator := true)])
  }

  /** The table after a PATCH: a missing or foreign entry stays so, and an omitted set keeps the one bound. */
  function Patch(s: Server, account: string, name: string, ids: Option<seq<string>>): Server {
    if name !in s.domains || s.domains[name].owner != account || ids.None? then s
    else
      var bound := ResolveIDs(BastionsOf(s, account), ids.value);
      s.(domains := s.domains[name := s.domains[name].(bastionIDs := bound, byOperator := true)])
  }

  function Delete(s: Server, account: string, name: string): Server {
    if name in s.domains && s.domains[name].owner == account then s.(domains := s.domains - {name}) else s
  }

  function SetSuspended(bs: seq<Bastion>, id: string): seq<Bastion> {
    if bs == [] then []
    else if bs[0].id == id then [bs[0].(suspended := true)] + bs[1..]
    else [bs[0]] + SetSuspended(bs[1..], id)
  }

  predicate KnowsBastion(s: Server, account: string, id: string) {
    exists i :: 0 <= i < |BastionsOf(s, account)| && BastionsOf(s, account)[i].id == id
  }

  /** PATCH /api/bastion/{id} with suspended=true. */
  function Suspend(s: Server, account: string, id: string): Server {
    if account in s.bastions then s.(bastions := s.bastions[account := SetSuspended(s.bastions[account], id)]) else s
  }

  predicate IsSuspended(s: Server, account: string, id: string) {
    exists i :: 0 <= i < |BastionsOf(s, account)| && BastionsOf(s, account)[i].id == id
      && BastionsOf(s, account)[i].suspended
  }

  /** The in-memory server: handlers mutate its tables. */
  class DomainServer {
    var bastions: map<string, seq<Bastion>>
    var domains: map<string, Domain>
    var nextID: int

    function View(): Server
      reads this
    {
      Server(bastions, domains, nextID)
    }

    /** GET /api/domain/{name} */
    method GetDomain(account: string, name: string) returns (r: Reply<DomainView>)
      ensures r == Get(View(), account, name)
    {
      if name !in domains {
        return NotFound;
      }
      if domains[name].owner != account {
        return Foreign;
      }
      var ips := ComputeDerivedIPs(name);
      r := Ok(DomainView(domains[name].id, domains[name].bastionIDs, ips));
    }

    /** derivedIPs: for each bound id, the address of every bastion that has it. */
    method ComputeDerivedIPs(name: string) returns (ips: seq<string>)
      ensures ips == DerivedIPs(View(), name)
    {
      if name !in domains {
        return [];
      }
      var ids, bs := domains[name].bastionIDs, BastionsOf(View(), domains[name].owner);
      ips := [];
      var i := 0;
      while i < |ids|
        invariant 0 <= i <= |ids|
        invariant ips + Addresses(bs, ids[i..]) == Addresses(bs, ids)
      {
        var more := CollectAddresses(bs, ids[i]);
        assert ids[i..][1..] == ids[i + 1..];
        assert ips + (more + Addresses(bs, ids[i + 1..])) == (ips + more) + Addresses(bs, ids[i + 1..]);
        ips := ips + more;
        i := i + 1;
      }
      assert ips == Addresses(bs, ids);
      ips := SortStrings(ips);
    }

    static method CollectAddresses(bs: seq<Bastion>, id: string) returns (ips: seq<string>)
      ensures ips == AddressesOf(bs, id)
    {
      ips := [];
      var j := 0;
      while j < |bs|
        invariant 0 <= j <= |bs| && ips == AddressesOf(bs[..j], id)
      {
        assert bs[..j + 1][..j] == bs[..j];
        if bs[j].id == id && bs[j].ip != "" {
          ips := ips + [bs[j].ip];
        }
        j := j + 1;
      }
      assert bs[..j] == bs;
    }

    /** PUT /api/domain/{name}: an omitted set is the empty one. */
    method PutDomain(account: string, name: string, ids: Option<seq<string>>) returns (r: Reply<DomainView>)
      modifies this
      ensures View() == Put(old(View()), account, name, if ids.Some? then ids.value else [])
      ensures r == Get(View(), account, name)
    {
      if name in domains && domains[name].owner != account {
        return Foreign;
      }
      var bs := BastionsOf(View(), account);
      if name !in domains {
        nextID := nextID + 1;
        domains := domains[name := Domain(nextID, account, [], true)];
      }
      var wanted := [];
      if ids.Some? {
        wanted := ids.value;
      }
      domains := domains[name := domains[name].(bastionIDs := ResolveIDs(bs, wanted), byOperator := true)];
      r := GetDomain(account, name);
    }

    /** PATCH /api/domain/{name} */
    method PatchDomain(account: string, name: string, ids: Option<seq<string>>) returns (r: Reply<DomainView>)
      modifies this
      ensures View() == Patch(old(View()), account, name, ids)
      ensures r == Get(View(), account, name)
      ensures r.NotFound? <==> name !in old(domains)
    {
      if name !in domains {
        return NotFound;
      }
      if domains[name].owner != account {
        return Foreign;
      }
      if ids.Some? {
        var bs := BastionsOf(View(), account);
        domains := domains[name := domains[name].(bastionIDs := ResolveIDs(bs, ids.value), byOperator := true)];
      }
      r := GetDomain(account, name);
    }

    /** DELETE /api/domain/{name}; a missing domain counts as success for the client. */
    method DeleteDomain(account: string, name: string) returns (r: Reply<()>)
      modifies this
      ensures View() == Delete(old(View()), account, name)
      ensures r == if name in old(domains) && old(domains)[name].owner != account then Foreign else Ok(())
    {
      if name !in domains {
        return Ok(());
      }
      if domains[name].owner != account {
        return Foreign;
      }
      domains := domains - {name};
      r := Ok(());
    }

    /** PATCH /api/bastion/{id}: the first bastion with that id is suspended. */
    method SuspendBastion(account: string, id: string) returns (ok: bool)
      modifies this
      ensures ok == KnowsBastion(old(View()), account, id)
      ensures View() == if ok then Suspend(old(View()), account, id) else old(View())
    {
      if account !in bastions {
        return false;
      }
      var bs := bastions[account];
      var i := 0;
      while i < |bs|
        invariant 0 <= i <= |bs|
        invariant forall k :: 0 <= k < i ==> bs[k].id != id
        invariant View() == old(View())
      {
        if bs[i].id == id {
          assert BastionsOf(View(), account)[i].id == id;
          SetSuspendedAt(bs, id, i);
          bastions := bastions[account := bs[i := bs[i].(suspended := true)]];
          return true;
        }
        i := i + 1;
      }
      return false;
    }
  }

  lemma {:induction false} SetSuspendedAt(bs: seq<Bastion>, id: string, i: nat)
    requires i < |bs| && bs[i].id == id && forall k :: 0 <= k < i ==> bs[k].id != id
    ensures SetSuspended(bs, id) == bs[i := bs[i].(suspended := true)]
  {
    if i > 0 {
      SetSuspendedAt(bs[1..], id, i - 1);
    }
  }

  // ---- facts about the tables ----

  lemma {:induction false} SetSuspendedEffect(bs: seq<Bastion>, id: string)
    ensures |SetSuspended(bs, id)| == |bs|
    ensures forall i :: 0 <= i < |bs| ==> SetSuspended(bs, id)[i].id == bs[i].id
    ensures forall i :: 0 <= i < |bs| && bs[i].suspended ==> SetSuspended(bs, id)[i].suspended
  {
    if bs != [] && bs[0].id != id { SetSuspendedEffect(bs[1..], id); }
  }

  /** The first bastion with the id. */
  lemma {:induction false} FirstWithID(bs: seq<Bastion>, id: string, k: nat) returns (i: nat)
    requires k < |bs| && bs[k].id == id
    ensures i < |bs| && bs[i].id == id && forall j :: 0 <= j < i ==> bs[j].id != id
  {
    i := 0;
    while bs[i].id != id
      invariant i <= k && forall j :: 0 <= j < i ==> bs[j].id != id
      decreases k - i
    {
      i := i + 1;
    }
  }

  /** Suspending one bastion makes it suspended, forgets none and wakes none up. */
  lemma SuspendEffect(s: Server, account: string, id: string)
    requires KnowsBastion(s, account, id)
    ensures IsSuspended(Suspend(s, account, id), account, id)
    ensures forall x :: KnowsBastion(s, account, x) <==> KnowsBastion(Suspend(s, account, id), account, x)
    ensures forall x :: IsSuspended(s, account, x) ==> IsSuspended(Suspend(s, account, id), account, x)
  {
    var bs, s' := BastionsOf(s, account), Suspend(s, account, id);
    SetSuspendedEffect(bs, id);
    var bs' := BastionsOf(s', account);
    assert bs' == SetSuspended(bs, id);
    var k :| 0 <= k < |bs| && bs[k].id == id;
    var j := FirstWithID(bs, id, k);
    SetSuspendedAt(bs, id, j);
    assert bs'[j].id == id && bs'[j].suspended;
    forall x ensures KnowsBastion(s, account, x) <==> KnowsBastion(s', account, x) {
      if i :| 0 <= i < |bs| && bs[i].id == x { assert bs'[i].id == x; }
      if i :| 0 <= i < |bs'| && bs'[i].id == x { assert bs[i].id == x; }
    }
    forall x | IsSuspended(s, account, x) ensures IsSuspended(s', account, x) {
      var i :| 0 <= i < |bs| && bs[i].id == x && bs[i].suspended;
      assert bs'[i].id == x && bs'[i].suspended;
    }
  }
}
