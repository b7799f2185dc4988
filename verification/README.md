# Verified model of the weft operator's core

The weft operator runs in a Kubernetes cluster and does four things whose correctness spans several
pieces of code. This project models them in Dafny and proves what they are for.

* **Teardown of an account.** An `AquaductTaaS` mirrors the bastions of an aquaduct.dev account, `DNSRecord`s
  register domains there, Gateways stamp records, and a Secret holds the token. Finalizers must drain in order.
  `Api`, `Remote`, `DnsRecord`, `Gateway` and `Cluster` give the objects, the account server and one pass of each
  controller as a function of the state; `Controllers` gives the same passes as imperative code over mutable
  objects, proved equal to those functions; `Mirroring`, `RecordOutcomes` and `GatewayOutcomes` say what one pass
  leaves in each of its cases; `Convergence`, `Teardown` and `Drain` prove what runs of passes do, and `Limits` where
  those claims stop.
* **Local DNS reflectors.** Each reflector decides alone which hostnames it owns and which tunnels it serves, and
  writes one key of a shared CoreDNS ConfigMap. `LocalDns`, `Claims`, `Routes`, `CoreDns`, `Reflectors` and
  `SettledDns`.
* **The node agent.** It edits shared files line by line and owns certs.d directories, and must leave the node as it
  found it. `HostsFile`, `SharedFile`, `FileBytes` and `NodeAgent`.
* **Trust, certificates and Gateway helpers.** `Trust`, `Renewal`, `Hostnames` and `Fragment`.

`Order` and `Text` hold sorting and strings. A `char` stands for one byte. Times are integers.

## Reading guide

Code that computes by loops and field updates is a method or a class; its `ensures` equates the result or the new
state with a function of the inputs or the old state, and the lemmas are about that function. A controller pass is
one atomic step. Faults of remote calls are parameters: a call can be lost, applied with its answer lost, refused as
somebody else's, or answered as missing.

Where a natural claim is false of the code, the lemma gives the exact condition:

* A second byte-level edit of a file changes nothing if and only if the lines kept behind the block do not end in a
  blank line (`FileBytes.ByteIdempotence`; `TwoBlocksAreNotIdempotent` is a file where it fails).
* A DELETE of the operator's own domain that is answered as foreign or missing drops the record all the same; the
  registration is orphaned if and only if no other record guards the domain (`Limits.RefusedDeleteExactly`).
* Two `AquaductTaaS` objects deleting at once on one Secret are not protected from each other. The last pass of an
  object keeps every registration guarded if and only if it does not release the Secret or every domain has a guard on
  another one (`Limits.ReleaseExactly`); `SharedSecretIsReleasedEarly` is a run in which it does not.
* Changing an `AquaductTaaS`'s Secret reference orphans a registration unless each domain is guarded through another
  object or the new reference gives the same token from a Secret in use (`Limits.RetargetExactly`).
* A Secret stays pinned for nobody if and only if the last object that refers to it is pointed elsewhere or is deleted
  before its first pass (`Limits.LeaksExactly`).
* Gateways do not look whether the `AquaductTaaS` is being deleted. An error-free Gateway pass adds a record of a
  deleting object if and only if it is the only one and some wanted hostname has no record of it
  (`Drain.GatewayAddsExactly`), and a Gateway can hold a teardown up for ever (`Limits.GatewayHoldsTeardownUp`).
* A bastion the account no longer knows stops the teardown: the last pass removes the object if and only if every
  mirrored bastion is named and known and no suspend call fails (`Drain.LastPassExactly`).
* A Windows pod is never injected and is not exempt from the trust gate: after injection a pod holds the gate if and
  only if it is such a pod and held it before (`Trust.InjectionOpensGate`).
* The node is given back exactly as it was if and only if the edited files are empty or end in exactly one newline and
  no pass with a readable CA configured a hostname whose certs.d directory had no hosts.toml
  (`NodeAgent.NodeRestored`); such a directory is adopted and deleted (`BareDirectoryIsLost`).
* A header fragment gives the operations back if and only if each of them can be carried (`Fragment.FragmentRoundTrip`).

The comment above `pickL4Bastion` says the caller writes an empty target list when no bastion is eligible; the code
writes no record at all, and the model follows the code.

## Model

| member | source | states |
|---|---|---|
| Controllers.Controller.ReconcileRecord | internal/controller/dnsrecord/reconciler.go:90-344 | one DNSRecord reconcile on the mutable cluster and account server leaves exactly the state `RecordPass` gives, for every fault of every call |
| Controllers.Controller.RegisterDomain | internal/controller/dnsrecord/reconciler.go:178-249 | the GET, PUT or PATCH stage, each call possibly failing, against the mutable server |
| Controllers.Controller.Work | internal/controller/dnsrecord/reconciler.go:147-344 | the stages from bastion selection to the status write leave the server and status of `WorkingPass` |
| Controllers.Controller.UnregisterRecord | internal/controller/dnsrecord/reconciler.go:505-551 | the record goes only after DELETE succeeded or was answered as foreign or missing; otherwise it stays with a failed condition |
| Controllers.Controller.DeleteRecords | internal/controller/aquaducttaas/reconciler.go:366-381 | deleting listed records one by one marks those with a finalizer and removes the others, all at once being the same |
| Controllers.Controller.SuspendServers | internal/controller/aquaducttaas/reconciler.go:383-408 | the suspend loop stops at the first bastion that cannot be named or suspended, with the earlier ones suspended |
| Controllers.Controller.ReleaseSecret | internal/controller/aquaducttaas/reconciler.go:459-509 | the in-use finalizer is dropped exactly when no other live AquaductTaaS refers to the Secret |
| Controllers.Controller.MarkUnavailable | internal/controller/aquaducttaas/reconciler.go:533-544 | Available becomes False with the reason and nothing else changes |
| Controllers.Controller.HandleDeletion | internal/controller/aquaducttaas/reconciler.go:337-426 | deletion works in the order records, bastions, Secret, object, marking the object unavailable where it stops, and leaves the state of `TaaSDeletion` |
| Controllers.CheckServers | internal/controller/aquaducttaas/reconciler.go:245-266 | an answer is accepted exactly when no name or id is empty and no two mirrored bastions share a name; gives the names to mirror |
| Controllers.Controller.UpsertAll | internal/controller/aquaducttaas/reconciler.go:267-296 | the upserts in listing order, stopping at a server somebody else controls |
| Controllers.Controller.SyncWeftServers | internal/controller/aquaducttaas/reconciler.go:243-321 | upserts and pruning leave exactly the mirror of the answer |
| Controllers.Controller.ReconcileTaaS | internal/controller/aquaducttaas/reconciler.go:90-178 | one AquaductTaaS reconcile leaves exactly the state `TaaSPass` gives, the Available condition included |
| Controllers.Controller.StampRecords | internal/controller/weftgateway/reconciler.go:567-618 | the stamping loop, stopping at a refused write |
| Controllers.Controller.ReconcileGateway | internal/controller/weftgateway/reconciler.go:553-651 | a Gateway pass stamps and prunes with the single AquaductTaaS and does nothing otherwise |
| Controllers.Controller.CleanupGateway | internal/controller/weftgateway/reconciler.go:659-687 | a deleted Gateway's labelled records are all deleted |
| Remote.DomainServer.GetDomain | e2e/aquaduct/fake.go:296-364 | reading a domain: missing, foreign, or its id, bastions and addresses |
| Remote.DomainServer.ComputeDerivedIPs | e2e/aquaduct/fake.go:243-258 | the addresses of the bound bastions, sorted |
| Remote.DomainServer.PutDomain | e2e/aquaduct/fake.go:321-336 | PUT creates or rebinds an own domain to the given ids, or to every active bastion for none, and leaves a foreign one alone |
| Remote.DomainServer.PatchDomain | e2e/aquaduct/fake.go:337-349 | PATCH rebinds an own domain, keeps its set when the ids are omitted, answers a missing one with 404 and leaves a foreign one alone |
| Remote.DomainServer.DeleteDomain | e2e/aquaduct/fake.go:296-364 | an own domain goes, a foreign one is refused, a missing one counts as done |
| Remote.DomainServer.SuspendBastion | e2e/aquaduct/fake.go:202-220 | the first bastion with the id is suspended; unknown ids fail |
| Remote.SuspendEffect | e2e/aquaduct/fake.go:202-220 | suspending makes that bastion suspended, forgets none and wakes none up |
| DnsRecord.SelectBastions | internal/controller/dnsrecord/reconciler.go:386-421 | explicit targets or every eligible bastion, as sorted addresses, ids and missing ids |
| Convergence.BindingMatches | internal/controller/dnsrecord/reconciler.go:386-421 | binding the selected ids makes the server derive exactly the expected addresses, also when none is eligible |
| Convergence.OnePassConverges | internal/controller/dnsrecord/reconciler.go:147-344 | one fault-free pass on an absent or own domain makes lookup equal the expected addresses and Resolved true |
| Convergence.SteadyPass | internal/controller/dnsrecord/reconciler.go:357-377 | in the steady state a pass changes neither the server nor the status, except the heartbeat once that is 300 seconds old |
| Convergence.RecordConverges | internal/controller/dnsrecord/reconciler.go:147-377 | over any run of fault-free passes the server is settled after the first and the status after the second, with DNS as expected and Ready true |
| RecordOutcomes.SyncThenRecordConverges | internal/controller/aquaducttaas/reconciler.go:141-178 | after a sync that goes through and two or more passes over a record whose targets the account has with addresses, DNS holds exactly the addresses of the bastions asked for, all three conditions are true, the server is as the first pass left it and the status, heartbeat aside, as the second did |
| RecordOutcomes.SelectExactly | internal/controller/dnsrecord/reconciler.go:386-421 | the missing ids are the targets whose last published bastion has no address or that are not published, each as often as named, sorted; otherwise the addresses and ids are those of the targets' bastions, or of every usable bastion for no target, sorted |
| RecordOutcomes.UnknownTargetIsRefused | internal/controller/dnsrecord/reconciler.go:147-151 | whatever the server holds and whatever would fail: a record naming a bastion that is not published with an address makes no call, keeps its expected addresses and report, and is not Registered and not Ready, the message naming exactly those targets |
| RecordOutcomes.ForeignDomainIsLeftAlone | internal/controller/dnsrecord/reconciler.go:178-342 | a domain the account answers as foreign, to GET or to PATCH, is left alone: Registered is false, Ready is true iff the lookup worked and found the expected addresses, and the reason is ExternallyManaged exactly then |
| RecordOutcomes.WrittenDomainIsReported | internal/controller/dnsrecord/reconciler.go:193-249 | a free domain or one of the account is bound to the selected bastions, no other entry changes, and the status reports number, bastions, addresses and whether it was taken over |
| RecordOutcomes.FailedCallIsReported | internal/controller/dnsrecord/reconciler.go:193-236 | a call without an answer fails the pass with APIError or RegisterFailed; what the status reported stays, and the server changed at most as asked by a call whose answer was lost |
| RecordOutcomes.VanishedDomainIsRetried | internal/controller/dnsrecord/reconciler.go:226-229 | a domain that vanishes between GET and PATCH leaves the whole state for the next pass |
| RecordOutcomes.UnpreparedRecordWaits | internal/controller/dnsrecord/reconciler.go:443-492 | without a usable AquaductTaaS, token or first sync no call is made and the reason is told |
| RecordOutcomes.CommitExactly | internal/controller/dnsrecord/reconciler.go:357-377 | nothing is written iff nothing but the heartbeat would change and that is under 300 seconds old; any write sets the heartbeat |
| RecordOutcomes.ConditionsDateFromFlips | internal/controller/dnsrecord/reconciler.go:305-342 | in every case of a pass a condition's transition time moves iff the condition is new or flips |
| RecordOutcomes.RecordDeletionExactly | internal/controller/dnsrecord/reconciler.go:505-551 | a record being deleted goes iff DELETE was answered as done, missing or foreign; the account's own domain goes iff DELETE reached it, and no other domain or record changes |
| RecordOutcomes.DeletionWaits | internal/controller/dnsrecord/reconciler.go:517-529 | without credentials a deletion waits and says why |
| Gateway.ClassifyListenerHostnames | internal/controller/weftgateway/reconciler.go:730-749 | each distinct non-empty hostname once, in encounter order, L4 exactly when some listener of it is TCP or UDP |
| Gateway.GatewayRecordsExact | internal/controller/weftgateway/reconciler.go:553-651 | after an error-free pass: one record per listener hostname except L4 ones with no eligible bastion, pinned iff L4, every other labelled record on its way out, nobody else's record changed |
| GatewayOutcomes.GatewayPassExactly | internal/controller/weftgateway/reconciler.go:553-651 | with exactly one AquaductTaaS a pass leaves exactly the records the listeners ask for, unless a record name is taken by another domain; statuses and finalizers stay, no other object changes |
| GatewayOutcomes.NoSingleTaaS | internal/controller/weftgateway/reconciler.go:694-710 | with no or several AquaductTaaS objects neither a pass nor a cleanup changes anything |
| GatewayOutcomes.PassSucceeds | internal/controller/weftgateway/reconciler.go:567-618 | stamping goes through iff no wanted hostname's record name is taken by a record of another domain |
| GatewayOutcomes.CleanupExactly | internal/controller/weftgateway/reconciler.go:659-687 | every record with the deleted Gateway's labels is being deleted, or gone where nothing holds it, and no other object changes |
| GatewayOutcomes.WantedExactly | internal/controller/weftgateway/reconciler.go:730-749 | a hostname gets a record iff a listener has it, it is not empty, and, where one of its listeners is TCP or UDP, some bastion is not suspended and has an address |
| GatewayOutcomes.PickExactly | internal/controller/weftgateway/reconciler.go:763-786 | the pick is the id at the digest's place, modulo their number, in the sorted list of the usable bastions' ids, and there is none iff no bastion is usable |
| Gateway.PickIgnoresOrder | internal/controller/weftgateway/reconciler.go:763-786 | the pinned bastion does not depend on listing order |
| Gateway.PickIsAccepted | internal/controller/weftgateway/reconciler.go:763-786 | with unique ids the record controller accepts the pinned bastion with exactly one address |
| Mirroring.MirrorExact | internal/controller/aquaducttaas/reconciler.go:243-321 | after a successful sync the servers owned are exactly those named by a bastion that is not suspended and has an address, each with an id of that name, and nobody else's server changed |
| Mirroring.MirrorSucceeds | internal/controller/aquaducttaas/reconciler.go:243-296 | an answer is mirrored iff every bastion has a name and an id, no two usable ones share a name, and no server of a usable name is controlled by another object |
| Mirroring.SyncPublishes | internal/controller/aquaducttaas/reconciler.go:141-178 | a sync that goes through publishes every bastion of the account, suspended and addressless ones included, sorted by id, and exactly the names of the usable ones, strictly sorted; Available is true with their number; nothing but servers, Secret pin and status changes |
| Mirroring.FailedSyncPublishesNothing | internal/controller/aquaducttaas/reconciler.go:106-150 | without a reference, without a token, with the list call failing or the answer refused, the published lists and the heartbeat stay and Available is false with the reason |
| Mirroring.StoppedDeletionSaysWhy | internal/controller/aquaducttaas/reconciler.go:337-426 | a deletion that stops with no records left keeps the Secrets and says which of reference, token and suspend call stopped it |
| Mirroring.AvailableDatesFromFlips | internal/controller/aquaducttaas/reconciler.go:533-544 | whichever way a pass goes, the transition time of Available moves iff the condition is new or flips |
| Mirroring.TokenExactly | internal/controller/aquaducttaas/reconciler.go:220-238 | the token is the value under the referenced key of the referenced Secret, if both are there and it is not empty |
| Mirroring.SyncedCanBeSuspended | internal/controller/aquaducttaas/reconciler.go:141-178 | after a sync every mirrored bastion has an id the server knows, which is what teardown needs |
| Mirroring.ResyncIsQuiet | internal/controller/aquaducttaas/reconciler.go:194-216 | a sync with the same answer writes nothing while the heartbeat is fresh, condition included, and only the heartbeat once it is stale |
| Mirroring.PublishIgnoresOrder | internal/controller/aquaducttaas/reconciler.go:151-166 | with unique ids reordering the answer is not a change |
| Teardown.SecretsStayPinned | internal/controller/aquaducttaas/reconciler.go:432-509 | in every run, with any number of owners and reference changes, a live AquaductTaaS that synced with its present reference finds its Secret present and pinned |
| Teardown.NoOrphanedRegistration | internal/controller/aquaducttaas/reconciler.go:337-426 | in every reachable state a domain the operator wrote and the server holds has a record with its finalizer, whose AquaductTaaS and Secret hold theirs and give the account's token |
| Teardown.StepKeepsInv | internal/controller/dnsrecord/reconciler.go:505-551 | every allowed step of users, controllers and other parties keeps that invariant, whatever fails |
| Teardown.GoneMeansClean | internal/controller/aquaducttaas/reconciler.go:337-426 | once no AquaductTaaS gives an account's token, nothing the operator wrote is left in that account |
| Limits.RefusedDeleteExactly | internal/controller/dnsrecord/reconciler.go:505-551 | a DELETE of our own domain answered as foreign or missing orphans it iff no other record guards it |
| Limits.ReleaseExactly | internal/controller/aquaducttaas/reconciler.go:459-509 | the last pass of an object keeps every registration guarded iff it does not release the Secret or every domain has a guard on another Secret |
| Limits.SharedSecretIsReleasedEarly | internal/controller/aquaducttaas/reconciler.go:488-492 | a run from the empty cluster without a failing call, in which the first of two deleting owners releases the Secret the other's record still needs |
| Limits.RetargetExactly | internal/controller/aquaducttaas/reconciler.go:459-468 | changing the reference keeps every registration guarded iff each domain is guarded through another object or the new reference gives the account's token from a Secret in use |
| Limits.LeaksExactly | internal/controller/aquaducttaas/reconciler.go:459-509 | a step leaves a Secret pinned for nobody iff it points the last referring object elsewhere or deletes it before its first pass |
| Limits.NoLeakUnlessAbandoned | internal/controller/aquaducttaas/reconciler.go:459-509 | in a run without such a step no Secret is pinned for nobody |
| Limits.GatewayHoldsTeardownUp | internal/controller/weftgateway/reconciler.go:694-710 | a Gateway pass that stamps a record of a deleting object, followed by a pass over that object, leads back to the state before both |
| Drain.ServersStayNamed | internal/controller/aquaducttaas/reconciler.go:246-252 | in every run every mirrored server carries a bastion id |
| Drain.TeardownBegins | internal/controller/aquaducttaas/reconciler.go:337-361 | a reachable deleted AquaductTaaS that has synced has its token, and is ready for teardown iff the account knows every mirrored bastion |
| Drain.SuspendAllExactly | internal/controller/aquaducttaas/reconciler.go:383-408 | the suspend loop gets through iff every listed server is named and known and no call fails, and then all of them are suspended |
| Drain.LastPassExactly | internal/controller/aquaducttaas/reconciler.go:383-425 | with no records left the object goes iff every listed server can be suspended |
| Drain.LastPassFinishes | internal/controller/aquaducttaas/reconciler.go:384-425 | with no records left a pass removes the object, every mirrored bastion having been suspended |
| Drain.AddsRecordExactly | internal/controller/weftgateway/reconciler.go:553-651 | of all steps only creating a record of the object, by hand or in a Gateway pass, adds one |
| Drain.GatewayAddsExactly | internal/controller/weftgateway/reconciler.go:694-710 | an error-free Gateway pass adds a record of the object iff it is the only AquaductTaaS and some wanted hostname has none |
| Drain.DrainStep | internal/controller/aquaducttaas/reconciler.go:358-425 | no step of users, of any controller or of other parties, failing or not, raises the measure, unless it adds a record of the object, turns another object onto its Secret, creates it anew, or makes the account forget a bastion; every pending pass lowers it |
| Drain.NeverStuck | internal/controller/aquaducttaas/reconciler.go:358-425 | while the object exists some pass is pending |
| Drain.DrainBound | internal/controller/aquaducttaas/reconciler.go:358-425 | in any interleaving of such steps at most Measure passes are pending, and until it is gone the object stays on its way |
| Drain.DrainFinishes | internal/controller/aquaducttaas/reconciler.go:358-425 | from any teardown state some run of at most Measure passes removes the object |
| Claims.ResolveClaims | internal/controller/weftlocaldnsreflector/claims.go:30-81 | claimed and conflicting are what self wants, split by the ownership rule stated over all live reflectors |
| Claims.ComputeTunnelHostnames | internal/controller/weftlocaldnsreflector/claims.go:85-100 | the distinct valid http(s) hostnames of the tunnels |
| Claims.TunnelHostnamesMembers | internal/controller/weftlocaldnsreflector/claims.go:85-100 | strictly sorted; a name is listed iff some tunnel has a destination with it and scheme http or https, and CoreDNS can serve it |
| LocalDns.ComputeSortedNames | internal/controller/weftlocaldnsreflector/claims.go:125-137 | lower-cased names, each once, sorted |
| LocalDns.SortedNamesMembers | internal/controller/weftlocaldnsreflector/claims.go:125-137 | the list is strictly sorted and has exactly the names given, in any case |
| LocalDns.ServableExactly | internal/controller/weftlocaldnsreflector/coredns.go:30-48 | a name can be served iff it has at most 253 characters and at least two labels as the pattern spells them, and is not four numbers below 256 |
| LocalDns.LabelIsSpelled | internal/controller/weftlocaldnsreflector/coredns.go:30-32 | a label is a letter or digit, or such ends around letters, digits and hyphens |
| LocalDns.OctetExactly | internal/controller/weftlocaldnsreflector/coredns.go:46-48 | a part of an IPv4 literal is the plain decimal text of a number below 256 |
| Claims.OlderIsStrictWeak | internal/controller/weftlocaldnsreflector/claims.go:110-123 | age is a strict order, a zero time last |
| Claims.ClaimsPartition | internal/controller/weftlocaldnsreflector/claims.go:54-80 | claimed and conflicting partition what the reflector wants, both strictly sorted |
| Claims.ClaimsAreDisjoint | internal/controller/weftlocaldnsreflector/claims.go:30-81 | two reflectors computing from the same list never claim the same hostname |
| Claims.SomebodyClaims | internal/controller/weftlocaldnsreflector/claims.go:30-81 | a hostname anybody wants is claimed by some live reflector: one that lists it and is the wanting one or created before it, names deciding ties, or, where nobody lists it, an allHostnames one in the same sense |
| Claims.ClaimedExactly | internal/controller/weftlocaldnsreflector/claims.go:30-81 | a reflector claims a hostname iff it lists it and every other live one listing it was created later, or has no creation time, or the same and a greater name; an allHostnames one iff a tunnel offers it, nobody lists it, and every other live allHostnames one is later in that sense |
| Claims.LaterLoses | internal/controller/weftlocaldnsreflector/claims.go:110-123 | of two live claimants of one kind the one with the later time, with no time against a time, or with the greater name at equal times does not get the hostname |
| Claims.ExplicitBeatsAll | internal/controller/weftlocaldnsreflector/claims.go:65-79 | an explicit entry beats allHostnames |
| Claims.ClaimsSeeMembers | internal/controller/weftlocaldnsreflector/claims.go:30-81 | claims depend only on which reflectors are live and which tunnels exist |
| Claims.ClaimsIgnoreOrder | internal/controller/weftlocaldnsreflector/claims.go:30-81 | list order never matters |
| Routes.ComputeRoutes | internal/controller/weftlocaldnsreflector/routes.go:66-116 | the loop over sorted tunnels gives the routes of the winners, the skipped tunnels and the unrouted names |
| Routes.RoutesExact | internal/controller/weftlocaldnsreflector/routes.go:83-108 | routes are strictly sorted by destination and are exactly those of tunnels no earlier servable tunnel shares a destination with |
| Routes.RouteSelection | internal/controller/weftlocaldnsreflector/routes.go:83-106 | a tunnel that parses for a wanted host is in exactly one of Routes and Skipped, the latter with its reason |
| Routes.LeastServes | internal/controller/weftlocaldnsreflector/routes.go:72-106 | the destination of every servable tunnel is served by the least such tunnel |
| Routes.SkippedAreTunnels | internal/controller/weftlocaldnsreflector/routes.go:83-106 | Skipped names only wanted tunnels |
| Routes.UnroutedExact | internal/controller/weftlocaldnsreflector/routes.go:109-114 | Unrouted is exactly the hostnames without a route |
| Routes.DestinationSpelled | internal/controller/weftlocaldnsreflector/routes.go:118-155 | the destination is the tunnel's URL at port 8443 for https and 8080 for http, with "/" for an empty path |
| Routes.ReflectSpelled | internal/controller/weftlocaldnsreflector/routes.go:118-155 | a tunnel can be a route iff both its URLs are http(s) and its source is no loopback address; otherwise the first of these reasons is given |
| Routes.LaterTunnelIsSkipped | internal/controller/weftlocaldnsreflector/routes.go:72-106 | of two servable tunnels for one destination the one with the greater namespace, then name, is skipped as already served |
| Routes.FirstTunnelServes | internal/controller/weftlocaldnsreflector/routes.go:72-106 | the first servable tunnel for a destination by namespace, then name, is in the routes |
| Routes.RoutesIgnoreOrder | internal/controller/weftlocaldnsreflector/routes.go:66-116 | the result is invariant under permuting tunnels |
| Routes.ComputeRoutedHostnames | internal/controller/weftlocaldnsreflector/routes.go:38-49 | the distinct hostnames of the routes, sorted |
| Routes.RoutedHostnamesExact | internal/controller/weftlocaldnsreflector/routes.go:38-49 | a name is listed iff some route has it, and every listed name is wanted |
| CoreDns.ComputeSortedLower | internal/pki/pki.go:164-171 | lower-cased, sorted, without repetition |
| CoreDns.SortedLowerMembers | internal/pki/pki.go:164-171 | order, case and repetition of the input do not matter |
| CoreDns.RenderCoreDNS | internal/controller/weftlocaldnsreflector/coredns.go:35-61 | the builder loop gives the file of server blocks, or the first reason not to |
| CoreDns.RenderSucceeds | internal/controller/weftlocaldnsreflector/coredns.go:35-48 | rendering succeeds iff the address parses and there are names, all servable |
| CoreDns.RenderRoundTrip | internal/controller/weftlocaldnsreflector/coredns.go:43-60 | reading the file back line by line gives the sorted names, each once, all at the address |
| CoreDns.CorefileIsReadable | internal/controller/weftlocaldnsreflector/coredns.go:44-58 | the operator's own fixed lines cannot be mistaken for a zone or an address |
| CoreDns.BlockSpelled | internal/controller/weftlocaldnsreflector/coredns.go:44-58 | the server block of a zone, line by line |
| CoreDns.CustomConfigMap.Sync | internal/controller/weftlocaldnsreflector/coredns.go:67-116 | one key of the shared map is set or removed, every other key and an absent map otherwise untouched |
| Reflectors.Reconciler.Prepare | internal/controller/weftlocaldnsreflector/reconciler.go:182-231 | certificate, trust and proxy set status and conditions in order, up to the call that fails |
| Reflectors.Reconciler.Conclude | internal/controller/weftlocaldnsreflector/reconciler.go:233-275 | the DNS stage renders, syncs and marks, or records why it could not |
| Reflectors.Reconciler.Reconcile | internal/controller/weftlocaldnsreflector/reconciler.go:153-285 | a pass leaves exactly the status and conditions of the stage it reached, and syncs exactly its content or leaves the map alone |
| Reflectors.StatusExactly | internal/controller/weftlocaldnsreflector/reconciler.go:126-130 | Ready is true iff no call failed, rendering went through, the proxy is available with routes, no running pod distrusts the CA or the spec ignores that, and the zone is published or the override disabled; unless the lists failed the status reports the present claims and routes |
| Reflectors.MarksExactly | internal/controller/weftlocaldnsreflector/reconciler.go:182-275 | the three conditions of a pass that reached the DNS stage, each with its exact condition |
| Reflectors.ContentExactly | internal/controller/weftlocaldnsreflector/reconciler.go:233-247 | a zone file is written iff DNS is not disabled, the proxy is available with routes, no running pod distrusts the CA or the spec ignores that, the Service has an IP and every routed name is servable; the key is withdrawn iff a gate is closed or there is no address; otherwise rendering fails |
| Reflectors.DataExactly | internal/controller/weftlocaldnsreflector/reconciler.go:233-257 | in the shared ConfigMap the key is there, withdrawn or as it was, exactly then |
| Reflectors.AgentHostsExactly | internal/controller/weftlocaldnsreflector/reconciler.go:259-268 | the node agents are given exactly the routed hostnames while the trust gate is open, and none while it is closed |
| Reflectors.PublishedAnswers | internal/controller/weftlocaldnsreflector/reconciler.go:233-247 | the file answers each of its zones with the Service's address and holds no other answer |
| Reflectors.PublishedZones | internal/controller/weftlocaldnsreflector/reconciler.go:164-247 | the zones published are exactly the routed hostnames, each claimed and among the certificate names |
| Reflectors.RenderingCannotFail | internal/controller/weftlocaldnsreflector/reconciler.go:233-242 | with a valid address rendering cannot fail for allHostnames or for valid explicit names |
| SettledDns.SettledExclusivity | internal/controller/weftlocaldnsreflector/reconciler.go:164-257 | after any interleaving of passes on fresh or stale lists, failures, finalizations, user changes and other writers: in a settled state no zone is under two keys |
| SettledDns.RunKeepsInv | internal/controller/weftlocaldnsreflector/reconciler.go:114-123 | in every reachable state a reflector key belongs to an existing reflector with its finalizer and serves only what its last successful pass claimed |
| SettledDns.FreshPassesSettle | internal/controller/weftlocaldnsreflector/reconciler.go:153-285 | whatever came before, one successful pass of every reflector on the present lists, in any order, settles the system |
| SettledDns.GoneMeansWithdrawn | internal/controller/weftlocaldnsreflector/reconciler.go:296-307 | once a reflector is gone its key is nowhere |
| SettledDns.PassFrame | internal/controller/weftlocaldnsreflector/coredns.go:92-115 | a pass touches one key of the one ConfigMap its reflector points at now |
| SettledDns.ForeignKeysUntouched | internal/controller/weftlocaldnsreflector/coredns.go:67-116 | a key no reflector owns holds what other writers left there |
| SettledDns.OperatorIsSound | internal/controller/weftlocaldnsreflector/names.go:46-48 | different reflectors have different data keys, and the zones a pass renders are among its claims |
| SettledDns.OperatorZonesAreExclusive | internal/controller/weftlocaldnsreflector/reconciler.go:164-257 | settled exclusivity for the operator's own data keys and rendering |
| HostsFile.EditLines | internal/nodeagent/hostsfile.go:51-92 | the index loop gives the stripped lines with the block in the place of the first begin marker |
| HostsFile.StripIsOutside | internal/nodeagent/hostsfile.go:62-83 | the lines kept are exactly those outside complete blocks, in order; of an unterminated begin only the marker goes |
| HostsFile.ManagedBlockLaw | internal/nodeagent/hostsfile.go:51-92 | for any lines the edit leaves one begin..body..end block in the first block's place, none for an empty body, every outside line in order, and is idempotent |
| SharedFile.MarkersDistinct | internal/nodeagent/hostsfile.go:13-27 | markers of different reflectors differ, and begin and end never coincide |
| SharedFile.ReflectorsAreIndependent | internal/nodeagent/hostsfile.go:31-92 | for any interleaving of edits by several reflectors, erasing one gives the run in which it never edited |
| FileBytes.ManagedBlock | internal/nodeagent/hostsfile.go:51-92 | the edit on the bytes of a file |
| FileBytes.ByteIdempotence | internal/nodeagent/hostsfile.go:51-92 | a second edit changes no byte iff the lines kept behind the block do not end in a blank one |
| FileBytes.ByteIdempotentWithOneMarker | internal/nodeagent/hostsfile.go:51-92 | with at most one begin marker and a non-empty body the edit is idempotent on bytes |
| FileBytes.TwoBlocksAreNotIdempotent | internal/nodeagent/hostsfile.go:51-92 | a file with two blocks that a second edit changes |
| NodeAgent.Agent.Tick | internal/nodeagent/agent.go:140-183 | one pass leaves the node of `Ticked`; an unreadable or unparseable CA changes what it must and no more |
| NodeAgent.Agent.CheckProxy | internal/nodeagent/agent.go:186-194 | healthy exactly when every hostname verified |
| NodeAgent.Agent.ApplyHosts | internal/nodeagent/agent.go:199-220 | the hosts file gets the block for the given names, or loses it |
| NodeAgent.Agent.ApplyHostTrust | internal/nodeagent/agent.go:226-251 | every existing trust file gets the CA block |
| NodeAgent.Agent.WriteCertsD | internal/nodeagent/certsd.go:47-66 | a directory with a foreign hosts.toml is left alone, any other becomes ours |
| NodeAgent.Agent.RemoveCertsDExcept | internal/nodeagent/agent.go:254-269 | exactly our own directories outside the kept names go |
| NodeAgent.Agent.Cleanup | internal/nodeagent/agent.go:272-282 | our blocks and our directories go, nothing else |
| NodeAgent.RunKeepsOnlyOurs | internal/nodeagent/agent.go:140-282 | after any passes and hostname changes the node is the untouched one plus our blocks and directories; a directory with a hosts.toml of its own never changes |
| NodeAgent.HostsFollowHealth | internal/nodeagent/agent.go:140-220 | after any run the hosts file holds the original lines, and the block with the address and the configured hostnames iff in the last pass the CA was readable and parsed, and every hostname verified |
| NodeAgent.BundlesFollowCA | internal/nodeagent/agent.go:226-251 | after any run that read a CA, every listed trust file that exists holds its original lines followed by exactly the lines of the CA last read between the markers, without the white space around it, and no block for a blank one |
| NodeAgent.OtherBundlesKept | internal/nodeagent/agent.go:226-251 | files not listed never change, none appears or goes, and without a readable CA no bundle changes |
| NodeAgent.CertsFollowCA | internal/nodeagent/certsd.go:30-66 | after any run that read a CA, each hostname of the last such pass has a directory with that CA and our hosts.toml unless somebody else's was there, and no other hostname has one of ours |
| NodeAgent.TrimSpaceExactly | internal/nodeagent/hostsfile.go:39-47 | the text is white space, the result and white space, and the result neither starts nor ends in any |
| NodeAgent.NodeRestored | internal/nodeagent/agent.go:140-282 | any passes followed by Cleanup give back hosts, bundles and certs.d exactly, iff the edited files end tidily and no pass with a readable CA configured a bare directory |
| NodeAgent.BareDirectoryIsLost | internal/nodeagent/certsd.go:36-66 | a directory without a hosts.toml that any pass of any run adopts is gone after Cleanup |
| Trust.Build | internal/trust/bundle.go:75-96 | the bundle text, the CA text and the fingerprints of the sorted CAs; refused for too few roots |
| Trust.BuildIgnoresOrder | internal/trust/bundle.go:75-96 | with distinct reflectors the bundle does not depend on listing order |
| Trust.BuiltFingerprints | internal/trust/bundle.go:85-95 | the fingerprints are exactly those of the CAs, sorted |
| Trust.BuiltExactly | internal/trust/bundle.go:75-96 | a bundle is built iff the roots hold twenty certificates; it is the roots without the line breaks at their end, one break, and every CA once under its reflector's name, sorted by it |
| Trust.Pod.Inject | internal/trust/inject.go:59-90 | the pod becomes `Injected`, and the answer says whether anything changed |
| Trust.AddMounts | internal/trust/inject.go:92-102 | the mounts after the loop, and whether any was added |
| Trust.CheckCovered | internal/trust/inject.go:106-117 | true iff some mount is at or above the path |
| Trust.MountsAdded | internal/trust/inject.go:92-117 | original mounts stay a prefix, every bundle path is covered, nothing is added at or below an original mount |
| Trust.MountsAddedExactly | internal/trust/inject.go:92-117 | with paths apart exactly the uncovered paths are added, in order |
| Trust.SystemPathsApart | internal/trust/inject.go:37-41 | none of the system bundle paths is at or above another later one |
| Trust.InjectIdempotent | internal/trust/inject.go:59-117 | injecting twice is injecting once |
| Trust.InjectedPodIsCovered | internal/trust/inject.go:59-90 | every container of an injected pod has every bundle path covered and the pod has the volume |
| Trust.InjectedExactly | internal/trust/inject.go:43-102 | a pod that opted out by label or annotation or targets Windows, and any pod while there is no CA, is left alone; any other gets the volume, read-only mounts of the bundle and the list of fingerprints, and keeps everything else |
| Trust.CoversExactly | internal/trust/inject.go:106-117 | a mount covers a path iff it is at the root or its segments, trailing slashes aside, begin the path's |
| Trust.BuiltAndInjectedTrusts | internal/trust/inject.go:130-132 | build, inject, check: a pod trusts a fingerprint iff it is one of the CAs' |
| Trust.UntrustedPods | internal/controller/weftlocaldnsreflector/trust.go:84-104 | the count and sample of running pods that are neither exempt nor trusting |
| Trust.HoldsGateExactly | internal/controller/weftlocaldnsreflector/trust.go:84-117 | a pod holds the gate iff its namespace is not excluded, neither label nor annotation opts it out, it is no mirror pod, and the fingerprint is not in the list of its annotation |
| Trust.SampleExactly | internal/controller/weftlocaldnsreflector/trust.go:84-104 | the sample is sorted, has at most twenty names, names only pods that hold the gate, and names all of them where there are no more |
| Trust.InjectionOpensGate | internal/controller/weftlocaldnsreflector/trust.go:84-117 | after injection a pod holds the gate iff it targets Windows and held it before |
| Trust.GateOpenExactly | internal/controller/weftlocaldnsreflector/trust.go:84-117 | the count is zero iff every running pod is exempt or trusts the CA |
| Renewal.RequeueBounds | internal/controller/weftlocaldnsreflector/reconciler.go:278-284 | the requeue is positive and at most the recheck interval, and no later than the window or ten seconds |
| Renewal.RequeueExactly | internal/controller/weftlocaldnsreflector/reconciler.go:278-294 | the requeue is the earliest of thirty days before expiry, twelve hours and the interval of the gate's state, by default two minutes open and thirty seconds closed, but no less than the lesser of that interval and ten seconds |
| Renewal.RenewedInTime | internal/controller/weftlocaldnsreflector/reconciler.go:278-284 | over any run of on-time passes each finds the certificate with thirty days left, less ten seconds and the previous pass's own duration |
| Renewal.LeftOutsideWindow | internal/pki/pki.go:107-128 | a pass leaves a certificate of the current CA for the asked names, outside its renewal window |
| Renewal.NotReissuedEarly | internal/pki/pki.go:107-128 | passes asking for the same names in any order or case never reissue before the window |
| Renewal.ReissuedWhenNeeded | internal/pki/pki.go:107-128 | a pass keeps the certificate or something changed, and reissues whenever something did |
| Renewal.FreshLeaf | internal/pki/pki.go:70-105 | a fresh certificate of the CA holds exactly its names in lower case, strictly sorted, and lasts a year less at most a second |
| Hostnames.HostnamesIntersect | internal/controller/weftgateway/reconciler.go:872-885 | the loop decides whether some route hostname matches the listener's |
| Hostnames.MatchesSymmetric | internal/controller/weftgateway/reconciler.go:890-901 | matching is symmetric |
| Hostnames.MatchesExactly | internal/controller/weftgateway/reconciler.go:890-901 | two hostnames match iff some concrete name is one of both, wildcards included |
| Hostnames.IntersectsExactly | internal/controller/weftgateway/reconciler.go:872-901 | true iff some concrete name is asked for by the route and accepted by the listener |
| Fragment.HttpFiltersToFragment | internal/controller/weftgateway/reconciler.go:1185-1206 | the loops emit one part per set, add and remove operation, in order |
| Fragment.DecodedIsRaw | internal/controller/weftgateway/reconciler.go:1185-1216 | percent-decoding (section 2.1 of RFC 3986) the fragment yields the raw parts |
| Fragment.FragmentRoundTrip | internal/controller/weftgateway/reconciler.go:1185-1216 | splitting the decoded fragment recovers the exact ordered operations iff values are free of `&` and `=` and set values neither start with `+` nor are `!del` |
| Fragment.FiltersRoundTrip | internal/controller/weftgateway/reconciler.go:1185-1216 | from the filters of a rule: what is read back are, filter after filter, the sets, then adds, then removes, with their names and values, iff every one can be carried |
| Fragment.EscapedIsSafe | internal/controller/weftgateway/reconciler.go:1209-1216 | an escaped value holds only letters, digits and the signs a path segment may hold, with percent signs |

## Left out

- Passes are atomic: another writer between two API writes of one pass, and API-server write errors and conflicts inside a pass, are not modelled. The two updates at internal/controller/aquaducttaas/reconciler.go:413 and :420 are one step here.
- One namespace: objects of one kind are keyed by name alone.
- `observedGeneration`, connection strings and the API endpoint of an AquaductTaaS.
- Condition messages carry the parts they are formatted from, not the formatted text.
- Teardown.NoOrphanedRegistration: references stay fixed, Secrets are not shared and the server does not disown our own DELETEs; `RetargetExactly`, `ReleaseExactly` and `RefusedDeleteExactly` in `Limits` say exactly what each of these costs.
- The data of a Secret never changes once it is created, so a token cannot be replaced or blanked under an object that uses it.
- Drain.DrainBound: excluded are the steps that add a record of the object (`AddsRecordExactly`), create it anew, turn it or another object onto its Secret, or make the account forget a bastion; a pass counts as pending only when its calls do not fail.
- SettledDns.SettledExclusivity: a reflector's ConfigMap location is fixed while it exists, and it reads itself fresh; `PassFrame` shows why the location must stay. Overlap during a handover is possible in the code and is not excluded.
- Reflectors.Reconciler.Reconcile: does not model Kubernetes object building for the Service, the Deployment and the DaemonSet, whose outcomes are parameters, nor messages and transition times of conditions, nor the write of the status object.
- X.509, TLS, PEM and SHA-256: certificates are records of names, issuer and expiry, handshakes and parse results are parameters, hashes are functions, injective where a lemma asks for it.
- HTTP, JSON and the JWT cache: a call's outcome is a value.
- URL and IP parsing: a tunnel carries its parsed URLs, a service address its canonical text; only IPv4 literals can look like hostnames and these are modelled.
- Strings are byte strings: lower-casing and trimming are ASCII, and quoting is the identity on names without special characters.
- NodeAgent.Agent.Tick: does not model file I/O errors, edits by other tools during a pass, or entries of certs.d that are not directories.
- Trust.Build: the number of certificates in the roots file is given, not parsed. Publishing the bundle ConfigMap per namespace is not modelled.
- Renewal.RenewedInTime: CA expiry and failed passes are not modelled.
- HTTPRoute, TCPRoute, TLSRoute and UDPRoute to WeftTunnel translation, WeftServer and WeftTunnel controllers, webhook plumbing, the Helm chart and the e2e scenarios: mostly naming and field copying.
