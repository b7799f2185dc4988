/** The Kubernetes objects the operator works on, one namespace of them, and the clock's durations in seconds. */
module Api {
  datatype Option<+T> = None | Some(value: T)

  datatype Bastion = Bastion(id: string, name: string, ip: string, suspended: bool)

  /** An access-token Secret; `inUse` is the aquaducttaas-token-in-use finalizer. */
  datatype Secret = Secret(data: map<string, string>, inUse: bool, deleting: bool)

  datatype SecretRef = SecretRef(name: string, key: string)

  /** `available` is the Available condition. */
  datatype TaaSStatus = TaaSStatus(
    bastions: seq<Bastion>, syncedServers: seq<string>, lastSync: Option<int>, available: Option<Condition>)

  /**
   * `finalizer` is suspend-on-delete. `synced` is history, not part of the object: a sync has
   * completed since the Secret reference was last set.
   */
  datatype TaaS = TaaS(secretRef: Option<SecretRef>, finalizer: bool, deleting: bool, status: TaaSStatus, synced: bool)

  /** A mirrored bastion; `owner` is the aquaducttaas label, `bastionID` the bastion-id annotation. */
  datatype WeftServer = WeftServer(owner: string, bastionID: string)

  /** The labels that trace a DNSRecord back to the Gateway that stamped it. */
  datatype GatewayKey = GatewayKey(namespace: string, name: string)

  datatype ConditionType = Ready | Registered | Resolved

  datatype Reason =
    | SpecInvalid | MissingAquaductTaaS | SecretError | WaitingForBastions | UnknownBastion
    | RegisteredOk | ForeignOwned | RegisterFailed | APIError | ExternallyManaged
    | SyncError | SuspendError | SyncedOk
    | LookupFailed | NoTargets | UnexpectedRecords | ResolvedOk | Mismatched | ReadyOk | CleanupFailed

  /** The parts a condition message is formatted from. */
  datatype Message =
    | Text(reason: Reason, names: seq<string>, more: seq<string>)
    | NewDomain(id: int, bastions: nat)
    | KnownDomain(id: int, bastions: nat)
    | SyncedCount(servers: nat)

  /** `since` is lastTransitionTime. */
  datatype Condition = Condition(ok: bool, reason: Reason, message: Message, since: int)

  datatype RecordStatus = RecordStatus(
    domainID: Option<int>,
    expectedIPs: seq<string>,
    resolvedIPs: seq<string>,
    appliedBastionIDs: seq<string>,
    appliedIPs: seq<string>,
    clobbered: bool,
    conditions: map<ConditionType, Condition>,
    lastSync: Option<int>)

  /** `finalizer` is unregister-on-delete. */
  datatype Record = Record(
    domain: string,
    taasRef: string,
    targets: seq<string>,
    gateway: Option<GatewayKey>,
    finalizer: bool,
    deleting: bool,
    status: RecordStatus)

  const EMPTY_STATUS := RecordStatus(None, [], [], [], [], false, map[], None)

  const RESYNC_INTERVAL := 300
}
