/** The records a node stores: workloads with typed data and results, grouped in deployments. */
module GridTypes {
  import opened Wrappers
  import opened Addresses

  type NodeId = uint32
  type ContractId = nat

  /** A WireGuard secret; 0 is Go's zero key. Distinct secrets have distinct public keys. */
  type Key = nat
  datatype PublicKey = PublicKey(secret: Key)

  datatype Endpoint = Endpoint(host: string, port: int)

  datatype Peer = Peer(subnet: IPNet, publicKey: PublicKey, allowedIPs: seq<IPNet>, endpoint: Option<Endpoint>)

  /** A parsed IP address: four octets, or an IPv6 address of which only the fourth byte is ever read. */
  datatype IP = V4(addr: IPv4) | V6(fourth: byte, text: string)

  datatype MachineMount = MachineMount(name: string, mountpoint: string)
  datatype ZdbBackend = ZdbBackend(address: string, namespace: string, password: string)
  datatype Encryption = Encryption(algorithm: string, key: seq<byte>)
  datatype SafeConfig = SafeConfig(
    minimalShards: uint32, expectedShards: uint32, redundantGroups: uint32, redundantNodes: uint32,
    maxDirSize: uint32, encryption: Encryption, metaType: string, metaPrefix: string,
    metaEncryption: Encryption, metaBackends: seq<ZdbBackend>, groups: seq<seq<ZdbBackend>>,
    compression: string)

  datatype WorkloadType =
    | ZMountType | ZDBType | ZMachineType | QuantumSafeFSType | ZLogsType | PublicIPType
    | NetworkType | GatewayFQDNProxyType | GatewayNameProxyType

  datatype WorkloadData =
    | ZMount(diskSize: uint64)
    | ZDB(size: uint64, mode: string, password: string, isPublic: bool)
    | ZMachine(
        flist: string, network: string, ip: Option<IP>, publicIP: string, planetary: bool, cpu: byte,
        memory: uint64, rootfs: uint64, entrypoint: string, corex: bool, mounts: seq<MachineMount>,
        env: map<string, string>)
    | QuantumSafeFS(cache: uint64, config: SafeConfig)
    | ZLogs(zmachine: string, output: string)
    | PublicIP(v4: bool, v6: bool)
    | Network(range: IPNet, subnet: IPNet, wgPrivateKey: Key, wgListenPort: uint16, peers: seq<Peer>)
    | Gateway(kind: WorkloadType, domain: string, backends: seq<string>)
    | Unreadable(claimed: WorkloadType)  // data that does not parse as its type
  {
    function Type(): WorkloadType {
      match this
      case ZMount(_) => ZMountType
      case ZDB(_, _, _, _) => ZDBType
      case ZMachine(_, _, _, _, _, _, _, _, _, _, _, _) => ZMachineType
      case QuantumSafeFS(_, _) => QuantumSafeFSType
      case ZLogs(_, _) => ZLogsType
      case PublicIP(_, _) => PublicIPType
      case Network(_, _, _, _, _) => NetworkType
      case Gateway(kind, _, _) => kind
      case Unreadable(claimed) => claimed
    }
  }

  datatype State = StateInit | StateOk | StateError | StateDeleted | StatePaused | StateUnChanged {
    predicate IsOkay() { StateOk? }
  }

  datatype ResultData =
    | NoResult
    | MachineResult(yggIP: string)
    | ZDBResult(namespace: string, ips: seq<string>, port: uint32)
    | PublicIPResult(ipv4: Option<string>, ipv6: Option<string>)
    | QSFSResult(metricsEndpoint: string)

  datatype Status = Status(state: State, data: ResultData)

  const PENDING := Status(StateInit, NoResult)

  datatype Workload = Workload(
    name: string, version: uint32, description: string, data: WorkloadData, result: Status)

  datatype Deployment = Deployment(version: uint32, contractID: ContractId, workloads: seq<Workload>)

  function NewGridDeployment(workloads: seq<Workload>): Deployment {
    Deployment(0, 0, workloads)
  }

  function Names(ws: seq<Workload>): (r: set<string>) {
    set w | w in ws :: w.name
  }

  ghost predicate UniqueNames(ws: seq<Workload>) {
    forall i, j :: 0 <= i < j < |ws| ==> ws[i].name != ws[j].name
  }
}
