/** The declared workloads, what they are printed to, and how they are read back from a deployment. */
module Workloads {
  import opened Wrappers
  import opened Addresses
  import opened GridTypes
  import opened Units

  datatype Disk = Disk(name: string, sizeGB: int64, description: string)

  datatype Zdb = Zdb(
    name: string, password: string, isPublic: bool, size: int64, description: string, mode: string,
    ips: seq<string>, port: uint32, namespace: string)

  datatype Mount = Mount(diskName: string, mountPoint: string)

  datatype Zlog = Zlog(zmachine: string, output: string)

  datatype VM = VM(
    name: string, flist: string, flistChecksum: string, publicIP: bool, publicIP6: bool, planetary: bool, corex: bool,
    computedIP: string, computedIP6: string, yggIP: string, ip: string, description: string, cpu: int64,
    memory: int64, rootfsSize: int64, entrypoint: string, mounts: seq<Mount>, zlogs: seq<Zlog>,
    envVars: map<string, string>, networkName: string)

  datatype Metadata = Metadata(
    kind: string, prefix: string, encryptionAlgorithm: string, encryptionKey: string, backends: seq<ZdbBackend>)

  datatype Qsfs = Qsfs(
    name: string, description: string, cache: int64, minimalShards: uint32, expectedShards: uint32,
    redundantGroups: uint32, redundantNodes: uint32, maxZDBDataDirSize: uint32, encryptionAlgorithm: string,
    encryptionKey: string, compressionAlgorithm: string, metadata: Metadata, groups: seq<seq<ZdbBackend>>,
    metricsEndpoint: string)

  /** Parsing and printing of addresses and ranges, and the hex digest that names a log workload. */
  datatype Texts = Texts(
    parseIP: string -> Option<IP>, showIP: IP -> string, parseCIDR: string -> Option<IPNet>, urlHash: string -> string)

  function Request(name: string, description: string, data: WorkloadData): Workload {
    Workload(name, 0, description, data, PENDING)
  }

  // ----- Disks -----

  function DiskWorkload(d: Disk): Workload {
    Request(d.name, d.description, ZMount(ToUnits(d.sizeGB, GIGABYTE)))
  }

  function DiskFrom(w: Workload): Option<Disk> {
    if w.data.ZMount? then Some(Disk(w.name, FromUnits(w.data.diskSize, GIGABYTE), w.description)) else None
  }

  predicate SizeFits(x: int64, scale: nat) {
    0 <= x && x * scale < TWO64
  }

  /** A disk is read back as declared exactly when its size is not negative and fits 64 bits in bytes. */
  lemma DiskRoundTrip(d: Disk)
    ensures DiskFrom(DiskWorkload(d)) == Some(d) <==> SizeFits(d.sizeGB, GIGABYTE)
  {
    UnitsRoundTrip(d.sizeGB, GIGABYTE);
  }

  // ----- ZDBs -----

  function ZdbWorkload(z: Zdb): Workload {
    Request(z.name, z.description, ZDB(ToUnits(z.size, GIGABYTE), z.mode, z.password, z.isPublic))
  }

  function ZdbFrom(w: Workload): Option<Zdb> {
    if !w.data.ZDB? || !w.result.data.ZDBResult? then None
    else
      var r := w.result.data;
      Some(Zdb(w.name, w.data.password, w.data.isPublic, FromUnits(w.data.size, GIGABYTE), w.description, w.data.mode,
               r.ips, r.port, r.namespace))
  }

  /** The declaration with the computed fields the node answered. */
  function ObservedZdb(z: Zdb, r: ResultData): Zdb
    requires r.ZDBResult?
  {
    z.(ips := r.ips, port := r.port, namespace := r.namespace)
  }

  lemma ZdbRoundTrip(z: Zdb, w: Workload)
    requires Answers(ZdbWorkload(z), w)
    ensures ZdbFrom(w) == Some(ObservedZdb(z, w.result.data)) <==> SizeFits(z.size, GIGABYTE)
  {
    UnitsRoundTrip(z.size, GIGABYTE);
  }

  // ----- QSFS -----

  /** The workload of a QSFS; the metadata is encrypted with the main key and algorithm. */
  function QsfsWorkload(q: Qsfs): Option<Workload> {
    var k := Decode(q.encryptionKey);
    if k.None? then None
    else
      var encryption := Encryption(q.encryptionAlgorithm, k.value);
      Some(Request(q.name, q.description, QuantumSafeFS(
        ToUnits(q.cache, MEGABYTE),
        SafeConfig(q.minimalShards, q.expectedShards, q.redundantGroups, q.redundantNodes, q.maxZDBDataDirSize,
                   encryption, q.metadata.kind, q.metadata.prefix, encryption, q.metadata.backends, q.groups,
                   q.compressionAlgorithm))))
  }

  function QsfsFrom(w: Workload): Option<Qsfs> {
    if !w.data.QuantumSafeFS? then None
    else if w.result != PENDING && !w.result.data.QSFSResult? then None
    else
      var c := w.data.config;
      Some(Qsfs(w.name, w.description, CacheFrom(w.data.cache), c.minimalShards, c.expectedShards, c.redundantGroups,
                c.redundantNodes, c.maxDirSize, c.encryption.algorithm, Encode(c.encryption.key), c.compression,
                Metadata(c.metaType, c.metaPrefix, c.metaEncryption.algorithm, Encode(c.metaEncryption.key),
                    c.metaBackends),
                c.groups, if w.result.data.QSFSResult? then w.result.data.metricsEndpoint else ""))
  }

  function ObservedQsfs(q: Qsfs, r: ResultData): Qsfs
    requires r.QSFSResult?
  {
    q.(metricsEndpoint := r.metricsEndpoint)
  }

  /** What a QSFS declaration must satisfy to survive: one key and algorithm, lower-case hex, a fitting cache. */
  predicate QsfsKept(q: Qsfs) {
    && NoUpper(q.encryptionKey)
    && q.metadata.encryptionKey == q.encryptionKey && q.metadata.encryptionAlgorithm == q.encryptionAlgorithm
    && -0x8000_0000_0000_0000 <= q.cache * MEGABYTE < 0x8000_0000_0000_0000
  }

  lemma QsfsRoundTrip(q: Qsfs, w: Workload)
    requires QsfsWorkload(q).Some? && Answers(QsfsWorkload(q).value, w)
    ensures QsfsFrom(w) == Some(ObservedQsfs(q, w.result.data)) <==> QsfsKept(q)
  {
    CacheRoundTrip(q.cache);
    HexRoundTrip(q.encryptionKey);
    var from := QsfsFrom(w).value;
    assert from.encryptionKey == Encode(Decode(q.encryptionKey).value) == from.metadata.encryptionKey;
    if from == ObservedQsfs(q, w.result.data) {
      assert from.cache == q.cache && from.encryptionKey == q.encryptionKey && from.metadata == q.metadata;
    }
  }

  // ----- Virtual machines -----

  function PublicIPName(vm: VM): string {
    if vm.publicIP || vm.publicIP6 then vm.name + "ip" else ""
  }

  function MachineMounts(mounts: seq<Mount>): seq<MachineMount> {
    seq(|mounts|, i requires 0 <= i < |mounts| => MachineMount(mounts[i].diskName, mounts[i].mountPoint))
  }

  function MountsFrom(mounts: seq<MachineMount>): seq<Mount> {
    seq(|mounts|, i requires 0 <= i < |mounts| => Mount(mounts[i].name, mounts[i].mountpoint))
  }

  function ZlogWorkload(t: Texts, z: Zlog): Workload {
    Request(t.urlHash(z.output), "", ZLogs(z.zmachine, z.output))
  }

  function ZlogWorkloads(t: Texts, zs: seq<Zlog>): seq<Workload> {
    if zs == [] then [] else ZlogWorkloads(t, zs[..|zs| - 1]) + [ZlogWorkload(t, zs[|zs| - 1])]
  }

  function MachineWorkload(t: Texts, vm: VM): Workload {
    Request(vm.name, vm.description, ZMachine(
      vm.flist, vm.networkName, t.parseIP(vm.ip), PublicIPName(vm), vm.planetary, vm.cpu % 256,
      ToUnits(vm.memory, MEGABYTE), ToUnits(vm.rootfsSize, MEGABYTE), vm.entrypoint, vm.corex,
      MachineMounts(vm.mounts), vm.envVars))
  }

  function PublicIPWorkloads(vm: VM): seq<Workload> {
    if PublicIPName(vm) == "" then [] else [Request(PublicIPName(vm), "", PublicIP(vm.publicIP, vm.publicIP6))]
  }

  /** A machine is printed after the workloads it refers to. */
  function VMWorkloads(t: Texts, vm: VM): seq<Workload> {
    PublicIPWorkloads(vm) + ZlogWorkloads(t, vm.zlogs) + [MachineWorkload(t, vm)]
  }

  /** The method that prints a machine: it appends the public IP, the logs, then the machine itself. */
  method PrintVM(t: Texts, vm: VM) returns (ws: seq<Workload>)
    ensures ws == VMWorkloads(t, vm)
  {
    ws := [];
    var publicIPName := "";
    if vm.publicIP || vm.publicIP6 {
      publicIPName := vm.name + "ip";
      ws := ws + [Request(publicIPName, "", PublicIP(vm.publicIP, vm.publicIP6))];
    }
    var mounts: seq<MachineMount> := [];
    for i := 0 to |vm.mounts|
      invariant mounts == MachineMounts(vm.mounts[..i])
    {
      mounts := mounts + [MachineMount(vm.mounts[i].diskName, vm.mounts[i].mountPoint)];
    }
    assert vm.mounts[..|vm.mounts|] == vm.mounts;
    for i := 0 to |vm.zlogs|
      invariant ws == PublicIPWorkloads(vm) + ZlogWorkloads(t, vm.zlogs[..i])
    {
      assert vm.zlogs[..i + 1][..i] == vm.zlogs[..i];
      ws := ws + [ZlogWorkload(t, vm.zlogs[i])];
    }
    assert vm.zlogs[..|vm.zlogs|] == vm.zlogs;
    ws := ws + [Request(vm.name, vm.description, ZMachine(
      vm.flist, vm.networkName, t.parseIP(vm.ip), publicIPName, vm.planetary, vm.cpu % 256,
      ToUnits(vm.memory, MEGABYTE), ToUnits(vm.rootfsSize, MEGABYTE), vm.entrypoint, vm.corex, mounts, vm.envVars))];
  }

  /** The first workload of a name. */
  function Get(ws: seq<Workload>, name: string): (r: Option<Workload>)
    ensures r.Some? ==> r.value in ws && r.value.name == name
    ensures r.None? ==> forall w :: w in ws ==> w.name != name
  {
    if ws == [] then None else if ws[0].name == name then Some(ws[0]) else Get(ws[1..], name)
  }

  /** The addresses of a public-IP workload; empty when it is missing, failed, or has no such result. */
  function PublicIPsOf(ws: seq<Workload>, name: string): (r: ResultData)
    ensures r.PublicIPResult?
  {
    var w := Get(ws, name);
    if w.Some? && w.value.result.state.IsOkay() && w.value.result.data.PublicIPResult? then w.value.result.data
    else PublicIPResult(None, None)
  }

  function Text(s: Option<string>): string {
    if s.Some? then s.value else ""
  }

  function ZlogFrom(w: Workload, name: string): Option<Zlog> {
    if w.result.state.IsOkay() && w.data.ZLogs? && w.data.zmachine == name then Some(Zlog(name, w.data.output))
        else None
  }

  function ZlogsFrom(ws: seq<Workload>, name: string): seq<Zlog> {
    if ws == [] then []
    else
      var z := ZlogFrom(ws[|ws| - 1], name);
      ZlogsFrom(ws[..|ws| - 1], name) + if z.Some? then [z.value] else []
  }

  /** The filter over the deployment's log workloads, by owning machine. */
  method FindZlogs(ws: seq<Workload>, name: string) returns (res: seq<Zlog>)
    ensures res == ZlogsFrom(ws, name)
  {
    res := [];
    for i := 0 to |ws|
      invariant res == ZlogsFrom(ws[..i], name)
    {
      assert ws[..i + 1][..i] == ws[..i];
      if ws[i].data.ZLogs? && ws[i].result.state.IsOkay() && ws[i].data.zmachine == name {
        res := res + [Zlog(name, ws[i].data.output)];
      }
    }
    assert ws[..|ws|] == ws;
  }

  function IPText(t: Texts, ip: Option<IP>): string {
    if ip.Some? then t.showIP(ip.value) else "<nil>"
  }

  function VMFrom(t: Texts, w: Workload, ws: seq<Workload>): Option<VM> {
    if !w.data.ZMachine? || !w.result.data.MachineResult? then None
    else
      var d := w.data;
      var ips := PublicIPsOf(ws, d.publicIP);
      Some(VM(w.name, d.flist, "", ips.ipv4.Some?, ips.ipv6.Some?, w.result.data.yggIP != "", d.corex,
              Text(ips.ipv4), Text(ips.ipv6), w.result.data.yggIP, IPText(t, d.ip), w.description, d.cpu,
              FromUnits(d.memory, MEGABYTE), FromUnits(d.rootfs, MEGABYTE), d.entrypoint, MountsFrom(d.mounts),
              ZlogsFrom(ws, w.name), d.env, d.network))
  }

  /** What a machine declaration must satisfy for its scalar fields to survive. */
  predicate VMKept(t: Texts, vm: VM) {
    && 0 <= vm.cpu < 256
    && SizeFits(vm.memory, MEGABYTE) && SizeFits(vm.rootfsSize, MEGABYTE)
    && IPText(t, t.parseIP(vm.ip)) == vm.ip
  }

  /** The declaration with the addresses the node answered. */
  function ObservedVM(vm: VM, ips: ResultData, r: ResultData): VM
    requires ips.PublicIPResult? && r.MachineResult?
  {
    vm.(computedIP := Text(ips.ipv4), computedIP6 := Text(ips.ipv6), yggIP := r.yggIP)
  }

  /** The observed machine before its checksum and log order are restored. */
  function ReadVM(t: Texts, vm: VM, w: Workload, ws: seq<Workload>): VM
    requires w.result.data.MachineResult?
  {
    ObservedVM(vm, PublicIPsOf(ws, PublicIPName(vm)), w.result.data).(flistChecksum := "",
        zlogs := ZlogsFrom(ws, vm.name))
  }

  /** Reading a machine back loses its checksum and the order of its logs; all else is kept. */
  lemma VMRoundTrip(t: Texts, vm: VM, w: Workload, ws: seq<Workload>)
    requires Answers(MachineWorkload(t, vm), w)
    requires var ips := PublicIPsOf(ws, PublicIPName(vm));
             (ips.ipv4.Some? <==> vm.publicIP) && (ips.ipv6.Some? <==> vm.publicIP6)
    ensures VMFrom(t, w, ws).Some?
    ensures VMFrom(t, w, ws).value == ReadVM(t, vm, w, ws) <==> VMKept(t, vm)
  {
    UnitsRoundTrip(vm.memory, MEGABYTE);
    UnitsRoundTrip(vm.rootfsSize, MEGABYTE);
    assert MountsFrom(MachineMounts(vm.mounts)) == vm.mounts;
    var got := VMFrom(t, w, ws).value;
    if got == ReadVM(t, vm, w, ws) {
      assert got.cpu == vm.cpu && got.memory == vm.memory && got.rootfsSize == vm.rootfsSize && got.ip == vm.ip;
    }
  }

  // ----- A node's answer -----

  /** The node's result has the shape the request calls for. */
  predicate ResultFits(data: WorkloadData, r: ResultData) {
    match data
    case ZMachine(_, _, _, _, planetary, _, _, _, _, _, _, _) => r.MachineResult? && (r.yggIP != "" <==> planetary)
    case ZDB(_, _, _, _) => r.ZDBResult?
    case PublicIP(v4, v6) => r.PublicIPResult? && (r.ipv4.Some? <==> v4) && (r.ipv6.Some? <==> v6)
    case QuantumSafeFS(_, _) => r.QSFSResult?
    case _ => true
  }

  /** `w` is the requested workload, deployed successfully; versions and results are the node's own. */
  predicate Answers(request: Workload, w: Workload) {
    && w.name == request.name && w.description == request.description && w.data == request.data
    && w.result.state == StateOk && ResultFits(request.data, w.result.data)
  }
}
