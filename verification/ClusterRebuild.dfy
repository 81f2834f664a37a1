/** What a rebuild of a cluster guarantees: the remote machines, each once, each with what is its own. */
module ClusterRebuild {
  import opened Wrappers
  import opened GridTypes
  import opened Slices
  import opened Units
  import opened Cluster
  import opened Workloads

  predicate IsKind(e: Entry, kind: WorkloadType, name: string) {
    e.w.data.Type() == kind && e.w.name == name
  }

  /** The size of the mount of that name, wherever it is; 0 if there is none. */
  ghost predicate OwnSize(log: seq<Entry>, name: string, size: int64) {
    && (forall d :: d in log && IsKind(d, ZMountType, name) ==> size == DiskSizeOf(d.w))
    && ((forall d :: d in log ==> !IsKind(d, ZMountType, name)) ==> size == 0)
  }

  /** The text read from the public-address workload of that name; empty if there is none. */
  ghost predicate OwnText(log: seq<Entry>, name: string, f: Entry -> string, text: string) {
    && (forall d :: d in log && IsKind(d, PublicIPType, name) ==> text == f(d))
    && ((forall d :: d in log ==> !IsKind(d, PublicIPType, name)) ==> text == "")
  }

  /** `k` is the remote machine `e`: on its node, with its own disk and public addresses. */
  ghost predicate IsMachine(o: Outside, log: seq<Entry>, e: Entry, k: K8sNode) {
    && NodeFrom(o, e.w, e.node, k.diskSize, k.computedIP, k.computedIP6) == Some(k)
    && OwnSize(log, e.w.name + "disk", k.diskSize)
    && OwnText(log, e.w.name + "ip", IPv4Reader(o), k.computedIP)
    && OwnText(log, e.w.name + "ip", IPv6Reader(o), k.computedIP6)
  }

  ghost predicate UniqueNames(log: seq<Entry>) {
    Unique(log, ZMachineType) && Unique(log, ZMountType) && Unique(log, PublicIPType)
  }

  lemma SizeIsOwn(o: Outside, log: seq<Entry>, name: string)
    requires Unique(log, ZMountType)
    ensures OwnSize(log, name, SizeAt(TablesOf(o, log).diskSize, name))
  {
    IndexHolds(log, ZMountType);
    forall d | d in log && IsKind(d, ZMountType, name)
      ensures SizeAt(TablesOf(o, log).diskSize, name) == DiskSizeOf(d.w) {
      IndexFindsEach(log, ZMountType, d);
    }
  }

  lemma TextIsOwn(log: seq<Entry>, name: string, f: Entry -> string)
    requires Unique(log, PublicIPType)
    ensures OwnText(log, name, f, TextAt(Column(Index(log, PublicIPType), f), name))
  {
    IndexHolds(log, PublicIPType);
    forall d | d in log && IsKind(d, PublicIPType, name)
      ensures TextAt(Column(Index(log, PublicIPType), f), name) == f(d) {
      IndexFindsEach(log, PublicIPType, d);
    }
  }

  lemma TableNames(o: Outside, log: seq<Entry>)
    ensures TablesOf(o, log).nodeID.Keys == TablesOf(o, log).obj.Keys == Index(log, ZMachineType).Keys
  {
  }

  /** The machine built under a name is the remote machine of that name. */
  lemma BuiltIsMachine(o: Outside, log: seq<Entry>, name: string, k: K8sNode) returns (e: Entry)
    requires UniqueNames(log) && Built(o, TablesOf(o, log), name) == Some(k)
    ensures e in log && IsKind(e, ZMachineType, name) && k.name == name && IsMachine(o, log, e, k)
  {
    IndexHolds(log, ZMachineType);
    TableNames(o, log);
    e := Index(log, ZMachineType)[name];
    SizeIsOwn(o, log, name + "disk");
    TextIsOwn(log, name + "ip", IPv4Reader(o));
    TextIsOwn(log, name + "ip", IPv6Reader(o));
  }

  lemma BuiltNames(o: Outside, log: seq<Entry>, names: seq<string>, nodes: seq<K8sNode>)
    requires AllBuilt(o, TablesOf(o, log), names, nodes)
    ensures NamesOf(nodes) == names
  {
    IndexHolds(log, ZMachineType);
    forall i | 0 <= i < |names| ensures nodes[i].name == names[i] {
      assert Built(o, TablesOf(o, log), names[i]) == Some(nodes[i]);
    }
  }

  lemma DistinctConcat(m: string, s: seq<string>, u: seq<string>)
    requires Distinct(s) && Distinct(u) && Members(u) !! Members(s) && m !in u
    ensures Distinct([m] + (s + u)) <==> m !in s
  {
    var all := [m] + (s + u);
    if m in s {
      var i :| 0 <= i < |s| && s[i] == m;
      assert all[0] == all[i + 1];
    }
    forall i, j | 0 <= i < |s| && 0 <= j < |u| ensures s[i] != u[j] {
      assert s[i] in Members(s) && u[j] in Members(u);
    }
  }

  /** Every machine of the cluster is a remote machine. */
  ghost predicate AllRemote(o: Outside, log: seq<Entry>, nodes: seq<K8sNode>) {
    forall k :: k in nodes ==> exists e :: e in log && IsKind(e, ZMachineType, k.name) && IsMachine(o, log, e, k)
  }

  /** Every remote machine is one of the cluster. */
  ghost predicate AllPresent(o: Outside, log: seq<Entry>, nodes: seq<K8sNode>) {
    forall e :: e in log && e.w.data.Type() == ZMachineType ==>
      exists k :: k in nodes && k.name == e.w.name && IsMachine(o, log, e, k)
  }

  lemma BuiltAreRemote(o: Outside, log: seq<Entry>, names: seq<string>, nodes: seq<K8sNode>)
    requires UniqueNames(log) && AllBuilt(o, TablesOf(o, log), names, nodes)
    ensures AllRemote(o, log, nodes)
  {
    forall k | k in nodes ensures exists e :: e in log && IsKind(e, ZMachineType, k.name) && IsMachine(o, log, e, k) {
      var i :| 0 <= i < |nodes| && nodes[i] == k;
      var e := BuiltIsMachine(o, log, names[i], k);
    }
  }

  lemma FindBuilt(o: Outside, log: seq<Entry>, names: seq<string>, nodes: seq<K8sNode>, e: Entry) returns (i: nat)
    requires UniqueNames(log) && AllBuilt(o, TablesOf(o, log), names, nodes)
    requires e in log && e.w.data.Type() == ZMachineType && e.w.name in names
    ensures i < |nodes| && nodes[i].name == e.w.name && IsMachine(o, log, e, nodes[i])
  {
    i :| 0 <= i < |names| && names[i] == e.w.name;
    var f := BuiltIsMachine(o, log, names[i], nodes[i]);
    assert e == f;
  }

  lemma BuiltCoversAll(o: Outside, log: seq<Entry>, names: seq<string>, nodes: seq<K8sNode>)
    requires UniqueNames(log) && AllBuilt(o, TablesOf(o, log), names, nodes)
    requires TablesOf(o, log).nodeID.Keys <= Members(names)
    ensures AllPresent(o, log, nodes)
  {
    forall e | e in log && e.w.data.Type() == ZMachineType
      ensures exists k :: k in nodes && k.name == e.w.name && IsMachine(o, log, e, k)
    {
      assert IsKind(e, ZMachineType, e.w.name);
      IsThereInTables(o, log, e.w.name);
      assert e.w.name in Members(names);
      var i := FindBuilt(o, log, names, nodes, e);
      assert nodes[i] in nodes;
    }
  }

  ghost predicate IsThere(log: seq<Entry>, name: string) {
    exists e :: e in log && IsKind(e, ZMachineType, name)
  }

  lemma IsThereInTables(o: Outside, log: seq<Entry>, name: string)
    requires IsThere(log, name)
    ensures name in TablesOf(o, log).nodeID
  {
    IndexHolds(log, ZMachineType);
    TableNames(o, log);
  }

  lemma BuiltIsSound(o: Outside, log: seq<Entry>, names: seq<string>, nodes: seq<K8sNode>)
    requires UniqueNames(log) && AllBuilt(o, TablesOf(o, log), names, nodes)
    requires TablesOf(o, log).nodeID.Keys <= Members(names)
    ensures AllRemote(o, log, nodes) && AllPresent(o, log, nodes) && NamesOf(nodes) == names
  {
    BuiltNames(o, log, names, nodes);
    BuiltAreRemote(o, log, names, nodes);
    BuiltCoversAll(o, log, names, nodes);
  }

  /** The names of the rebuilt machines: the master, the survivors, and the rest, covering all there are. */
  lemma RebuildNames(
      o: Outside, t: Tables, master: K8sNode, declared: seq<string>, master': Option<K8sNode>,
      workers': seq<K8sNode>, tail: seq<string>)
    returns (all: seq<string>)
    requires IsRebuild(o, t, master, declared, master', workers', tail) && master.name in t.nodeID
    ensures all == [master.name] + (Surviving(declared, t.nodeID.Keys) + tail)
    ensures master'.Some? && AllBuilt(o, t, all, [master'.value] + workers')
    ensures t.nodeID.Keys <= Members(all)
    ensures forall n :: n in tail ==> n !in declared
    ensures Distinct(all) <==> master.name !in declared
  {
    var names := Surviving(declared, t.nodeID.Keys);
    all := [master.name] + (names + tail);
    SurvivingAre(declared, t.nodeID.Keys);
    forall n | n in tail ensures n !in declared && n != master.name { assert n in Members(tail); }
    DistinctConcat(master.name, names, tail);
    AllBuiltConcat(o, t, [master.name], [master'.value], names + tail, workers');
    forall n | n in t.nodeID.Keys ensures n in Members(all) {
      if n !in names && n != master.name { assert n in Members(tail); }
    }
  }

  /**
   * The rebuilt cluster, when the master is still there and workload names are unique across nodes:
   * its machines are exactly the remote machines, each with its own disk size and addresses; the
   * surviving declared workers come first, in declared order; and no machine occurs twice exactly
   * when the master is not also declared as a worker, which `ValidateNames` checks.
   */
  lemma ClusterIsRebuilt(
      o: Outside, log: seq<Entry>, master: K8sNode, declared: seq<string>, master': Option<K8sNode>,
      workers': seq<K8sNode>,
      tail: seq<string>)
    requires UniqueNames(log) && IsRebuild(o, TablesOf(o, log), master, declared, master', workers', tail)
    requires IsThere(log, master.name)
    ensures master'.Some? && master'.value.name == master.name
    ensures AllRemote(o, log, [master'.value] + workers') && AllPresent(o, log, [master'.value] + workers')
    ensures NamesOf(workers') == Surviving(declared, Index(log, ZMachineType).Keys) + tail &&
            forall n :: n in tail ==> n !in declared
    ensures Distinct(NamesOf([master'.value] + workers')) <==> master.name !in declared
  {
    TableNames(o, log);
    IsThereInTables(o, log, master.name);
    var all := RebuildNames(o, TablesOf(o, log), master, declared, master', workers', tail);
    BuiltIsSound(o, log, all, [master'.value] + workers');
    BuiltNames(o, log, Surviving(declared, TablesOf(o, log).nodeID.Keys) + tail, workers');
  }

  // ----- One node, printed and read back -----

  /** The machine a cluster node is printed to; its disk is named after it. */
  function MachineRequest(parseIP: string -> Option<IP>, k: K8sNode, shared: Settings, url: string): Workload {
    Request(k.name, "", ZMachine(
      k.flist, shared.networkName, parseIP(k.ip), if k.publicIP || k.publicIP6 then k.name + "ip" else "", k.planetary,
      k.cpu % 256, ToUnits(k.memory, MEGABYTE), 0, "/sbin/zinit init", false,
          [MachineMount(k.name + "disk", "/mydisk")],
      map["SSH_KEY" := shared.sshKey, "K3S_TOKEN" := shared.token, "K3S_DATA_DIR" := "/mydisk",
          "K3S_FLANNEL_IFACE" := "eth0",
          "K3S_NODE_NAME" := k.name, "K3S_URL" := url]))
  }

  function DiskRequest(k: K8sNode): Workload {
    Request(k.name + "disk", "", ZMount(ToUnits(k.diskSize, GIGABYTE)))
  }

  /** Disk first, then the public address if any, then the machine. */
  function NodeRequests(parseIP: string -> Option<IP>, k: K8sNode, shared: Settings, url: string): seq<Workload> {
    [DiskRequest(k)]
    + (if k.publicIP || k.publicIP6 then [Request(k.name + "ip", "", PublicIP(k.publicIP, k.publicIP6))] else [])
    + [MachineRequest(parseIP, k, shared, url)]
  }

  /** The declared node with what only the grid can tell. */
  function Observed(k: K8sNode, got: K8sNode): K8sNode {
    k.(publicIP := got.publicIP, publicIP6 := got.publicIP6, computedIP := got.computedIP,
        computedIP6 := got.computedIP6,
       yggIP := got.yggIP)
  }

  /** The settings the machines carry are those the cluster follows, and their disk is found by name. */
  lemma NodeRoundTrip(
      o: Outside, parseIP: string -> Option<IP>, k: K8sNode, shared: Settings, url: string, w: Workload,
      ip: string, ip6: string)
    requires Answers(MachineRequest(parseIP, k, shared, url), w) && o.checksum(k.flist) == Some(k.flistChecksum)
    ensures SettingsOf(w) == shared
    ensures var got := NodeFrom(o, w, k.node, DiskSizeOf(DiskRequest(k)), ip, ip6);
            && got.Some? && got.value.computedIP == ip && got.value.computedIP6 == ip6
            && got.value.publicIP == (ip != "") && got.value.publicIP6 == (ip6 != "") &&
               got.value.yggIP == w.result.data.yggIP
            && (got.value == Observed(k, got.value) <==>
                0 <= k.cpu < 256 && SizeFits(k.memory, MEGABYTE) && SizeFits(k.diskSize, GIGABYTE) &&
                    o.showIP(parseIP(k.ip)) == k.ip)
  {
    UnitsRoundTrip(k.memory, MEGABYTE);
    UnitsRoundTrip(k.diskSize, GIGABYTE);
    var got := NodeFrom(o, w, k.node, DiskSizeOf(DiskRequest(k)), ip, ip6);
    if got.value == Observed(k, got.value) {
      assert got.value.cpu == k.cpu && got.value.memory == k.memory && got.value.diskSize == k.diskSize &&
          got.value.ip == k.ip;
    }
  }

  /** The node holds an answer to each request. */
  ghost predicate HasAnswers(log: seq<Entry>, node: NodeId, requests: seq<Workload>) {
    forall q :: q in requests ==> exists w :: Entry(node, w) in log && Answers(q, w)
  }

  /** The node is built from the answers to its own machine and its own disk. */
  lemma BuiltFromAnswers(o: Outside, k: K8sNode, log: seq<Entry>, w: Workload, d: Workload)
    requires UniqueNames(log) && Entry(k.node, w) in log && Entry(k.node, d) in log
    requires w.name == k.name && w.data.Type() == ZMachineType && Answers(DiskRequest(k), d)
    ensures var t := TablesOf(o, log);
            Built(o, t, k.name) ==
                NodeFrom(o, w, k.node, DiskSizeOf(DiskRequest(k)), TextAt(t.publicIPs, k.name + "ip"),
                                            TextAt(t.publicIP6s, k.name + "ip"))
  {
    TableNames(o, log);
    IndexFindsEach(log, ZMachineType, Entry(k.node, w));
    SizeIsOwn(o, log, k.name + "disk");
    assert IsKind(Entry(k.node, d), ZMountType, k.name + "disk");
  }

  /**
   * A printed node whose requests were answered, among any others with unique names and whatever the
   * order, is rebuilt as declared exactly when its CPU count and sizes fit and its address is canonical.
   */
  lemma PrintedNodeIsRebuilt(
      o: Outside, parseIP: string -> Option<IP>, k: K8sNode, shared: Settings, url: string, log: seq<Entry>)
    requires UniqueNames(log) && HasAnswers(log, k.node, NodeRequests(parseIP, k, shared, url))
    requires o.checksum(k.flist) == Some(k.flistChecksum)
    ensures var got := Built(o, TablesOf(o, log), k.name);
            && got.Some? && OwnText(log, k.name + "ip", IPv4Reader(o), got.value.computedIP)
            && OwnText(log, k.name + "ip", IPv6Reader(o), got.value.computedIP6)
            && (got.value == Observed(k, got.value) <==>
                0 <= k.cpu < 256 && SizeFits(k.memory, MEGABYTE) && SizeFits(k.diskSize, GIGABYTE) &&
                    o.showIP(parseIP(k.ip)) == k.ip)
  {
    var requests, t := NodeRequests(parseIP, k, shared, url), TablesOf(o, log);
    var machine, disk := MachineRequest(parseIP, k, shared, url), DiskRequest(k);
    assert machine in requests && disk in requests;
    var w :| Entry(k.node, w) in log && Answers(machine, w);
    var d :| Entry(k.node, d) in log && Answers(disk, d);
    BuiltFromAnswers(o, k, log, w, d);
    TextIsOwn(log, k.name + "ip", IPv4Reader(o));
    TextIsOwn(log, k.name + "ip", IPv6Reader(o));
    NodeRoundTrip(o, parseIP, k, shared, url, w, TextAt(t.publicIPs, k.name + "ip"),
        TextAt(t.publicIP6s, k.name + "ip"));
  }
}
