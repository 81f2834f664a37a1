/** Rebuilding a Kubernetes cluster's master and workers from what the nodes hold. */
module Cluster {
  import opened Wrappers
  import opened GridTypes
  import opened Slices
  import opened Units

  datatype K8sNode = K8sNode(
    name: string, node: NodeId, diskSize: int64, publicIP: bool, publicIP6: bool, planetary: bool, flist: string,
    flistChecksum: string, computedIP: string, computedIP6: string, yggIP: string, ip: string, cpu: int64,
    memory: int64)

  /** Image checksums, and the texts of machine addresses and of public ranges; the latter are the library's. */
  datatype Outside = Outside(checksum: string -> Option<string>, showIP: Option<IP> -> string,
      showRange: Option<string> -> string)

  type Remotes = map<NodeId, Deployment>

  /** A workload and the node that holds it. */
  datatype Entry = Entry(node: NodeId, w: Workload)

  // ----- Validating names -----

  function NamesOf(nodes: seq<K8sNode>): seq<string> {
    seq(|nodes|, i requires 0 <= i < |nodes| => nodes[i].name)
  }

  method ValidateNames(master: K8sNode, workers: seq<K8sNode>) returns (ok: bool)
    ensures ok <==> Distinct([master.name] + NamesOf(workers))
  {
    var names: set<string> := {master.name};
    ghost var all := [master.name] + NamesOf(workers);
    for i := 0 to |workers|
      invariant forall n :: n in names <==> n in all[..i + 1]
      invariant Distinct(all[..i + 1])
    {
      assert all[i + 1] == workers[i].name && all[..i + 2] == all[..i + 1] + [all[i + 1]];
      if workers[i].name in names {
        ghost var j :| 0 <= j < i + 1 && all[j] == workers[i].name;
        return false;
      }
      names := names + {workers[i].name};
    }
    assert all[..|workers| + 1] == all;
    return true;
  }

  // ----- One machine -----

  function NodeFrom(o: Outside, w: Workload, node: NodeId, diskSize: int64, ip: string, ip6: string): Option<K8sNode> {
    if !w.data.ZMachine? then None
    else if w.result != PENDING && !w.result.data.MachineResult? then None
    else
      var yggIP, sum := if w.result.data.MachineResult? then w.result.data.yggIP else "", o.checksum(w.data.flist);
      if sum.None? then None
      else Some(K8sNode(w.name, node, diskSize, ip != "", ip6 != "", yggIP != "", w.data.flist, sum.value, ip, ip6,
          yggIP,
                        o.showIP(w.data.ip), w.data.cpu, FromUnits(w.data.memory, MEGABYTE)))
  }

  // ----- Indexing what the nodes hold -----

  /** `log` lists exactly the workloads of all nodes; the order of nodes is any. */
  ghost predicate Visits(current: Remotes, log: seq<Entry>) {
    forall e :: e in log <==> e.node in current && e.w in current[e.node].workloads
  }

  /** The last visited entry of a type under each name. */
  function Index(log: seq<Entry>, kind: WorkloadType): map<string, Entry> {
    if log == [] then map[]
    else
      var e := log[|log| - 1];
      var init := Index(log[..|log| - 1], kind);
      if e.w.data.Type() == kind then init[e.w.name := e] else init
  }

  /** Among all nodes, names of that type occur once. */
  ghost predicate Unique(log: seq<Entry>, kind: WorkloadType) {
    forall e, f ::
      e in log && f in log && e.w.data.Type() == kind && f.w.data.Type() == kind && e.w.name == f.w.name ==> e == f
  }

  /** The index finds an entry of the type under each of its names, and every name of the type is found. */
  lemma {:induction false} IndexHolds(log: seq<Entry>, kind: WorkloadType)
    ensures forall n :: n in Index(log, kind) ==>
              Index(log, kind)[n] in log && Index(log, kind)[n].w.name == n && Index(log, kind)[n].w.data.Type() == kind
    ensures forall e :: e in log && e.w.data.Type() == kind ==> e.w.name in Index(log, kind)
    decreases |log|
  {
    if log != [] {
      var init, last := log[..|log| - 1], log[|log| - 1];
      assert log == init + [last];
      IndexHolds(init, kind);
    }
  }

  /** Under unique names the index gives every entry, whatever order the nodes were visited in. */
  lemma IndexFindsEach(log: seq<Entry>, kind: WorkloadType, e: Entry)
    requires Unique(log, kind) && e in log && e.w.data.Type() == kind
    ensures e.w.name in Index(log, kind) && Index(log, kind)[e.w.name] == e
  {
    IndexHolds(log, kind);
  }

  /** Machines, mounts and public addresses parse, or the rebuild stops. */
  predicate Parses(w: Workload) {
    match w.data.Type()
    case ZMachineType => w.data.ZMachine?
    case PublicIPType => w.result.data.PublicIPResult?
    case ZMountType => w.data.ZMount?
    case _ => true
  }

  /** The five maps filled from the workloads, by workload name. */
  datatype Tables = Tables(
    nodeID: map<string, NodeId>, obj: map<string, Workload>,
    publicIPs: map<string, string>, publicIP6s: map<string, string>, diskSize: map<string, int64>)

  function DiskSizeOf(w: Workload): int64 {
    if w.data.ZMount? then FromUnits(w.data.diskSize, GIGABYTE) else 0
  }

  function IPv4Of(o: Outside, w: Workload): string {
    if w.result.data.PublicIPResult? then o.showRange(w.result.data.ipv4) else ""
  }

  function IPv6Of(o: Outside, w: Workload): string {
    if w.result.data.PublicIPResult? then o.showRange(w.result.data.ipv6) else ""
  }

  /** One column of a table: what `f` reads from each indexed entry. */
  function Column<T>(index: map<string, Entry>, f: Entry -> T): map<string, T> {
    map n | n in index :: f(index[n])
  }

  lemma ColumnUpdate<T>(index: map<string, Entry>, f: Entry -> T, e: Entry)
    ensures Column(index[e.w.name := e], f) == Column(index, f)[e.w.name := f(e)]
  {
  }

  lemma IndexLast(log: seq<Entry>, e: Entry, kind: WorkloadType)
    ensures Index(log + [e], kind) ==
            if e.w.data.Type() == kind then Index(log, kind)[e.w.name := e] else Index(log, kind)
  {
    assert (log + [e])[..|log|] == log;
  }

  function NodeReader(): Entry -> NodeId { (e: Entry) => e.node }

  function ObjReader(): Entry -> Workload { (e: Entry) => e.w }

  function DiskReader(): Entry -> int64 { (e: Entry) => DiskSizeOf(e.w) }

  function IPv4Reader(o: Outside): Entry -> string { (e: Entry) => IPv4Of(o, e.w) }

  function IPv6Reader(o: Outside): Entry -> string { (e: Entry) => IPv6Of(o, e.w) }

  function TablesOf(o: Outside, log: seq<Entry>): Tables {
    var machines, mounts, ips := Index(log, ZMachineType), Index(log, ZMountType), Index(log, PublicIPType);
    Tables(Column(machines, NodeReader()), Column(machines, ObjReader()), Column(ips, IPv4Reader(o)),
        Column(ips, IPv6Reader(o)),
           Column(mounts, DiskReader()))
  }

  /** Fills the tables with one workload. */
  method Record(o: Outside, t: Tables, node: NodeId, w: Workload, ghost log: seq<Entry>) returns (r: Tables)
    requires t == TablesOf(o, log) && Parses(w)
    ensures r == TablesOf(o, log + [Entry(node, w)])
  {
    ghost var e := Entry(node, w);
    IndexLast(log, e, ZMachineType);
    IndexLast(log, e, ZMountType);
    IndexLast(log, e, PublicIPType);
    r := t;
    match w.data.Type() {
      case ZMachineType =>
        ColumnUpdate(Index(log, ZMachineType), NodeReader(), e);
        ColumnUpdate(Index(log, ZMachineType), ObjReader(), e);
        r := r.(nodeID := r.nodeID[w.name := node], obj := r.obj[w.name := w]);
      case PublicIPType =>
        ColumnUpdate(Index(log, PublicIPType), IPv4Reader(o), e);
        ColumnUpdate(Index(log, PublicIPType), IPv6Reader(o), e);
        r := r.(publicIPs := r.publicIPs[w.name := IPv4Of(o, w)], publicIP6s := r.publicIP6s[w.name := IPv6Of(o, w)]);
      case ZMountType =>
        ColumnUpdate(Index(log, ZMountType), DiskReader(), e);
        r := r.(diskSize := r.diskSize[w.name := DiskSizeOf(w)]);
      case _ =>
    }
  }

  /** Entries of some nodes only. */
  ghost predicate VisitsOnly(current: Remotes, log: seq<Entry>, nodes: set<NodeId>) {
    forall e :: e in log <==> e.node in nodes && e.node in current && e.w in current[e.node].workloads
  }

  ghost function Entries(node: NodeId, ws: seq<Workload>): seq<Entry> {
    seq(|ws|, i requires 0 <= i < |ws| => Entry(node, ws[i]))
  }

  lemma EntriesAre(node: NodeId, ws: seq<Workload>, e: Entry)
    ensures e in Entries(node, ws) <==> e.node == node && e.w in ws
  {
    if e.node == node && e.w in ws {
      var i :| 0 <= i < |ws| && ws[i] == e.w;
      assert Entries(node, ws)[i] == e;
    }
  }

  lemma OneMoreNode(current: Remotes, log: seq<Entry>, nodes: set<NodeId>, node: NodeId)
    requires node in current && VisitsOnly(current, log, nodes)
    ensures VisitsOnly(current, log + Entries(node, current[node].workloads), nodes + {node})
  {
    forall e ensures e in log + Entries(node, current[node].workloads)
                <==> e.node in nodes + {node} && e.node in current && e.w in current[e.node].workloads
    {
      EntriesAre(node, current[node].workloads, e);
    }
  }

  /** One node's workloads, in their order; None when one does not parse. */
  method RecordNode(o: Outside, t: Tables, node: NodeId, ws: seq<Workload>, ghost log: seq<Entry>)
    returns (r: Option<Tables>)
    requires t == TablesOf(o, log)
    ensures r == if forall w :: w in ws ==> Parses(w) then Some(TablesOf(o, log + Entries(node, ws))) else None
  {
    var all := t;
    assert log + Entries(node, ws[..0]) == log;
    for i := 0 to |ws|
      invariant all == TablesOf(o, log + Entries(node, ws[..i]))
      invariant forall w :: w in ws[..i] ==> Parses(w)
    {
      assert ws[i] in ws;
      if !Parses(ws[i]) { return None; }
      all := Record(o, all, node, ws[i], log + Entries(node, ws[..i]));
      assert log + Entries(node, ws[..i + 1]) == log + Entries(node, ws[..i]) + [Entry(node, ws[i])];
    }
    assert ws[..|ws|] == ws;
    r := Some(all);
  }

  ghost predicate AllParse(current: Remotes) {
    forall n, w :: n in current && w in current[n].workloads ==> Parses(w)
  }

  /** All nodes in any order. */
  method RecordAll(o: Outside, current: Remotes) returns (r: Option<Tables>, ghost log: seq<Entry>)
    ensures r.Some? <==> AllParse(current)
    ensures r.Some? ==> Visits(current, log) && r.value == TablesOf(o, log)
  {
    log := [];
    var t := Tables(map[], map[], map[], map[], map[]);
    var nodes := current.Keys;
    while nodes != {}
      invariant nodes <= current.Keys && t == TablesOf(o, log)
      invariant VisitsOnly(current, log, current.Keys - nodes)
      invariant forall n, w :: n in current.Keys - nodes && w in current[n].workloads ==> Parses(w)
      decreases nodes
    {
      var node :| node in nodes;
      var more := RecordNode(o, t, node, current[node].workloads, log);
      if more.None? { return None, log; }
      OneMoreNode(current, log, current.Keys - nodes, node);
      assert current.Keys - nodes + {node} == current.Keys - (nodes - {node});
      t, log := more.value, log + Entries(node, current[node].workloads);
      nodes := nodes - {node};
    }
    r := Some(t);
  }

  // ----- The shared settings -----

  datatype Settings = Settings(sshKey: string, token: string, networkName: string)

  function EnvOf(w: Workload, key: string): string {
    if w.data.ZMachine? && key in w.data.env then w.data.env[key] else ""
  }

  function SettingsOf(w: Workload): Settings {
    Settings(EnvOf(w, "SSH_KEY"), EnvOf(w, "K3S_TOKEN"), if w.data.ZMachine? then w.data.network else "")
  }

  /** The first value that differs from the one before is taken; later ones are ignored. */
  function Follow(before: Settings, now: Settings, offered: Settings): Settings {
    Settings(if now.sshKey != before.sshKey then now.sshKey else offered.sshKey,
             if now.token != before.token then now.token else offered.token,
             if now.networkName != before.networkName then now.networkName else offered.networkName)
  }

  function SettingsAfter(log: seq<Entry>, before: Settings): Settings {
    if log == [] then before
    else
      var now, e := SettingsAfter(log[..|log| - 1], before), log[|log| - 1];
      if e.w.data.Type() == ZMachineType then Follow(before, now, SettingsOf(e.w)) else now
  }

  lemma SettingsLast(log: seq<Entry>, e: Entry, before: Settings)
    ensures var now := SettingsAfter(log, before);
            SettingsAfter(log + [e], before) ==
                if e.w.data.Type() == ZMachineType then Follow(before, now, SettingsOf(e.w)) else now
  {
    assert (log + [e])[..|log|] == log;
  }

  /** If the machines agree on their settings and there is one, the cluster takes them over. */
  lemma {:induction false} AgreedSettings(log: seq<Entry>, before: Settings, agreed: Settings)
    requires forall e :: e in log && e.w.data.Type() == ZMachineType ==> SettingsOf(e.w) == agreed
    ensures SettingsAfter(log, before)
         == if exists e :: e in log && e.w.data.Type() == ZMachineType then agreed else before
    decreases |log|
  {
    if log != [] {
      var init, last := log[..|log| - 1], log[|log| - 1];
      assert log == init + [last];
      AgreedSettings(init, before, agreed);
    }
  }

  ghost predicate MachinesParse(ws: seq<Workload>) {
    forall w :: w in ws && w.data.Type() == ZMachineType ==> w.data.ZMachine?
  }

  /** One machine: each setting still as before takes a different value. */
  method FollowOne(before: Settings, now: Settings, w: Workload) returns (s: Settings)
    ensures s == Follow(before, now, SettingsOf(w))
  {
    s := now;
    var offered := SettingsOf(w);
    if s.sshKey == before.sshKey && offered.sshKey != before.sshKey { s := s.(sshKey := offered.sshKey); }
    if s.token == before.token && offered.token != before.token { s := s.(token := offered.token); }
    if s.networkName == before.networkName && offered.networkName != before.networkName {
      s := s.(networkName := offered.networkName);
    }
  }

  /** One node's machines; the source panics on a machine that does not parse. */
  method FollowNode(before: Settings, current: Settings, node: NodeId, ws: seq<Workload>, ghost log: seq<Entry>)
    returns (s: Settings, ok: bool)
    requires current == SettingsAfter(log, before)
    ensures ok <==> MachinesParse(ws)
    ensures ok ==> s == SettingsAfter(log + Entries(node, ws), before)
  {
    s := current;
    assert log + Entries(node, ws[..0]) == log;
    for i := 0 to |ws|
      invariant s == SettingsAfter(log + Entries(node, ws[..i]), before)
      invariant MachinesParse(ws[..i])
    {
      assert ws[i] in ws;
      if ws[i].data.Type() == ZMachineType {
        if !ws[i].data.ZMachine? { return s, false; }
        s := FollowOne(before, s, ws[i]);
      }
      SettingsLast(log + Entries(node, ws[..i]), Entry(node, ws[i]), before);
      assert log + Entries(node, ws[..i + 1]) == log + Entries(node, ws[..i]) + [Entry(node, ws[i])];
    }
    assert ws[..|ws|] == ws;
    ok := true;
  }

  ghost predicate AllMachinesParse(current: Remotes) {
    forall n :: n in current ==> MachinesParse(current[n].workloads)
  }

  method FollowAll(before: Settings, current: Remotes) returns (s: Settings, ok: bool, ghost log: seq<Entry>)
    ensures ok <==> AllMachinesParse(current)
    ensures ok ==> Visits(current, log) && s == SettingsAfter(log, before)
  {
    s, log := before, [];
    var nodes := current.Keys;
    while nodes != {}
      invariant nodes <= current.Keys && s == SettingsAfter(log, before)
      invariant VisitsOnly(current, log, current.Keys - nodes)
      invariant forall n :: n in current.Keys - nodes ==> MachinesParse(current[n].workloads)
      decreases nodes
    {
      var node :| node in nodes;
      s, ok := FollowNode(before, s, node, current[node].workloads, log);
      if !ok { return; }
      OneMoreNode(current, log, current.Keys - nodes, node);
      assert current.Keys - nodes + {node} == current.Keys - (nodes - {node});
      log := log + Entries(node, current[node].workloads);
      nodes := nodes - {node};
    }
    ok := true;
  }

  // ----- Assembling the cluster -----

  function SizeAt(m: map<string, int64>, name: string): int64 {
    if name in m then m[name] else 0
  }

  function TextAt(m: map<string, string>, name: string): string {
    if name in m then m[name] else ""
  }

  /** The machine of that name with what the tables hold for it: its disk and its public addresses. */
  function NodeAt(o: Outside, t: Tables, name: string, node: NodeId): Option<K8sNode>
    requires name in t.obj
  {
    NodeFrom(o, t.obj[name], node, SizeAt(t.diskSize, name + "disk"),
             TextAt(t.publicIPs, name + "ip"), TextAt(t.publicIP6s, name + "ip"))
  }

  function Built(o: Outside, t: Tables, name: string): Option<K8sNode> {
    if name !in t.obj || name !in t.nodeID then None else NodeAt(o, t, name, t.nodeID[name])
  }

  ghost predicate AllBuilt(o: Outside, t: Tables, names: seq<string>, nodes: seq<K8sNode>) {
    |nodes| == |names| && forall i :: 0 <= i < |names| ==> Built(o, t, names[i]) == Some(nodes[i])
  }

  /** The declared names that are still there, each taken once. */
  function Surviving(names: seq<string>, there: set<string>): seq<string> {
    if names == [] then []
    else
      var init, n := Surviving(names[..|names| - 1], there), names[|names| - 1];
      if n in there && n !in init then init + [n] else init
  }

  lemma {:induction false} SurvivingAre(names: seq<string>, there: set<string>)
    ensures forall n :: n in Surviving(names, there) <==> n in names && n in there
    ensures Distinct(Surviving(names, there))
    decreases |names|
  {
    if names != [] {
      assert names == names[..|names| - 1] + [names[|names| - 1]];
      SurvivingAre(names[..|names| - 1], there);
    }
  }

  ghost function Members(names: seq<string>): set<string> {
    set n | n in names
  }

  lemma MembersAppend(names: seq<string>, n: string)
    ensures Members(names + [n]) == Members(names) + {n}
  {
  }

  lemma BuiltMembers(o: Outside, t: Tables, names: seq<string>, nodes: seq<K8sNode>, n: string)
    requires AllBuilt(o, t, names, nodes) && n in Members(names)
    ensures Built(o, t, n).Some?
  {
    var i :| 0 <= i < |names| && names[i] == n;
  }

  lemma {:induction false} SurvivingGrows(names: seq<string>, there: set<string>, i: nat)
    requires i <= |names|
    ensures Surviving(names[..i], there) <= Surviving(names, there)
    decreases |names| - i
  {
    if i == |names| {
      assert names[..i] == names;
    } else {
      assert names[..i + 1][..i] == names[..i];
      SurvivingGrows(names, there, i + 1);
    }
  }

  /** One more declared name survives exactly when it was not taken yet. */
  lemma SurvivingStep(names: seq<string>, there: set<string>, i: nat)
    requires i < |names|
    ensures var init := Surviving(names[..i], there);
            Surviving(names[..i + 1], there) == if names[i] in there - Members(init) then init + [names[i]] else init
  {
    assert names[..i + 1][..i] == names[..i];
  }

  ghost predicate Buildable(o: Outside, t: Tables, names: seq<string>) {
    forall n :: n in names ==> Built(o, t, n).Some?
  }

  lemma AllBuiltAppend(o: Outside, t: Tables, names: seq<string>, nodes: seq<K8sNode>, n: string, k: K8sNode)
    requires AllBuilt(o, t, names, nodes) && Built(o, t, n) == Some(k)
    ensures AllBuilt(o, t, names + [n], nodes + [k])
  {
  }

  lemma TakenAppend(m: map<string, NodeId>, names: seq<string>, n: string)
    ensures m - Members(names) - {n} == m - Members(names + [n])
  {
  }

  lemma NotBuildable(o: Outside, t: Tables, names: seq<string>, all: seq<string>)
    requires names != [] && names <= all && Built(o, t, names[|names| - 1]).None?
    ensures !Buildable(o, t, all)
  {
    assert all[|names| - 1] == names[|names| - 1] && all[|names| - 1] in all;
  }

  lemma AllBuiltBuildable(o: Outside, t: Tables, names: seq<string>, nodes: seq<K8sNode>)
    requires AllBuilt(o, t, names, nodes)
    ensures Buildable(o, t, names)
  {
    forall n | n in names ensures Built(o, t, n).Some? { BuiltMembers(o, t, names, nodes, n); }
  }

  /** The declared workers that are still there, in declared order; `left` keeps the machines not taken. */
  method KeepWorkers(o: Outside, t: Tables, declared: seq<K8sNode>)
    returns (workers: Option<seq<K8sNode>>, left: map<string, NodeId>)
    requires t.obj.Keys == t.nodeID.Keys
    ensures var names := Surviving(NamesOf(declared), t.nodeID.Keys);
            && (workers.Some? <==> Buildable(o, t, names))
            && (workers.Some? ==> AllBuilt(o, t, names, workers.value) && left == t.nodeID - Members(names))
  {
    var ws: seq<K8sNode> := [];
    left := t.nodeID;
    ghost var all, names := NamesOf(declared), [];
    for i := 0 to |declared|
      invariant names == Surviving(all[..i], t.nodeID.Keys) && AllBuilt(o, t, names, ws)
      invariant left == t.nodeID - Members(names)
    {
      SurvivingStep(all, t.nodeID.Keys, i);
      var name := declared[i].name;
      if name in left {
        var node := NodeAt(o, t, name, left[name]);
        assert node == Built(o, t, name);
        left := left - {name};
        TakenAppend(t.nodeID, names, name);
        if node.None? {
          SurvivingGrows(all, t.nodeID.Keys, i + 1);
          NotBuildable(o, t, names + [name], Surviving(all, t.nodeID.Keys));
          return None, left;
        }
        AllBuiltAppend(o, t, names, ws, name, node.value);
        ws, names := ws + [node.value], names + [name];
      }
    }
    assert all[..|declared|] == all;
    AllBuiltBuildable(o, t, names, ws);
    workers := Some(ws);
  }

  datatype Tail = Tail(workers: seq<K8sNode>) | TailFailed | NoMaster

  function NameOf(master: Option<K8sNode>): set<string> {
    if master.Some? then {master.value.name} else {}
  }

  /** The machines left over, in any order, but not the master; without a master the first one panics. */
  method AddMissing(o: Outside, t: Tables, left: map<string, NodeId>, master: Option<K8sNode>)
    returns (r: Tail, ghost names: seq<string>)
    requires t.obj.Keys == t.nodeID.Keys && left.Keys <= t.nodeID.Keys &&
             forall n :: n in left ==> left[n] == t.nodeID[n]
    ensures r.NoMaster? <==> master.None? && left != map[]
    ensures r.TailFailed? ==> exists n :: n in left.Keys - NameOf(master) && Built(o, t, n).None?
    ensures r.Tail? ==>
            AllBuilt(o, t, names, r.workers) && Distinct(names) && Members(names) == left.Keys - NameOf(master)
  {
    var ws: seq<K8sNode> := [];
    names := [];
    var todo := left.Keys;
    while todo != {}
      invariant todo <= left.Keys && AllBuilt(o, t, names, ws) && Distinct(names)
      invariant Members(names) == left.Keys - todo - NameOf(master)
      invariant master.None? ==> todo == left.Keys
      decreases todo
    {
      var name :| name in todo;
      if master.None? { return NoMaster, names; }
      if name != master.value.name {
        assert name !in Members(names);
        var node := NodeAt(o, t, name, left[name]);
        if node.None? {
          assert Built(o, t, name).None? && name in left.Keys - NameOf(master);
          return TailFailed, names;
        }
        MembersAppend(names, name);
        ws, names := ws + [node.value], names + [name];
      }
      todo := todo - {name};
    }
    r := Tail(ws);
  }

  datatype Outcome = Rebuilt | Failed | Panicked

  function ContractsOf(current: Remotes): map<NodeId, ContractId> {
    map n | n in current :: current[n].contractID
  }

  /** What a rebuild gives: the master if it is there, the surviving workers in order, and a tail of the rest. */
  ghost predicate IsRebuild(
      o: Outside, t: Tables, master: K8sNode, declared: seq<string>, master': Option<K8sNode>,
      workers': seq<K8sNode>, tail: seq<string>)
  {
    && master' == (if master.name in t.nodeID then Built(o, t, master.name) else None)
    && (master.name in t.nodeID ==> master'.Some? && master'.value.name == master.name)
    && AllBuilt(o, t, Surviving(declared, t.nodeID.Keys) + tail, workers')
    && Distinct(tail) && Members(tail) == t.nodeID.Keys - Members(Surviving(declared, t.nodeID.Keys)) - NameOf(master')
  }

  /** When a rebuild succeeds: everything parses and builds, and without a master no unknown machine is left. */
  ghost predicate CanRebuild(o: Outside, t: Tables, master: K8sNode, declared: seq<string>) {
    && (forall n :: n in t.nodeID ==> Built(o, t, n).Some?)
    && (master.name in t.nodeID || t.nodeID.Keys <= Members(declared))
  }

  class K8sCluster {
    var Master: Option<K8sNode>
    var Workers: seq<K8sNode>
    var SSHKey: string
    var Token: string
    var NetworkName: string
    var NodeDeploymentID: map<NodeId, ContractId>

    constructor (master: K8sNode, workers: seq<K8sNode>, sshKey: string, token: string, networkName: string)
      ensures Master == Some(master) && Workers == workers && SSHKey == sshKey && Token == token &&
              NetworkName == networkName
      ensures NodeDeploymentID == map[]
    {
      Master, Workers, SSHKey, Token, NetworkName := Some(master), workers, sshKey, token, networkName;
      NodeDeploymentID := map[];
    }

    function Shared(): Settings
      reads this
    {
      Settings(SSHKey, Token, NetworkName)
    }

    method UpdateSettings(current: Remotes) returns (ok: bool, ghost log: seq<Entry>)
      modifies this`SSHKey, this`Token, this`NetworkName
      ensures ok <==> AllMachinesParse(current)
      ensures ok ==> Visits(current, log) && Shared() == SettingsAfter(log, old(Shared()))
    {
      var s;
      s, ok, log := FollowAll(Shared(), current);
      SSHKey, Token, NetworkName := s.sshKey, s.token, s.networkName;
    }

    /** Tracks the contracts the nodes report. */
    method UpdateContracts(current: Remotes)
      modifies this`NodeDeploymentID
      ensures NodeDeploymentID == ContractsOf(current)
    {
      var ids: map<NodeId, ContractId> := map[];
      var nodes := current.Keys;
      while nodes != {}
        invariant nodes <= current.Keys && ids == map n | n in current && n !in nodes :: current[n].contractID
        decreases nodes
      {
        var node :| node in nodes;
        ids := ids[node := current[node].contractID];
        nodes := nodes - {node};
      }
      NodeDeploymentID := ids;
    }

    /** Master and workers from the filled tables. */
    method Assemble(o: Outside, t: Tables, master: K8sNode) returns (r: Outcome, ghost tail: seq<string>)
      requires t.obj.Keys == t.nodeID.Keys && Master == Some(master) && forall n :: n in t.obj ==> t.obj[n].name == n
      modifies this`Master, this`Workers
      ensures r.Rebuilt? <==> CanRebuild(o, t, master, NamesOf(old(Workers)))
      ensures r.Rebuilt? ==> IsRebuild(o, t, master, NamesOf(old(Workers)), Master, Workers, tail)
      ensures !r.Rebuilt? ==> Workers == old(Workers)
    {
      tail := [];
      ghost var declared := NamesOf(Workers);
      SurvivingAre(declared, t.nodeID.Keys);
      if master.name !in t.nodeID {
        Master := None;
      } else {
        var m := Built(o, t, master.name);
        if m.None? { return Failed, tail; }
        Master := m;
      }
      var kept, left := KeepWorkers(o, t, Workers);
      if kept.None? { return Failed, tail; }
      var rest;
      rest, tail := AddMissing(o, t, left, Master);
      match rest {
        case NoMaster => return Panicked, tail;
        case TailFailed => return Failed, tail;
        case Tail(more) =>
          ghost var names := Surviving(declared, t.nodeID.Keys);
          AllBuiltConcat(o, t, names, kept.value, tail, more);
          assert left.Keys == t.nodeID.Keys - Members(names);
          RebuildsAll(o, t, master, declared, Master, names, kept.value, more, tail);
          Workers := kept.value + more;
          return Rebuilt, tail;
      }
    }

    /** Rebuilds the cluster from the deployments of its nodes. */
    method Rebuild(o: Outside, current: Remotes)
      returns (r: Outcome, ghost log: seq<Entry>, ghost tail: seq<string>)
      modifies this
      ensures r.Rebuilt? <==>
                && AllParse(current) && old(Master).Some?
                && Visits(current, log) && CanRebuild(o, TablesOf(o, log), old(Master).value, NamesOf(old(Workers)))
      ensures r.Rebuilt? ==>
              IsRebuild(o, TablesOf(o, log), old(Master).value, NamesOf(old(Workers)), Master, Workers, tail)
      ensures AllMachinesParse(current) ==>
              exists order :: Visits(current, order) && Shared() == SettingsAfter(order, old(Shared()))
      ensures !r.Rebuilt? ==> Workers == old(Workers)
      ensures NodeDeploymentID == if AllMachinesParse(current) then ContractsOf(current) else old(NodeDeploymentID)
    {
      log, tail := [], [];
      if AllParse(current) { ParsingIncludesMachines(current); }
      var ok;
      ok, log := UpdateSettings(current);
      if !ok { return Panicked, log, tail; }
      UpdateContracts(current);
      var t;
      t, log := RecordAll(o, current);
      if t.None? { return Failed, log, tail; }
      if Master.None? { return Panicked, log, tail; }
      IndexHolds(log, ZMachineType);
      r, tail := Assemble(o, t.value, Master.value);
    }
  }

  lemma AllBuiltConcat(o: Outside, t: Tables, names: seq<string>, kept: seq<K8sNode>, tail: seq<string>,
      more: seq<K8sNode>)
    requires AllBuilt(o, t, names, kept) && AllBuilt(o, t, tail, more)
    ensures AllBuilt(o, t, names + tail, kept + more)
  {
  }

  lemma RebuildsAll(
      o: Outside, t: Tables, master: K8sNode, declared: seq<string>, master': Option<K8sNode>, names: seq<string>,
      kept: seq<K8sNode>,
      more: seq<K8sNode>, tail: seq<string>)
    requires names == Surviving(declared, t.nodeID.Keys) && AllBuilt(o, t, names, kept) && AllBuilt(o, t, tail, more)
    requires master' == (if master.name in t.nodeID then Built(o, t, master.name) else None)
    requires master.name in t.nodeID ==> master'.Some?
    requires Members(tail) == t.nodeID.Keys - Members(names) - NameOf(master')
    requires master'.Some? ==> master'.value.name == master.name
    requires master'.None? ==> t.nodeID.Keys - Members(names) == {}
    ensures CanRebuild(o, t, master, declared)
  {
    SurvivingAre(declared, t.nodeID.Keys);
    forall n | n in t.nodeID ensures Built(o, t, n).Some? {
      if n in Members(names) {
        BuiltMembers(o, t, names, kept, n);
      } else {
        assert n in t.nodeID.Keys - Members(names);
        if n !in NameOf(master') {
          assert n in Members(tail);
          BuiltMembers(o, t, tail, more, n);
        }
      }
    }
    forall n | n in t.nodeID && master'.None? ensures n in Members(declared) {
      assert n !in t.nodeID.Keys - Members(names);
      assert n in names;
    }
  }

  lemma ParsingIncludesMachines(current: Remotes)
    requires AllParse(current)
    ensures AllMachinesParse(current)
  {
    forall n | n in current ensures MachinesParse(current[n].workloads) {
      forall w | w in current[n].workloads && w.data.Type() == ZMachineType ensures w.data.ZMachine? {
        assert Parses(w);
      }
    }
  }
}
