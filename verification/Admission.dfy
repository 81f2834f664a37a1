/** The best-effort check before anything is deployed: per-farm public IPs and per-node capacity. */
module Admission {
  import opened Wrappers
  import opened GridTypes
  import opened DeploymentUtils

  type FarmId = nat

  datatype NodeInfo = NodeInfo(farm: FarmId, ipv4: string, domain: string, total: Units, used: Units)

  datatype FarmLookup = FarmError | NoFarm | Farm(holders: seq<ContractId>)

  /** What the grid proxy and the chain answer during one validation. */
  datatype Proxy = Proxy(
    node: NodeId -> Option<NodeInfo>,
    farm: FarmId -> FarmLookup,
    contractIPs: ContractId -> Option<nat>)

  type Deployments = map<NodeId, Deployment>

  /** The farm's addresses that no contract holds. */
  function FreeIPs(holders: seq<ContractId>): nat {
    if holders == [] then 0
    else FreeIPs(holders[..|holders| - 1]) + if holders[|holders| - 1] == 0 then 1 else 0
  }

  // ----- Sums over the nodes of a farm -----

  /** The public IPs the deployment of node `n` counts towards `farm`. */
  function Share(p: Proxy, dls: Deployments, n: NodeId, farm: FarmId): nat {
    if n in dls && p.node(n).Some? && p.node(n).value.farm == farm && PublicIPs(dls[n].workloads).Some?
    then PublicIPs(dls[n].workloads).value
    else 0
  }

  ghost function FarmTotal(p: Proxy, dls: Deployments, nodes: set<NodeId>, farm: FarmId): nat {
    if nodes == {} then 0
    else
      var n :| n in nodes;
      Share(p, dls, n, farm) + FarmTotal(p, dls, nodes - {n}, farm)
  }

  /** The order of the summands does not matter: any node can be taken out first. */
  lemma {:induction false} FarmTotalSplit(p: Proxy, dls: Deployments, nodes: set<NodeId>, farm: FarmId, n: NodeId)
    requires n in nodes
    ensures FarmTotal(p, dls, nodes, farm) == Share(p, dls, n, farm) + FarmTotal(p, dls, nodes - {n}, farm)
    decreases nodes
  {
    var m :| m in nodes && FarmTotal(p, dls, nodes, farm) ==
        Share(p, dls, m, farm) + FarmTotal(p, dls, nodes - {m}, farm);
    if m != n {
      FarmTotalSplit(p, dls, nodes - {m}, farm, n);
      FarmTotalSplit(p, dls, nodes - {n}, farm, m);
      assert nodes - {m} - {n} == nodes - {n} - {m};
    }
  }

  function Change(adding: bool, ips: nat): int {
    if adding then ips else 0 - ips
  }

  /** The counters `now` are the counters `base` plus, or minus, the totals of the nodes in `done`. */
  ghost predicate Accounted(p: Proxy, dls: Deployments, base: map<FarmId, int>, now: map<FarmId, int>,
      done: set<NodeId>, adding: bool) {
    now.Keys == base.Keys &&
        forall farm :: farm in now ==> now[farm] == base[farm] + Change(adding, FarmTotal(p, dls, done, farm))
  }

  /** Taking one more node into account adds its IPs to its own farm and to no other. */
  lemma AccountStep(
      p: Proxy, dls: Deployments, base: map<FarmId, int>, now: map<FarmId, int>, done: set<NodeId>, adding: bool,
      n: NodeId, farm: FarmId, ips: nat)
    requires Accounted(p, dls, base, now, done, adding)
    requires n !in done && n in dls && PublicIPs(dls[n].workloads) == Some(ips)
    requires p.node(n).Some? && p.node(n).value.farm == farm && farm in now
    ensures Accounted(p, dls, base, now[farm := now[farm] + Change(adding, ips)], done + {n}, adding)
  {
    forall f | f in now
      ensures FarmTotal(p, dls, done + {n}, f) == FarmTotal(p, dls, done, f) + if f == farm then ips else 0
    {
      FarmTotalSplit(p, dls, done + {n}, f, n);
      assert done + {n} - {n} == done;
    }
  }

  lemma {:induction false} FarmTotalGrows(p: Proxy, dls: Deployments, some: set<NodeId>, all: set<NodeId>, farm: FarmId)
    requires some <= all
    ensures FarmTotal(p, dls, some, farm) <= FarmTotal(p, dls, all, farm)
    decreases |all|
  {
    if some != all {
      var n :| n in all && n !in some;
      FarmTotalSplit(p, dls, all, farm, n);
      FarmTotalGrows(p, dls, some, all - {n}, farm);
    }
  }

  // ----- What is admitted -----

  /** The checks that concern one node alone. */
  ghost predicate NodeFits(lib: Library, p: Proxy, olds: Deployments, n: NodeId, dl: Deployment)
    requires p.node(n).Some?
  {
    var info := p.node(n).value;
    && lib.valid(dl)
    && TotalCapacity(lib, dl.workloads).Some?
    && PublicIPs(dl.workloads).Some?
    && (n in olds ==>
          && TotalCapacity(lib, olds[n].workloads).Some?
          && p.contractIPs(olds[n].contractID).Some?
          && PublicIPs(dl.workloads).value <= p.contractIPs(olds[n].contractID).value)
    && (HasWorkload(dl, GatewayFQDNProxyType) ==> info.ipv4 != "")
    && (HasWorkload(dl, GatewayNameProxyType) ==> info.domain != "")
    && HasRoom(
         if n in olds then AddUnits(info.total, TotalCapacity(lib, olds[n].workloads).value) else info.total,
         info.used, TotalCapacity(lib, dl.workloads).value)
  }

  /** Free capacity, computed in 64-bit unsigned arithmetic; storage may be overbooked twice. */
  predicate HasRoom(total: Units, used: Units, needed: Units) {
    && needed.mru <= Sub64(total.mru, used.mru)
    && needed.sru <= Sub64(Add64(total.sru, total.sru), used.sru)
    && needed.hru <= Sub64(total.hru, used.hru)
  }

  ghost predicate Known(p: Proxy, nodes: set<NodeId>) {
    forall n :: n in nodes ==> p.node(n).Some?
  }

  ghost predicate HostsNode(p: Proxy, nodes: set<NodeId>, farm: FarmId) {
    exists n :: n in nodes && p.node(n).Some? && p.node(n).value.farm == farm
  }

  /** Per farm: what the new deployments need is at most what is free plus what the old ones hold. */
  ghost predicate FarmFits(p: Proxy, olds: Deployments, news: Deployments, farm: FarmId)
    requires p.farm(farm).Farm?
  {
    FarmTotal(p, news, news.Keys, farm) <= FreeIPs(p.farm(farm).holders) + FarmTotal(p, olds, olds.Keys, farm)
  }

  ghost predicate Admissible(lib: Library, p: Proxy, olds: Deployments, news: Deployments) {
    && Known(p, olds.Keys + news.Keys)
    && (forall n :: n in olds ==> PublicIPs(olds[n].workloads).Some?)
    && (forall n :: n in news ==> NodeFits(lib, p, olds, n, news[n]))
    && FarmsFit(p, olds, news)
  }

  // ----- The steps of the validation -----

  method LookupNodes(p: Proxy, olds: Deployments, news: Deployments)
    returns (ok: bool, nodeMap: map<NodeId, NodeInfo>, farmIPs: map<FarmId, int>)
    ensures ok <==> Known(p, olds.Keys + news.Keys)
    ensures ok ==> nodeMap.Keys == olds.Keys + news.Keys
    ensures ok ==> forall n :: n in nodeMap ==> p.node(n) == Some(nodeMap[n])
    ensures ok ==> forall n :: n in nodeMap ==> nodeMap[n].farm in farmIPs
    ensures ok ==> forall farm :: farm in farmIPs <==> HostsNode(p, olds.Keys + news.Keys, farm)
    ensures ok ==> forall farm :: farm in farmIPs ==> farmIPs[farm] == 0
  {
    nodeMap, farmIPs := map[], map[];
    var nodes := olds.Keys + news.Keys;
    while nodes != {}
      invariant nodes <= olds.Keys + news.Keys && nodeMap.Keys == olds.Keys + news.Keys - nodes
      invariant forall n :: n in nodeMap ==> p.node(n) == Some(nodeMap[n])
      invariant forall n :: n in nodeMap ==> nodeMap[n].farm in farmIPs
      invariant forall farm :: farm in farmIPs <==> HostsNode(p, nodeMap.Keys, farm)
      invariant forall farm :: farm in farmIPs ==> farmIPs[farm] == 0
      decreases nodes
    {
      var node :| node in nodes;
      var info := p.node(node);
      if info.None? { return false, nodeMap, farmIPs; }
      ghost var before := nodeMap.Keys;
      nodeMap := nodeMap[node := info.value];
      farmIPs := farmIPs[info.value.farm := 0];
      forall farm ensures HostsNode(p, nodeMap.Keys, farm) <==> HostsNode(p, before, farm) || farm == info.value.farm {
        assert node in nodeMap.Keys;
      }
      nodes := nodes - {node};
    }
    ok := true;
  }

  method CountFree(holders: seq<ContractId>) returns (free: int)
    ensures free == FreeIPs(holders)
  {
    free := 0;
    for i := 0 to |holders|
      invariant free == FreeIPs(holders[..i])
    {
      assert holders[..i + 1][..i] == holders[..i];
      if holders[i] == 0 { free := free + 1; }
    }
    assert holders[..|holders|] == holders;
  }

  method CountFarms(p: Proxy, zero: map<FarmId, int>) returns (ok: bool, farmIPs: map<FarmId, int>)
    ensures ok <==> forall farm :: farm in zero ==> p.farm(farm).Farm?
    ensures ok ==> farmIPs.Keys == zero.Keys
    ensures ok ==> forall farm :: farm in farmIPs ==> farmIPs[farm] == FreeIPs(p.farm(farm).holders)
  {
    farmIPs := zero;
    var farms := zero.Keys;
    while farms != {}
      invariant farms <= zero.Keys && farmIPs.Keys == zero.Keys
      invariant forall farm :: farm in zero && farm !in farms ==>
                  p.farm(farm).Farm? && farmIPs[farm] == FreeIPs(p.farm(farm).holders)
      decreases farms
    {
      var farm :| farm in farms;
      if !p.farm(farm).Farm? { return false, farmIPs; }
      var free := CountFree(p.farm(farm).holders);
      farmIPs := farmIPs[farm := free];
      farms := farms - {farm};
    }
    ok := true;
  }

  method AddHeld(p: Proxy, olds: Deployments, nodeMap: map<NodeId, NodeInfo>, free: map<FarmId, int>)
    returns (ok: bool, farmIPs: map<FarmId, int>)
    requires olds.Keys <= nodeMap.Keys &&
             forall n :: n in nodeMap ==> p.node(n) == Some(nodeMap[n]) && nodeMap[n].farm in free
    ensures ok <==> forall n :: n in olds ==> PublicIPs(olds[n].workloads).Some?
    ensures ok ==> Accounted(p, olds, free, farmIPs, olds.Keys, true)
  {
    farmIPs := free;
    var nodes := olds.Keys;
    ghost var done: set<NodeId> := {};
    while nodes != {}
      invariant done + nodes == olds.Keys && done !! nodes
      invariant forall n :: n in done ==> PublicIPs(olds[n].workloads).Some?
      invariant Accounted(p, olds, free, farmIPs, done, true)
      decreases nodes
    {
      var node :| node in nodes;
      var count := CountDeploymentPublicIPs(olds[node]);
      if count.None? { return false, farmIPs; }
      var farm := nodeMap[node].farm;
      AccountStep(p, olds, free, farmIPs, done, true, node, farm, count.value);
      farmIPs := farmIPs[farm := farmIPs[farm] + count.value];
      nodes, done := nodes - {node}, done + {node};
    }
    assert done == olds.Keys;
    ok := true;
  }

  /** The checks of one new deployment that do not touch the farm's counter. */
  method CheckNode(lib: Library, p: Proxy, olds: Deployments, n: NodeId, dl: Deployment)
    returns (fits: bool, required: nat)
    requires p.node(n).Some?
    ensures fits <==> NodeFits(lib, p, olds, n, dl)
    ensures fits ==> PublicIPs(dl.workloads) == Some(required)
  {
    required := 0;
    if !lib.valid(dl) { return false, 0; }
    var needed := Capacity(lib, dl);
    if needed.None? { return false, 0; }
    var count := CountDeploymentPublicIPs(dl);
    if count.None? { return false, 0; }
    required := count.value;
    var info := p.node(n).value;
    var total := info.total;
    if n in olds {
      var oldCap := Capacity(lib, olds[n]);
      if oldCap.None? { return false, required; }
      total := AddUnits(total, oldCap.value);
      var current := p.contractIPs(olds[n].contractID);
      if current.None? { return false, required; }
      if required > current.value { return false, required; }
    }
    if HasWorkload(dl, GatewayFQDNProxyType) && info.ipv4 == "" { return false, required; }
    if HasWorkload(dl, GatewayNameProxyType) && info.domain == "" { return false, required; }
    fits := HasRoom(total, info.used, needed.value);
  }

  /** A counter below zero means the farm cannot hold all the new deployments. */
  lemma Overdrawn(p: Proxy, news: Deployments, available: map<FarmId, int>, farmIPs: map<FarmId, int>,
      done: set<NodeId>, farm: FarmId)
    requires Accounted(p, news, available, farmIPs, done, false) && done <= news.Keys && farm in farmIPs &&
             farmIPs[farm] < 0
    ensures farm in available && FarmTotal(p, news, news.Keys, farm) > available[farm]
  {
    FarmTotalGrows(p, news, done, news.Keys, farm);
  }

  ghost predicate EachFits(lib: Library, p: Proxy, olds: Deployments, news: Deployments, nodes: set<NodeId>) {
    forall n :: n in nodes ==> p.node(n).Some? && n in news && NodeFits(lib, p, olds, n, news[n])
  }

  ghost predicate EachHolds(p: Proxy, news: Deployments, available: map<FarmId, int>) {
    forall farm :: farm in available ==> FarmTotal(p, news, news.Keys, farm) <= available[farm]
  }

  ghost predicate NoneBelowZero(counters: map<FarmId, int>) {
    forall farm :: farm in counters ==> counters[farm] >= 0
  }

  lemma NoneOverdrawn(p: Proxy, news: Deployments, available: map<FarmId, int>, farmIPs: map<FarmId, int>)
    requires Accounted(p, news, available, farmIPs, news.Keys, false) && NoneBelowZero(farmIPs)
    ensures EachHolds(p, news, available)
  {
  }

  /** The state of the check after the nodes in `done`. */
  ghost predicate Checked(
      lib: Library, p: Proxy, olds: Deployments, news: Deployments, available: map<FarmId, int>,
      farmIPs: map<FarmId, int>, done: set<NodeId>)
  {
    && Accounted(p, news, available, farmIPs, done, false) && NoneBelowZero(farmIPs)
    && done <= news.Keys && EachFits(lib, p, olds, news, done)
  }

  /** Checks one new deployment and takes its addresses off its farm's counter. */
  method CheckOne(
      lib: Library, p: Proxy, olds: Deployments, news: Deployments, node: NodeId, available: map<FarmId, int>,
      farmIPs: map<FarmId, int>,
      ghost done: set<NodeId>)
    returns (ok: bool, left: map<FarmId, int>)
    requires Checked(lib, p, olds, news, available, farmIPs, done)
    requires node in news && node !in done && p.node(node).Some? && p.node(node).value.farm in available
    ensures ok ==> Checked(lib, p, olds, news, available, left, done + {node})
    ensures !ok ==> !EachFits(lib, p, olds, news, news.Keys) || !EachHolds(p, news, available)
  {
    left := farmIPs;
    var farm := p.node(node).value.farm;
    var fits, required := CheckNode(lib, p, olds, node, news[node]);
    if !fits { return false, left; }
    AccountStep(p, news, available, farmIPs, done, false, node, farm, required);
    left := farmIPs[farm := farmIPs[farm] - required];
    if left[farm] < 0 {
      Overdrawn(p, news, available, left, done + {node}, farm);
      return false, left;
    }
    ok := true;
  }

  /** Takes the new deployments one by one, in any order, off the farms' counters. */
  method CheckNew(lib: Library, p: Proxy, olds: Deployments, news: Deployments, nodeMap: map<NodeId, NodeInfo>,
      available: map<FarmId, int>)
    returns (ok: bool)
    requires news.Keys <= nodeMap.Keys &&
             forall n :: n in nodeMap ==> p.node(n) == Some(nodeMap[n]) && nodeMap[n].farm in available
    requires NoneBelowZero(available)
    ensures ok <==> EachFits(lib, p, olds, news, news.Keys) && EachHolds(p, news, available)
  {
    var farmIPs := available;
    var nodes := news.Keys;
    ghost var done: set<NodeId> := {};
    while nodes != {}
      invariant done + nodes == news.Keys && done !! nodes
      invariant Checked(lib, p, olds, news, available, farmIPs, done)
      decreases nodes
    {
      var node :| node in nodes;
      ok, farmIPs := CheckOne(lib, p, olds, news, node, available, farmIPs, done);
      if !ok { return; }
      nodes, done := nodes - {node}, done + {node};
    }
    assert done == news.Keys;
    NoneOverdrawn(p, news, available, farmIPs);
    return true;
  }

  ghost predicate FarmsFit(p: Proxy, olds: Deployments, news: Deployments) {
    forall farm :: HostsNode(p, olds.Keys + news.Keys, farm) ==> p.farm(farm).Farm? && FarmFits(p, olds, news, farm)
  }

  /** The counters after all free and held addresses are in say which farms fit. */
  lemma CountersDecide(p: Proxy, olds: Deployments, news: Deployments, free: map<FarmId, int>,
      available: map<FarmId, int>)
    requires forall farm :: farm in free <==> HostsNode(p, olds.Keys + news.Keys, farm)
    requires forall farm :: farm in free ==> p.farm(farm).Farm? && free[farm] == FreeIPs(p.farm(farm).holders)
    requires Accounted(p, olds, free, available, olds.Keys, true)
    ensures FarmsFit(p, olds, news) <==> EachHolds(p, news, available)
    ensures NoneBelowZero(available)
  {
    forall farm | farm in available
      ensures available[farm] >= 0
      ensures FarmFits(p, olds, news, farm) <==> FarmTotal(p, news, news.Keys, farm) <= available[farm]
    {
    }
  }

  /** Free and held addresses per farm; None when something needed for them cannot be read. */
  method CountAvailable(p: Proxy, olds: Deployments, news: Deployments)
    returns (ok: bool, nodeMap: map<NodeId, NodeInfo>, available: map<FarmId, int>)
    ensures !ok ==>
      || !Known(p, olds.Keys + news.Keys)
      || !FarmsFit(p, olds, news)
      || exists n :: n in olds && PublicIPs(olds[n].workloads).None?
    ensures ok ==> Known(p, olds.Keys + news.Keys) && nodeMap.Keys == olds.Keys + news.Keys
    ensures ok ==> forall n :: n in nodeMap ==> p.node(n) == Some(nodeMap[n]) && nodeMap[n].farm in available
    ensures ok ==> forall n :: n in olds ==> PublicIPs(olds[n].workloads).Some?
    ensures ok ==> NoneBelowZero(available)
    ensures ok ==> (FarmsFit(p, olds, news) <==> EachHolds(p, news, available))
  {
    var known, nodes, zero := LookupNodes(p, olds, news);
    nodeMap, available := nodes, zero;
    if !known { return false, nodeMap, available; }
    var found, free := CountFarms(p, zero);
    if !found {
      var farm :| farm in zero && !p.farm(farm).Farm?;
      assert HostsNode(p, olds.Keys + news.Keys, farm);
      return false, nodeMap, available;
    }
    ok, available := AddHeld(p, olds, nodeMap, free);
    if ok { CountersDecide(p, olds, news, free, available); }
  }

  /** The validation accepts exactly the admissible requests, whatever order the maps are walked in. */
  method Validate(lib: Library, p: Proxy, olds: Deployments, news: Deployments) returns (ok: bool)
    ensures ok <==> Admissible(lib, p, olds, news)
  {
    var readable, nodeMap, available := CountAvailable(p, olds, news);
    if !readable { return false; }
    ok := CheckNew(lib, p, olds, news, nodeMap, available);
  }
}
