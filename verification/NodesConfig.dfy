/** Reading a network back from the workloads its nodes hold. */
module NodesConfig {
  import opened Wrappers
  import opened GridTypes
  import opened NetworkWorkload
  import D = Deployer

  type NetworkData = d: WorkloadData | d.Network? witness Network(WG_RANGE, WG_RANGE, 0, 0, [])

  /** The network workload that counts: the last one. */
  function ConfigOf(ws: seq<Workload>): Option<NetworkData> {
    if ws == [] then None
    else if ws[|ws| - 1].data.Network? then Some(ws[|ws| - 1].data)
    else ConfigOf(ws[..|ws| - 1])
  }

  predicate Readable(ws: seq<Workload>) {
    forall w :: w in ws && w.data.Type().NetworkType? ==> w.data.Network?
  }

  predicate LacksEndpoint(peers: seq<Peer>) {
    exists peer :: peer in peers && peer.endpoint.None?
  }

  /** Some peer has no endpoint, which reads as access for an external user. */
  predicate OpensAccess(ws: seq<Workload>) {
    exists w :: w in ws && w.data.Network? && LacksEndpoint(w.data.peers)
  }

  function PeersIn(ws: seq<Workload>): seq<Peer> {
    if ConfigOf(ws).Some? then ConfigOf(ws).value.peers else []
  }

  function SubnetsIn(dls: D.Deployments): Subnets {
    map n | n in dls && ConfigOf(dls[n].workloads).Some? :: ConfigOf(dls[n].workloads).value.subnet
  }

  function KeysIn(dls: D.Deployments): map<NodeId, Key> {
    map n | n in dls && ConfigOf(dls[n].workloads).Some? :: ConfigOf(dls[n].workloads).value.wgPrivateKey
  }

  function PortsIn(dls: D.Deployments): map<NodeId, int> {
    map n | n in dls && ConfigOf(dls[n].workloads).Some? :: ConfigOf(dls[n].workloads).value.wgListenPort as int
  }

  ghost predicate AccessIn(dls: D.Deployments) {
    exists n :: n in dls && OpensAccess(dls[n].workloads)
  }

  datatype NetConfig = NetConfig(keys: map<NodeId, Key>, ports: map<NodeId, int>, subnets: Subnets, access: bool)

  ghost predicate IsRead(dls: D.Deployments, c: NetConfig) {
    c.keys == KeysIn(dls) && c.ports == PortsIn(dls) && c.subnets == SubnetsIn(dls) && (c.access <==> AccessIn(dls))
  }

  /** Adds what one node's workloads say. */
  function Noted(c: NetConfig, node: NodeId, ws: seq<Workload>): NetConfig {
    match ConfigOf(ws)
    case None => c
    case Some(d) => NetConfig(c.keys[node := d.wgPrivateKey], c.ports[node := d.wgListenPort],
        c.subnets[node := d.subnet],
                              c.access || OpensAccess(ws))
  }

  lemma {:induction false} NoConfigNoAccess(ws: seq<Workload>)
    ensures ConfigOf(ws).None? ==> !OpensAccess(ws)
    decreases |ws|
  {
    if ws != [] && ConfigOf(ws).None? {
      var init := ws[..|ws| - 1];
      NoConfigNoAccess(init);
      assert ws == init + [ws[|ws| - 1]];
    }
  }

  lemma AccessWith(dls: D.Deployments, node: NodeId, dl: Deployment)
    requires node !in dls
    ensures AccessIn(dls[node := dl]) <==> AccessIn(dls) || OpensAccess(dl.workloads)
  {
    var more := dls[node := dl];
    if AccessIn(dls) {
      var n :| n in dls && OpensAccess(dls[n].workloads);
      assert more[n] == dls[n];
    }
    assert more[node] == dl;
  }

  lemma SubnetsWith(dls: D.Deployments, node: NodeId, dl: Deployment)
    requires node !in dls
    ensures SubnetsIn(dls[node := dl]) ==
            match ConfigOf(dl.workloads) case None => SubnetsIn(dls) case Some(d) => SubnetsIn(dls)[node := d.subnet]
  {
  }

  lemma KeysWith(dls: D.Deployments, node: NodeId, dl: Deployment)
    requires node !in dls
    ensures KeysIn(dls[node := dl]) ==
            match ConfigOf(dl.workloads) case None => KeysIn(dls) case Some(d) => KeysIn(dls)[node := d.wgPrivateKey]
  {
  }

  lemma PortsWith(dls: D.Deployments, node: NodeId, dl: Deployment)
    requires node !in dls
    ensures PortsIn(dls[node := dl]) ==
            match ConfigOf(dl.workloads)
            case None => PortsIn(dls)
            case Some(d) => PortsIn(dls)[node := d.wgListenPort as int]
  {
  }

  lemma OneMoreRead(dls: D.Deployments, node: NodeId, dl: Deployment, c: NetConfig)
    requires node !in dls && IsRead(dls, c)
    ensures IsRead(dls[node := dl], Noted(c, node, dl.workloads))
  {
    NoConfigNoAccess(dl.workloads);
    AccessWith(dls, node, dl);
    SubnetsWith(dls, node, dl);
    KeysWith(dls, node, dl);
    PortsWith(dls, node, dl);
  }

  /** What is read depends on what a node was asked for only: not on versions, nor on results. */
  lemma {:induction false} ReadFromContents(ws: seq<Workload>, us: seq<Workload>)
    requires D.Contents(ws) == D.Contents(us)
    ensures ConfigOf(ws) == ConfigOf(us) && (OpensAccess(ws) <==> OpensAccess(us))
    decreases |ws|
  {
    assert |D.Contents(ws)| == |D.Contents(us)|;
    if ws != [] {
      var n := |ws| - 1;
      assert D.Contents(ws)[n] == D.Contents(us)[n];
      assert D.Contents(ws[..n]) == D.Contents(ws)[..n] && D.Contents(us[..n]) == D.Contents(us)[..n];
      ReadFromContents(ws[..n], us[..n]);
      assert ws == ws[..n] + [ws[n]] && us == us[..n] + [us[n]];
    }
  }

  method ScanPeers(peers: seq<Peer>, was: bool) returns (access: bool)
    ensures access <==> was || LacksEndpoint(peers)
  {
    access := was;
    for i := 0 to |peers|
      invariant access <==> was || LacksEndpoint(peers[..i])
    {
      assert peers[..i + 1] == peers[..i] + [peers[i]];
      if peers[i].endpoint.None? { access := true; }
    }
    assert peers[..|peers|] == peers;
  }

  lemma ReadableStep(ws: seq<Workload>, i: nat)
    requires i < |ws|
    ensures Readable(ws[..i + 1]) <==> Readable(ws[..i]) && (ws[i].data.Type().NetworkType? ==> ws[i].data.Network?)
  {
    assert ws[..i + 1] == ws[..i] + [ws[i]];
  }

  lemma ReadStep(was: NetConfig, node: NodeId, ws: seq<Workload>, i: nat)
    requires i < |ws|
    ensures var c := Noted(was, node, ws[..i]);
            Noted(was, node, ws[..i + 1]) ==
            match ws[i].data
            case Network(_, subnet, key, port, peers) =>
              NetConfig(c.keys[node := key], c.ports[node := port], c.subnets[node := subnet], c.access ||
                  LacksEndpoint(peers))
            case _ => c
  {
    assert ws[..i + 1] == ws[..i] + [ws[i]];
    assert ws[..i + 1][..i] == ws[..i];
    NoConfigNoAccess(ws[..i]);
  }

  /** Reads the network workloads of one node. */
  method ReadNode(node: NodeId, ws: seq<Workload>, was: NetConfig) returns (r: Option<NetConfig>)
    ensures r.Some? <==> Readable(ws)
    ensures r.Some? ==> r.value == Noted(was, node, ws)
  {
    var c := was;
    for i := 0 to |ws|
      invariant Readable(ws[..i]) && c == Noted(was, node, ws[..i])
    {
      ReadableStep(ws, i);
      ReadStep(was, node, ws, i);
      var data := ws[i].data;
      if data.Type().NetworkType? {
        if !data.Network? {
          assert ws[i] in ws && !Readable(ws);
          return None;
        }
        var access := ScanPeers(data.peers, c.access);
        c := NetConfig(c.keys[node := data.wgPrivateKey], c.ports[node := data.wgListenPort],
            c.subnets[node := data.subnet], access);
      }
    }
    assert ws[..|ws|] == ws;
    return Some(c);
  }

  /** Reads the network workloads of all nodes, in any order. */
  method ReadAll(dls: D.Deployments) returns (r: Option<NetConfig>)
    ensures r.Some? <==> forall n :: n in dls ==> Readable(dls[n].workloads)
    ensures r.Some? ==> IsRead(dls, r.value)
  {
    var c := NetConfig(map[], map[], map[], false);
    var nodes := dls.Keys;
    ghost var seen: D.Deployments := map[];
    while nodes != {}
      invariant nodes <= dls.Keys && seen.Keys == dls.Keys - nodes && IsRead(seen, c)
      invariant forall n :: n in seen ==> seen[n] == dls[n] && Readable(dls[n].workloads)
      decreases nodes
    {
      var node :| node in nodes;
      var next := ReadNode(node, dls[node].workloads, c);
      if next.None? { return None; }
      OneMoreRead(seen, node, dls[node], c);
      c, seen := next.value, seen[node := dls[node]];
      nodes := nodes - {node};
    }
    assert seen == dls;
    return Some(c);
  }

  /**
   * Overwrites keys, ports, subnets and the access flag with what the tracked nodes hold, whether
   * listed or not. A failure leaves the network alone.
   */
  method ReadNodesConfig(deployer: D.Deployer, znet: ZNet) returns (ok: bool)
    modifies znet`Keys, znet`WGPort, znet`NodesIPRange, znet`AddWGAccess, znet`AccessWGConfig, deployer.world`clock
    ensures !ok ==> unchanged(znet)
    ensures ok ==>
      && var dls := D.Held(deployer.world.grid.store, znet.NodeDeploymentID);
      && dls.Keys == znet.NodeDeploymentID.Keys && (forall n :: n in dls ==> Readable(dls[n].workloads))
      && znet.Keys == KeysIn(dls) && znet.WGPort == PortsIn(dls) && znet.NodesIPRange == SubnetsIn(dls)
      && (znet.AddWGAccess <==> AccessIn(dls))
      && znet.AccessWGConfig == if znet.AddWGAccess then old(znet.AccessWGConfig) else None
  {
    var fetched := deployer.GetDeployments(znet.NodeDeploymentID);
    if fetched.None? { return false; }
    assert fetched.value == D.Held(deployer.world.grid.store, znet.NodeDeploymentID);
    var config := ReadAll(fetched.value);
    if config.None? { return false; }
    znet.Keys, znet.WGPort, znet.NodesIPRange := config.value.keys, config.value.ports, config.value.subnets;
    znet.AddWGAccess := config.value.access;
    if !znet.AddWGAccess { znet.AccessWGConfig := None; }
    return true;
  }
}
