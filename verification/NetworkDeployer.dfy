/**
 * The network compiler: classifies nodes as hidden or accessible, chooses the public relay,
 * allocates subnets, and emits the WireGuard peers of every node.
 */
module NetworkDeployer {
  import opened Wrappers
  import opened Addresses
  import opened GridTypes
  import opened NetworkWorkload
  import Slices

  type Host = h: string | |h| > 0 witness "0"

  /** A node's answer to the endpoint question. It does not change during one generation. */
  datatype Lookup = NoInterface | Unreachable | Address(isV4: bool, text: Host)

  /** What the rest of the grid answers while a network is compiled. */
  datatype Grid = Grid(
    endpoint: NodeId -> Lookup,
    proxyPublicNode: Option<NodeId>,
    generateKey: NodeId -> Option<Key>,
    freePort: NodeId -> Option<int>)

  // ----- Classification and relay choice -----

  function Hidden(g: Grid, nodes: seq<NodeId>): (r: seq<NodeId>)
    ensures forall n :: n in r <==> n in nodes && g.endpoint(n).NoInterface?
  {
    if nodes == [] then []
    else
      var n, r := nodes[|nodes| - 1], Hidden(g, nodes[..|nodes| - 1]);
      if g.endpoint(n).NoInterface? then r + [n] else r
  }

  function Accessible(g: Grid, nodes: seq<NodeId>): (r: seq<NodeId>)
    ensures forall n :: n in r <==> n in nodes && g.endpoint(n).Address?
  {
    if nodes == [] then []
    else
      var n, r := nodes[|nodes| - 1], Accessible(g, nodes[..|nodes| - 1]);
      if g.endpoint(n).Address? then r + [n] else r
  }

  /** The last listed node with an IPv4 endpoint; 0 stands for none. */
  function LastIPv4(g: Grid, nodes: seq<NodeId>): (r: NodeId)
    ensures r != 0 ==> r in nodes && g.endpoint(r).Address?
  {
    if nodes == [] then 0
    else
      var n := nodes[|nodes| - 1];
      if g.endpoint(n).Address? && g.endpoint(n).isV4 then n else LastIPv4(g, nodes[..|nodes| - 1])
  }

  function HostText(a: Lookup): string
    requires a.Address?
  {
    if a.isV4 then a.text else "[" + a.text + "]"
  }

  function Hosts(g: Grid, nodes: seq<NodeId>): map<NodeId, string> {
    map n | n in nodes && g.endpoint(n).Address? :: HostText(g.endpoint(n))
  }

  predicate NeedsRelay(addWGAccess: bool, hidden: seq<NodeId>, accessible: seq<NodeId>) {
    addWGAccess || (hidden != [] && |hidden| + |accessible| > 1)
  }

  datatype Plan = Plan(hidden: seq<NodeId>, accessible: seq<NodeId>, hosts: map<NodeId, string>, relay: NodeId)

  /** The relay recorded in the network afterwards, and the plan unless the choice fails. */
  datatype Choice = Choice(relay: NodeId, plan: Option<Plan>)

  function ChooseRelay(g: Grid, nodes: seq<NodeId>, addWGAccess: bool, publicNode: NodeId): Choice {
    var hidden, accessible, hosts := Hidden(g, nodes), Accessible(g, nodes), Hosts(g, nodes);
    if !NeedsRelay(addWGAccess, hidden, accessible) then Choice(publicNode,
        Some(Plan(hidden, accessible, hosts, publicNode)))
    else if publicNode != 0 then
      WithEndpoint(g, hidden,
          if publicNode in accessible then accessible else accessible + [publicNode], hosts, publicNode)
    else if LastIPv4(g, nodes) != 0 then WithEndpoint(g, hidden, accessible, hosts, LastIPv4(g, nodes))
    else if g.proxyPublicNode.None? then Choice(publicNode, None)
    else
      WithEndpoint(g, hidden, accessible + [g.proxyPublicNode.value], hosts, g.proxyPublicNode.value)
  }

  function WithEndpoint(g: Grid, hidden: seq<NodeId>, accessible: seq<NodeId>, hosts: map<NodeId, string>,
      relay: NodeId): Choice {
    if relay in hosts then Choice(relay, Some(Plan(hidden, accessible, hosts, relay)))
    else if !g.endpoint(relay).Address? then Choice(relay, None)
    else Choice(relay, Some(Plan(hidden, accessible, hosts[relay := g.endpoint(relay).text], relay)))
  }

  // ----- The emitted tables -----

  /** Everything the emitted deployments depend on. */
  datatype Layout = Layout(
    name: string, description: string, range: IPNet, addWGAccess: bool, external: Option<IPNet>, externalSK: Key,
    relay: NodeId, hidden: seq<NodeId>, accessible: seq<NodeId>, hosts: map<NodeId, string>,
    subnets: Subnets, keys: map<NodeId, Key>, ports: map<NodeId, int>)
  {
    ghost predicate Complete() {
      && (forall n :: n in hidden || n in accessible ==> n in subnets && n in keys && n in ports)
      && (addWGAccess ==> external.Some?)
    }

    predicate IsMember(n: NodeId) {
      n in hidden || n in accessible
    }
  }

  function LayoutOf(znet: ZNet, plan: Plan): Layout
    reads znet
  {
    Layout(znet.Name, znet.Description, znet.IPRange, znet.AddWGAccess, znet.ExternalIP, znet.ExternalSK, plan.relay,
           plan.hidden, plan.accessible, plan.hosts, znet.NodesIPRange, znet.Keys, znet.WGPort)
  }

  /** Go's lookup of a missing map entry yields the zero value. */
  function Lookup0<K, V>(m: map<K, V>, k: K, zero: V): V {
    if k in m then m[k] else zero
  }

  function Ranges(n: IPNet): seq<IPNet> {
    [n, WgIP(n)]
  }

  function RangesOf(l: Layout, nodes: seq<NodeId>): seq<IPNet>
    requires forall n :: n in nodes ==> n in l.subnets
  {
    if nodes == [] then [] else RangesOf(l, nodes[..|nodes| - 1]) + Ranges(l.subnets[nodes[|nodes| - 1]])
  }

  /** The ranges that can only be reached through the relay. */
  function Behind(l: Layout): seq<IPNet>
    requires l.Complete()
  {
    RangesOf(l, l.hidden) + if l.addWGAccess then Ranges(l.external.value) else []
  }

  function EndpointOf(l: Layout, n: NodeId): Endpoint {
    Endpoint(Lookup0(l.hosts, n, ""), Lookup0(l.ports, n, 0))
  }

  function MeshPeer(l: Layout, peer: NodeId): Peer
    requires l.Complete() && l.IsMember(peer)
  {
    Peer(l.subnets[peer], PublicKey(l.keys[peer]),
         Ranges(l.subnets[peer]) + if peer == l.relay then Behind(l) else [],
         Some(EndpointOf(l, peer)))
  }

  function MeshPeers(l: Layout, node: NodeId, nodes: seq<NodeId>): seq<Peer>
    requires l.Complete() && forall n :: n in nodes ==> n in l.accessible
  {
    if nodes == [] then []
    else
      var peer, rest := nodes[|nodes| - 1], MeshPeers(l, node, nodes[..|nodes| - 1]);
      if peer == node then rest else rest + [MeshPeer(l, peer)]
  }

  function ExternalPeer(l: Layout): Peer
    requires l.external.Some?
  {
    Peer(l.external.value, PublicKey(l.externalSK), Ranges(l.external.value), None)
  }

  function HiddenPeer(l: Layout, peer: NodeId): Peer
    requires l.Complete() && l.IsMember(peer)
  {
    Peer(l.subnets[peer], PublicKey(l.keys[peer]), Ranges(l.subnets[peer]), None)
  }

  function HiddenPeers(l: Layout, nodes: seq<NodeId>): seq<Peer>
    requires l.Complete() && forall n :: n in nodes ==> n in l.hidden
  {
    if nodes == [] then [] else HiddenPeers(l, nodes[..|nodes| - 1]) + [HiddenPeer(l, nodes[|nodes| - 1])]
  }

  function AccessiblePeers(l: Layout, node: NodeId): seq<Peer>
    requires l.Complete()
  {
    MeshPeers(l, node, l.accessible)
    + if node != l.relay then []
      else (if l.addWGAccess then [ExternalPeer(l)] else []) + HiddenPeers(l, l.hidden)
  }

  function RelayPeers(l: Layout, node: NodeId): seq<Peer>
    requires node in l.subnets
  {
    if l.relay == 0 then []
    else [Peer(l.subnets[node], PublicKey(Lookup0(l.keys, l.relay, 0)), [l.range, WG_RANGE],
        Some(EndpointOf(l, l.relay)))]
  }

  function PeersOf(l: Layout, node: NodeId): seq<Peer>
    requires l.Complete() && l.IsMember(node)
  {
    if node in l.hidden then RelayPeers(l, node) else AccessiblePeers(l, node)
  }

  function NodeDeployment(l: Layout, node: NodeId, peers: seq<Peer>): Deployment
    requires l.Complete() && l.IsMember(node)
  {
    NewGridDeployment([
      ZosWorkload(l.name, l.description, l.range, l.subnets[node], l.keys[node], l.ports[node] % 0x1_0000, peers)])
  }

  /** One deployment per node; a node in both lists would get the hidden one, which is written last. */
  function Compile(l: Layout): map<NodeId, Deployment>
    requires l.Complete()
  {
    map n | n in l.accessible + l.hidden :: NodeDeployment(l, n, PeersOf(l, n))
  }

  function UserConfig(l: Layout): AccessConfig
    requires l.external.Some?
  {
    AccessConfig(WgIP(l.external.value), l.externalSK, PublicKey(Lookup0(l.keys, l.relay, 0)), [l.range, WG_RANGE],
                 EndpointOf(l, l.relay))
  }

  // ----- What a well-formed plan is -----

  /** The layout the routing results rest on. */
  ghost predicate WellFormed(l: Layout) {
    && l.Complete()
    && l.range.ones == 16 && !(l.range.ip.a == 100 && l.range.ip.b == 64)
    && Sound(l.range, l.subnets, if l.addWGAccess then l.external else None)
    && (forall n :: n in l.hidden ==> n !in l.accessible)
    && (forall n :: n in l.accessible ==> n in l.hosts && l.hosts[n] != "")
    && (NeedsRelay(l.addWGAccess, l.hidden, l.accessible) ==> l.relay != 0 && l.relay in l.accessible)
  }

  ghost predicate DistinctKeys(l: Layout)
    requires l.Complete()
  {
    && (forall m, n :: l.IsMember(m) && l.IsMember(n) && m != n ==> l.keys[m] != l.keys[n])
    && (l.addWGAccess ==> forall n :: l.IsMember(n) ==> l.keys[n] != l.externalSK)
  }

  lemma EndpointKnown(g: Grid, hidden: seq<NodeId>, accessible: seq<NodeId>, nodes: seq<NodeId>, relay: NodeId)
    requires forall n :: n in hidden ==> g.endpoint(n).NoInterface?
    requires forall n :: n in accessible && n != relay ==> n in nodes && g.endpoint(n).Address?
    requires WithEndpoint(g, hidden, accessible, Hosts(g, nodes), relay).plan.Some?
    ensures var p := WithEndpoint(g, hidden, accessible, Hosts(g, nodes), relay).plan.value;
            && (forall n :: n in hidden ==> n !in accessible)
            && (forall n :: n in accessible ==> n in p.hosts && p.hosts[n] != "")
  {
  }

  /** A successful choice keeps the two classes apart and knows an address for every accessible node. */
  lemma ChoiceIsWellFormed(g: Grid, nodes: seq<NodeId>, addWGAccess: bool, publicNode: NodeId)
    requires 0 !in nodes && g.proxyPublicNode != Some(0)
    requires ChooseRelay(g, nodes, addWGAccess, publicNode).plan.Some?
    ensures var c := ChooseRelay(g, nodes, addWGAccess, publicNode);
            var p := c.plan.value;
            && p.relay == c.relay
            && p.hidden == Hidden(g, nodes)
            && (forall n :: n in Accessible(g, nodes) ==> n in p.accessible)
            && (forall n :: n in p.hidden ==> n !in p.accessible)
            && (forall n :: n in p.accessible ==> n in p.hosts && p.hosts[n] != "")
            && (NeedsRelay(addWGAccess, p.hidden, p.accessible) ==> p.relay != 0 && p.relay in p.accessible)
  {
    var c := ChooseRelay(g, nodes, addWGAccess, publicNode);
    var hidden, accessible := Hidden(g, nodes), Accessible(g, nodes);
    if !NeedsRelay(addWGAccess, hidden, accessible) {
    } else if publicNode != 0 && publicNode !in accessible {
      EndpointKnown(g, hidden, accessible + [publicNode], nodes, publicNode);
    } else if publicNode != 0 {
      EndpointKnown(g, hidden, accessible, nodes, publicNode);
    } else if LastIPv4(g, nodes) != 0 {
      EndpointKnown(g, hidden, accessible, nodes, LastIPv4(g, nodes));
    } else {
      var relay := g.proxyPublicNode.value;
      EndpointKnown(g, hidden, accessible + [relay], nodes, relay);
    }
  }

  // ----- The methods -----

  /** Every node can be asked for its endpoint. */
  ghost predicate AllAnswer(g: Grid, nodes: seq<NodeId>) {
    forall n :: n in nodes ==> !g.endpoint(n).Unreachable?
  }

  /** One more node changes the classes by at most that node. */
  lemma ClassesStep(g: Grid, nodes: seq<NodeId>, i: nat)
    requires i < |nodes|
    ensures var a, next, done := g.endpoint(nodes[i]), nodes[..i + 1], nodes[..i];
            && Hidden(g, next) == Hidden(g, done) + (if a.NoInterface? then [nodes[i]] else [])
            && Accessible(g, next) == Accessible(g, done) + (if a.Address? then [nodes[i]] else [])
            && LastIPv4(g, next) == (if a.Address? && a.isV4 then nodes[i] else LastIPv4(g, done))
            && Hosts(g, next) == (if a.Address? then Hosts(g, done)[nodes[i] := HostText(a)] else Hosts(g, done))
  {
    assert nodes[..i + 1][..i] == nodes[..i];
    assert nodes[..i + 1] == nodes[..i] + [nodes[i]];
  }

  method Classify(g: Grid, nodes: seq<NodeId>)
    returns (ok: bool, hidden: seq<NodeId>, accessible: seq<NodeId>, ipv4Node: NodeId, endpoints: map<NodeId, string>)
    ensures ok <==> AllAnswer(g, nodes)
    ensures ok ==> hidden == Hidden(g, nodes) && accessible == Accessible(g, nodes)
    ensures ok ==> ipv4Node == LastIPv4(g, nodes) && endpoints == Hosts(g, nodes)
  {
    ok, hidden, accessible, ipv4Node, endpoints := true, [], [], 0, map[];
    for i := 0 to |nodes|
      invariant AllAnswer(g, nodes[..i])
      invariant hidden == Hidden(g, nodes[..i]) && accessible == Accessible(g, nodes[..i])
      invariant ipv4Node == LastIPv4(g, nodes[..i]) && endpoints == Hosts(g, nodes[..i])
    {
      ClassesStep(g, nodes, i);
      var nodeID, endpoint := nodes[i], g.endpoint(nodes[i]);
      if endpoint.NoInterface? {
        hidden := hidden + [nodeID];
      } else if endpoint.Unreachable? {
        ok := false;
        return;
      } else if endpoint.isV4 {
        accessible := accessible + [nodeID];
        ipv4Node := nodeID;
        endpoints := endpoints[nodeID := endpoint.text];
      } else {
        accessible := accessible + [nodeID];
        endpoints := endpoints[nodeID := "[" + endpoint.text + "]"];
      }
    }
    assert nodes[..|nodes|] == nodes;
  }

  method BuildMeshPeers(l: Layout, behind: seq<IPNet>, node: NodeId) returns (peers: seq<Peer>)
    requires l.Complete() && behind == Behind(l)
    ensures peers == MeshPeers(l, node, l.accessible)
  {
    peers := [];
    for i := 0 to |l.accessible|
      invariant peers == MeshPeers(l, node, l.accessible[..i])
    {
      assert l.accessible[..i + 1][..i] == l.accessible[..i];
      var peer := l.accessible[i];
      if peer != node {
        var allowedIPs := [l.subnets[peer], WgIP(l.subnets[peer])];
        if peer == l.relay { allowedIPs := allowedIPs + behind; }
        assert allowedIPs == Ranges(l.subnets[peer]) + if peer == l.relay then Behind(l) else [];
        peers := peers + [Peer(l.subnets[peer], PublicKey(l.keys[peer]), allowedIPs, Some(EndpointOf(l, peer)))];
      }
    }
    assert l.accessible[..|l.accessible|] == l.accessible;
  }

  method BuildHiddenPeers(l: Layout) returns (peers: seq<Peer>)
    requires l.Complete()
    ensures peers == HiddenPeers(l, l.hidden)
  {
    peers := [];
    for i := 0 to |l.hidden|
      invariant peers == HiddenPeers(l, l.hidden[..i])
    {
      assert l.hidden[..i + 1][..i] == l.hidden[..i];
      var subnet := l.subnets[l.hidden[i]];
      peers := peers + [Peer(subnet, PublicKey(l.keys[l.hidden[i]]), [subnet, WgIP(subnet)], None)];
    }
    assert l.hidden[..|l.hidden|] == l.hidden;
  }

  method BuildBehind(l: Layout) returns (behind: seq<IPNet>)
    requires l.Complete()
    ensures behind == Behind(l)
  {
    behind := [];
    for i := 0 to |l.hidden|
      invariant behind == RangesOf(l, l.hidden[..i])
    {
      assert l.hidden[..i + 1][..i] == l.hidden[..i];
      behind := behind + [l.subnets[l.hidden[i]]] + [WgIP(l.subnets[l.hidden[i]])];
    }
    assert l.hidden[..|l.hidden|] == l.hidden;
    if l.addWGAccess {
      behind := behind + [l.external.value] + [WgIP(l.external.value)];
    }
  }

  method BuildAccessiblePeers(l: Layout, behind: seq<IPNet>, node: NodeId) returns (peers: seq<Peer>)
    requires l.Complete() && behind == Behind(l)
    ensures peers == AccessiblePeers(l, node)
  {
    peers := BuildMeshPeers(l, behind, node);
    if node == l.relay {
      if l.addWGAccess {
        var subnet := l.external.value;
        peers := peers + [Peer(subnet, PublicKey(l.externalSK), [subnet, WgIP(subnet)], None)];
      }
      var hiddenPeers := BuildHiddenPeers(l);
      peers := peers + hiddenPeers;
    }
  }

  method EmitAccessible(l: Layout) returns (deployments: map<NodeId, Deployment>)
    requires l.Complete()
    ensures forall n :: n in deployments <==> n in l.accessible
    ensures forall n :: n in deployments ==> deployments[n] == NodeDeployment(l, n, AccessiblePeers(l, n))
  {
    deployments := map[];
    var behind := BuildBehind(l);
    for i := 0 to |l.accessible|
      invariant forall n :: n in deployments <==> n in l.accessible[..i]
      invariant forall n :: n in deployments ==> deployments[n] == NodeDeployment(l, n, AccessiblePeers(l, n))
    {
      var node := l.accessible[i];
      var peers := BuildAccessiblePeers(l, behind, node);
      deployments := deployments[node := NodeDeployment(l, node, peers)];
    }
  }

  method BuildRelayPeers(l: Layout, node: NodeId) returns (peers: seq<Peer>)
    requires node in l.subnets
    ensures peers == RelayPeers(l, node)
  {
    peers := [];
    if l.relay != 0 {
      peers := [Peer(l.subnets[node], PublicKey(Lookup0(l.keys, l.relay, 0)), [l.range, WG_RANGE],
                     Some(EndpointOf(l, l.relay)))];
    }
  }

  method EmitHidden(l: Layout, first: map<NodeId, Deployment>) returns (deployments: map<NodeId, Deployment>)
    requires l.Complete()
    ensures forall n :: n in deployments <==> n in first || n in l.hidden
    ensures forall n :: n in l.hidden ==> deployments[n] == NodeDeployment(l, n, RelayPeers(l, n))
    ensures forall n :: n in first && n !in l.hidden ==> deployments[n] == first[n]
  {
    deployments := first;
    for i := 0 to |l.hidden|
      invariant forall n :: n in deployments <==> n in first || n in l.hidden[..i]
      invariant forall n :: n in l.hidden[..i] ==> deployments[n] == NodeDeployment(l, n, RelayPeers(l, n))
      invariant forall n :: n in first && n !in l.hidden[..i] ==> deployments[n] == first[n]
    {
      var node := l.hidden[i];
      var peers := BuildRelayPeers(l, node);
      deployments := deployments[node := NodeDeployment(l, node, peers)];
    }
  }

  /** Emits the deployment of every accessible node, then of every hidden one. */
  method Emit(l: Layout) returns (deployments: map<NodeId, Deployment>)
    requires l.Complete()
    ensures deployments == Compile(l)
  {
    var first := EmitAccessible(l);
    deployments := EmitHidden(l, first);
    forall n | n in l.accessible + l.hidden
      ensures n in deployments && deployments[n] == NodeDeployment(l, n, PeersOf(l, n))
    {
      if n in l.hidden {
      } else {
        assert deployments[n] == first[n];
      }
    }
    assert deployments.Keys == Compile(l).Keys;
  }

  datatype GenerateError =
    | EndpointLookup | NoPublicNode | RelayEndpoint | OutOfSubnets | KeyGeneration | NoFreePort

  /**
   * The relay choice, on the lists `Classify` returns. The relay is recorded in the network even
   * when its endpoint then cannot be found.
   */
  method ChooseRelayNode(
      g: Grid, znet: ZNet, hidden: seq<NodeId>, accessible: seq<NodeId>, ipv4Node: NodeId, hosts: map<NodeId, string>)
    returns (r: Result<Plan, GenerateError>)
    requires hidden == Hidden(g, znet.Nodes) && accessible == Accessible(g, znet.Nodes)
    requires ipv4Node == LastIPv4(g, znet.Nodes) && hosts == Hosts(g, znet.Nodes)
    modifies znet`PublicNodeID
    ensures var c := ChooseRelay(g, znet.Nodes, znet.AddWGAccess, old(znet.PublicNodeID));
            && znet.PublicNodeID == c.relay
            && (if r.Success? then c.plan == Some(r.value) && r.value.relay == c.relay
               else c.plan.None? && r.error != OutOfSubnets)
  {
    var all, endpoints := accessible, hosts;
    if znet.AddWGAccess || (|hidden| != 0 && |hidden| + |accessible| > 1) {
      if znet.PublicNodeID != 0 {
        var listed := Slices.Contains(accessible, znet.PublicNodeID);
        if !listed { all := all + [znet.PublicNodeID]; }
      } else if ipv4Node != 0 {
        znet.PublicNodeID := ipv4Node;
      } else {
        if g.proxyPublicNode.None? { return Failure(NoPublicNode); }
        znet.PublicNodeID := g.proxyPublicNode.value;
        all := all + [znet.PublicNodeID];
      }
      if znet.PublicNodeID !in endpoints {
        var endpoint := g.endpoint(znet.PublicNodeID);
        if !endpoint.Address? { return Failure(RelayEndpoint); }
        endpoints := endpoints[znet.PublicNodeID := endpoint.text];
      }
    }
    r := Success(Plan(hidden, all, endpoints, znet.PublicNodeID));
  }

  /** The plan for a declared network: none when an endpoint cannot be read or no relay is found. */
  ghost function PlanFor(g: Grid, nodes: seq<NodeId>, addWGAccess: bool, publicNode: NodeId): Option<Plan> {
    if AllAnswer(g, nodes) then ChooseRelay(g, nodes, addWGAccess, publicNode).plan else None
  }

  method PlanNetwork(g: Grid, znet: ZNet) returns (r: Result<Plan, GenerateError>)
    modifies znet`PublicNodeID
    ensures var plan := PlanFor(g, znet.Nodes, znet.AddWGAccess, old(znet.PublicNodeID));
            if r.Success? then plan == Some(r.value) && znet.PublicNodeID == r.value.relay
            else plan == None && r.error != OutOfSubnets
  {
    var ok, hidden, accessible, ipv4Node, endpoints := Classify(g, znet.Nodes);
    if !ok { return Failure(EndpointLookup); }
    r := ChooseRelayNode(g, znet, hidden, accessible, ipv4Node, endpoints);
  }

  /** The three assignments a layout needs for its nodes. */
  ghost predicate CanAssign(
      g: Grid, nodes: seq<NodeId>, a: Allocation, keys: map<NodeId, Key>, ports: map<NodeId, int>)
  {
    && a.subnets.Some?
    && (forall n :: n in nodes && n !in keys ==> g.generateKey(n).Some?)
    && (forall n :: n in nodes && n !in ports ==> g.freePort(n).Some?)
  }

  method AssignNodes(g: Grid, znet: ZNet, nodes: seq<NodeId>) returns (r: Option<GenerateError>)
    modifies znet`ExternalIP, znet`NodesIPRange, znet`Keys, znet`WGPort
    ensures var a := Allocate(znet.IPRange, znet.AddWGAccess, old(znet.ExternalIP), old(znet.NodesIPRange), nodes);
            && (r.None? <==> CanAssign(g, nodes, a, old(znet.Keys), old(znet.WGPort)))
            && (r == Some(OutOfSubnets) <==> a.subnets.None?)
            && znet.ExternalIP == a.external
            && znet.NodesIPRange == (if a.subnets.Some? then a.subnets.value else old(znet.NodesIPRange))
    ensures forall n :: n in old(znet.Keys) ==> n in znet.Keys && znet.Keys[n] == old(znet.Keys)[n]
    ensures forall n :: n in znet.Keys && n !in old(znet.Keys) ==> g.generateKey(n) == Some(znet.Keys[n])
    ensures r.None? ==> forall n :: n in nodes ==> n in znet.NodesIPRange && n in znet.Keys && n in znet.WGPort
    ensures r.None? && znet.AddWGAccess ==> znet.ExternalIP.Some?
  {
    AllocationCovers(znet.IPRange, znet.AddWGAccess, znet.ExternalIP, znet.NodesIPRange, nodes);
    var ok := znet.AssignNodesIPs(nodes);
    if !ok { return Some(OutOfSubnets); }
    ok := znet.AssignNodesWGKey(nodes, g.generateKey);
    if !ok { return Some(KeyGeneration); }
    ok := znet.AssignNodesWGPort(nodes, g.freePort);
    if !ok { return Some(NoFreePort); }
    return None;
  }

  /** A layout taken from a plan and a sound allocation is well formed. */
  lemma LayoutIsWellFormed(g: Grid, nodes: seq<NodeId>, publicNode: NodeId, external: Option<IPNet>,
      subnets: Subnets, l: Layout)
    requires 0 !in nodes && g.proxyPublicNode != Some(0)
    requires l.range.ones == 16 && !(l.range.ip.a == 100 && l.range.ip.b == 64)
    requires Sound(l.range, subnets, if l.addWGAccess then external else None)
    requires l.Complete()
    requires PlanFor(g, nodes, l.addWGAccess, publicNode) == Some(Plan(l.hidden, l.accessible, l.hosts, l.relay))
    requires Allocate(l.range, l.addWGAccess, external, subnets, l.hidden + l.accessible)
          == Allocation(l.external, Some(l.subnets))
    ensures WellFormed(l) && l.hidden == Hidden(g, nodes)
    ensures forall n :: n in Accessible(g, nodes) ==> n in l.accessible
  {
    ChoiceIsWellFormed(g, nodes, l.addWGAccess, publicNode);
    AllocationIsSound(l.range, l.addWGAccess, external, subnets, l.hidden + l.accessible);
  }

  /**
   * Compiles the network. It succeeds exactly when a plan exists and can be assigned; the result is
   * then the emitted form of the layout the network now records.
   */
  method GenerateVersionlessDeployments(g: Grid, znet: ZNet)
    returns (r: Result<map<NodeId, Deployment>, GenerateError>)
    modifies znet`PublicNodeID, znet`ExternalIP, znet`NodesIPRange, znet`Keys, znet`WGPort, znet`AccessWGConfig
    ensures var plan := PlanFor(g, znet.Nodes, znet.AddWGAccess, old(znet.PublicNodeID));
            match plan
            case None =>
              && r.Failure? && r.error != OutOfSubnets
              && znet.NodesIPRange == old(znet.NodesIPRange) && znet.ExternalIP == old(znet.ExternalIP)
            case Some(p) =>
              var all := p.hidden + p.accessible;
              var a := Allocate(znet.IPRange, znet.AddWGAccess, old(znet.ExternalIP), old(znet.NodesIPRange), all);
              && znet.PublicNodeID == p.relay
              && znet.ExternalIP == a.external
              && znet.NodesIPRange == (if a.subnets.Some? then a.subnets.value else old(znet.NodesIPRange))
              && (r.Success? <==> CanAssign(g, all, a, old(znet.Keys), old(znet.WGPort)))
              && (r == Failure(OutOfSubnets) <==> a.subnets.None?)
              && (r.Success? ==>
                    && LayoutOf(znet, p).Complete()
                    && r.value == Compile(LayoutOf(znet, p))
                    && (znet.AddWGAccess ==> znet.AccessWGConfig == Some(UserConfig(LayoutOf(znet, p)))))
    ensures forall n :: n in old(znet.Keys) ==> n in znet.Keys && znet.Keys[n] == old(znet.Keys)[n]
    ensures forall n :: n in znet.Keys && n !in old(znet.Keys) ==> g.generateKey(n) == Some(znet.Keys[n])
  {
    var planned := PlanNetwork(g, znet);
    if planned.Failure? { return Failure(planned.error); }
    var plan := planned.value;
    var failed := AssignNodes(g, znet, plan.hidden + plan.accessible);
    if failed.Some? { return Failure(failed.value); }
    var l := LayoutOf(znet, plan);
    if znet.AddWGAccess {
      znet.AccessWGConfig := Some(AccessConfig(
        WgIP(znet.ExternalIP.value), znet.ExternalSK, PublicKey(Lookup0(znet.Keys, znet.PublicNodeID, 0)),
        [znet.IPRange, WG_RANGE], EndpointOf(l, plan.relay)));
    }
    assert l == LayoutOf(znet, plan);
    var deployments := Emit(l);
    r := Success(deployments);
  }

  // ----- Dropping what is outdated -----

  datatype ContractLookup = Created | Gone | ChainError
  datatype ClientLookup = NoClient | Down | Up

  predicate Dropped(chain: ContractId -> ContractLookup, contracts: map<NodeId, ContractId>, n: NodeId) {
    n in contracts && chain(contracts[n]).Gone?
  }

  /** The entries of `m` whose node still has its contract. */
  function Living<V>(chain: ContractId -> ContractLookup, contracts: map<NodeId, ContractId>,
      m: map<NodeId, V>): map<NodeId, V> {
    map n | n in m && !Dropped(chain, contracts, n) :: m[n]
  }

  /** Subnets are /24s no two of which are the same network, whatever range they belong to. */
  ghost predicate DistinctSubnets(subnets: Subnets, external: Option<IPNet>) {
    && (forall n :: n in subnets ==> subnets[n].ones == 24)
    && (forall m, n :: m in subnets && n in subnets && m != n ==> !SameNet(subnets[m], subnets[n]))
    && (external.Some? ==>
          external.value.ones == 24 && forall n :: n in subnets ==> !SameNet(subnets[n], external.value))
  }

  predicate SameNet(m: IPNet, n: IPNet) {
    m.ip.a == n.ip.a && m.ip.b == n.ip.b && m.ip.c == n.ip.c
  }

  lemma SoundIsDistinct(range: IPNet, subnets: Subnets, external: Option<IPNet>)
    ensures Sound(range, subnets, external) ==> DistinctSubnets(subnets, external)
    ensures DistinctSubnets(subnets, external)
            && (forall n :: n in subnets ==> InNetwork(range, subnets[n]))
            && (external.Some? ==> InNetwork(range, external.value))
            ==> Sound(range, subnets, external)
  {
  }

  datatype Invalidation = Done | Aborted | Panicked

  ghost predicate OnlyLess(now: Subnets, was: Subnets) {
    forall n :: n in now ==> n in was && now[n] == was[n]
  }

  /** `old` restricted to the nodes not yet visited and to those that keep their contract. */
  ghost predicate Swept<V>(
      now: map<NodeId, V>, was: map<NodeId, V>, chain: ContractId -> ContractLookup, contracts: map<NodeId, ContractId>,
      left: set<NodeId>)
  {
    && (forall n :: n in now <==> n in was && (n in left || !Dropped(chain, contracts, n)))
    && (forall n :: n in now ==> now[n] == was[n])
  }

  lemma SweepOne<V>(
      now: map<NodeId, V>, was: map<NodeId, V>, chain: ContractId -> ContractLookup, contracts: map<NodeId, ContractId>,
      left: set<NodeId>, node: NodeId)
    requires node in left && Swept(now, was, chain, contracts, left)
    ensures Swept(if Dropped(chain, contracts, node) then now - {node} else now, was, chain, contracts, left - {node})
  {
  }

  method DropLostContracts(chain: ContractId -> ContractLookup, znet: ZNet) returns (ok: bool)
    modifies znet`NodeDeploymentID, znet`NodesIPRange, znet`Keys, znet`WGPort
    ensures ok <==> forall n :: n in old(znet.NodeDeploymentID) ==> !chain(old(znet.NodeDeploymentID)[n]).ChainError?
    ensures ok ==>
      && var contracts := old(znet.NodeDeploymentID);
      && znet.NodeDeploymentID == Living(chain, contracts, contracts)
      && znet.NodesIPRange == Living(chain, contracts, old(znet.NodesIPRange))
      && znet.Keys == Living(chain, contracts, old(znet.Keys))
      && znet.WGPort == Living(chain, contracts, old(znet.WGPort))
    ensures OnlyLess(znet.NodesIPRange, old(znet.NodesIPRange))
  {
    var nodes := znet.NodeDeploymentID.Keys;
    ghost var contracts := znet.NodeDeploymentID;
    while nodes != {}
      invariant nodes <= contracts.Keys
      invariant forall n :: n in contracts && n !in nodes ==> !chain(contracts[n]).ChainError?
      invariant Swept(znet.NodeDeploymentID, contracts, chain, contracts, nodes)
      invariant Swept(znet.NodesIPRange, old(znet.NodesIPRange), chain, contracts, nodes)
      invariant Swept(znet.Keys, old(znet.Keys), chain, contracts, nodes)
      invariant Swept(znet.WGPort, old(znet.WGPort), chain, contracts, nodes)
      decreases nodes
    {
      var node :| node in nodes;
      var contract := chain(znet.NodeDeploymentID[node]);
      SweepOne(znet.NodeDeploymentID, contracts, chain, contracts, nodes, node);
      SweepOne(znet.NodesIPRange, old(znet.NodesIPRange), chain, contracts, nodes, node);
      SweepOne(znet.Keys, old(znet.Keys), chain, contracts, nodes, node);
      SweepOne(znet.WGPort, old(znet.WGPort), chain, contracts, nodes, node);
      if contract.Gone? {
        znet.NodeDeploymentID := znet.NodeDeploymentID - {node};
        znet.NodesIPRange := znet.NodesIPRange - {node};
        znet.Keys := znet.Keys - {node};
        znet.WGPort := znet.WGPort - {node};
      } else if contract.ChainError? {
        return false;
      }
      nodes := nodes - {node};
    }
    return true;
  }

  function InRange(range: IPNet, subnets: Subnets): Subnets {
    map n | n in subnets && range.Contains(subnets[n].ip) :: subnets[n]
  }

  function KeptExternal(range: IPNet, addWGAccess: bool, external: Option<IPNet>): Option<IPNet> {
    if addWGAccess && external.Some? && range.Contains(external.value.ip) then external else None
  }

  method DropForeignSubnets(znet: ZNet)
    modifies znet`NodesIPRange
    ensures znet.NodesIPRange == InRange(znet.IPRange, old(znet.NodesIPRange))
  {
    var nodes := znet.NodesIPRange.Keys;
    ghost var was := znet.NodesIPRange;
    while nodes != {}
      invariant nodes <= was.Keys
      invariant znet.NodesIPRange == map n | n in was && (n in nodes || znet.IPRange.Contains(was[n].ip)) :: was[n]
      decreases nodes
    {
      var node :| node in nodes;
      if !znet.IPRange.Contains(znet.NodesIPRange[node].ip) {
        znet.NodesIPRange := znet.NodesIPRange - {node};
      }
      nodes := nodes - {node};
    }
  }

  /**
   * Removes what is gone or out of range. A public node without a client is dereferenced anyway,
   * which is a panic.
   */
  method InvalidateBrokenAttributes(chain: ContractId -> ContractLookup, client: NodeId -> ClientLookup, znet: ZNet)
    returns (r: Invalidation)
    modifies znet`NodeDeploymentID, znet`NodesIPRange, znet`Keys, znet`WGPort, znet`ExternalIP, znet`PublicNodeID
    ensures r.Aborted? <==>
            !forall n :: n in old(znet.NodeDeploymentID) ==> !chain(old(znet.NodeDeploymentID)[n]).ChainError?
    ensures !r.Aborted? ==>
      && var contracts := old(znet.NodeDeploymentID);
      && znet.NodeDeploymentID == Living(chain, contracts, contracts)
      && znet.NodesIPRange == InRange(znet.IPRange, Living(chain, contracts, old(znet.NodesIPRange)))
      && znet.Keys == Living(chain, contracts, old(znet.Keys))
      && znet.WGPort == Living(chain, contracts, old(znet.WGPort))
      && var public := old(znet.PublicNodeID);
      && (r.Panicked? <==> public != 0 && client(public).NoClient?)
      && znet.PublicNodeID == (if public != 0 && client(public).Up? then public else 0)
    ensures r.Done? ==> znet.ExternalIP == KeptExternal(znet.IPRange, znet.AddWGAccess, old(znet.ExternalIP))
    ensures OnlyLess(znet.NodesIPRange, old(znet.NodesIPRange))
    ensures znet.ExternalIP.Some? ==> znet.ExternalIP == old(znet.ExternalIP)
  {
    var ok := DropLostContracts(chain, znet);
    if !ok { return Aborted; }
    if znet.ExternalIP.Some? && !znet.IPRange.Contains(znet.ExternalIP.value.ip) {
      znet.ExternalIP := None;
    }
    DropForeignSubnets(znet);
    if znet.PublicNodeID != 0 {
      match client(znet.PublicNodeID)
      case NoClient =>
        znet.PublicNodeID := 0;
        return Panicked;
      case Down => znet.PublicNodeID := 0;
      case Up =>
    }
    if !znet.AddWGAccess {
      znet.ExternalIP := None;
    }
    return Done;
  }

  /** Distinct /24s, cut down to the entries inside a /16, are sound for it. */
  lemma InvalidationIsSound(range: IPNet, subnets: Subnets, left: Subnets, external: Option<IPNet>, kept: Option<IPNet>)
    requires range.ones == 16 && DistinctSubnets(subnets, external)
    requires forall n :: n in left ==> n in subnets && left[n] == subnets[n] && range.Contains(left[n].ip)
    requires kept.Some? ==> kept == external && range.Contains(kept.value.ip)
    ensures Sound(range, left, kept)
  {
    forall n | n in left ensures InNetwork(range, left[n]) { ContainsByOctets(range, left[n].ip); }
    if kept.Some? { ContainsByOctets(range, kept.value.ip); }
    SoundIsDistinct(range, left, kept);
  }
}
