/**
 * A whole network deployment: validate, invalidate, compile, deploy, and read back what the nodes hold.
 */
module NetworkRun {
  import opened Wrappers
  import opened Addresses
  import opened GridTypes
  import opened NetworkWorkload
  import opened Compiler = NetworkDeployer
  import opened Routing
  import opened SubnetReadBack
  import opened NodesConfig
  import U = DeploymentUtils
  import W = GridWorld

  // ----- Up to the emitted deployments -----

  /** Invalidation makes the remaining subnets sound for the declared /16; on any exit distinct ones stay distinct. */
  method Refresh(chain: ContractId -> ContractLookup, client: NodeId -> ClientLookup, znet: ZNet) returns (ok: bool)
    requires DistinctSubnets(znet.NodesIPRange, if znet.AddWGAccess then znet.ExternalIP else None)
    modifies znet`NodeDeploymentID, znet`NodesIPRange, znet`Keys, znet`WGPort, znet`ExternalIP, znet`PublicNodeID
    ensures ok ==>
      && var contracts := old(znet.NodeDeploymentID);
      && znet.IPRange.ones == 16 && Sound(znet.IPRange, znet.NodesIPRange, znet.ExternalIP)
      && znet.NodeDeploymentID == Living(chain, contracts, contracts)
      && znet.NodesIPRange == InRange(znet.IPRange, Living(chain, contracts, old(znet.NodesIPRange)))
      && znet.ExternalIP == KeptExternal(znet.IPRange, znet.AddWGAccess, old(znet.ExternalIP))
      && znet.PublicNodeID ==
         (if old(znet.PublicNodeID) != 0 && client(old(znet.PublicNodeID)).Up? then old(znet.PublicNodeID) else 0)
      && (forall n :: n in znet.Keys ==> n in old(znet.Keys) && znet.Keys[n] == old(znet.Keys)[n])
    ensures DistinctSubnets(znet.NodesIPRange, if znet.AddWGAccess then znet.ExternalIP else None)
  {
    ok := znet.Validate();
    if !ok { return; }
    var done := InvalidateBrokenAttributes(chain, client, znet);
    if !done.Done? { return false; }
    InvalidationIsSound(znet.IPRange, old(znet.NodesIPRange), znet.NodesIPRange,
                        if znet.AddWGAccess then old(znet.ExternalIP) else None, znet.ExternalIP);
  }

  /** Existing secrets are pairwise distinct, and generated ones are new. */
  ghost predicate FreshKeys(g: Grid, keys: map<NodeId, Key>, externalSK: Key) {
    && (forall m, n :: m in keys && n in keys && m != n ==> keys[m] != keys[n])
    && (forall n :: n in keys ==> keys[n] != externalSK)
    && (forall n :: g.generateKey(n).Some? ==> g.generateKey(n) != Some(externalSK))
    && (forall m, n :: n in keys && g.generateKey(m).Some? ==> g.generateKey(m) != Some(keys[n]))
    && (forall m, n :: m != n && g.generateKey(m).Some? ==> g.generateKey(m) != g.generateKey(n))
  }

  ghost predicate SecretsFresh(g: Grid, znet: ZNet)
    reads znet`Keys, znet`ExternalSK
  {
    FreshKeys(g, znet.Keys, znet.ExternalSK)
  }

  /** Every key is an old one or a generated one. */
  ghost predicate KeysFrom(g: Grid, was: map<NodeId, Key>, keys: map<NodeId, Key>) {
    forall n :: n in keys ==> (n in was && keys[n] == was[n]) || g.generateKey(n) == Some(keys[n])
  }

  lemma KeysStayDistinct(g: Grid, was: map<NodeId, Key>, l: Layout)
    requires l.Complete() && FreshKeys(g, was, l.externalSK) && KeysFrom(g, was, l.keys)
    ensures DistinctKeys(l)
  {
  }

  /** `l` is the layout the network records, and what its declaration compiles to. */
  ghost predicate Records(g: Grid, znet: ZNet, l: Layout)
    reads znet
  {
    && WellFormed(l)
    && l.range == znet.IPRange && l.addWGAccess == znet.AddWGAccess && l.externalSK == znet.ExternalSK
    && l.subnets == znet.NodesIPRange && l.external == znet.ExternalIP && l.keys == znet.Keys
    && l.hidden == Hidden(g, znet.Nodes)
    && (forall n :: n in Accessible(g, znet.Nodes) ==> n in l.accessible)
    && (znet.AddWGAccess ==> znet.AccessWGConfig == Some(UserConfig(l)))
  }

  ghost predicate SubnetsApart(znet: ZNet)
    reads znet`NodesIPRange, znet`AddWGAccess, znet`ExternalIP
  {
    DistinctSubnets(znet.NodesIPRange, if znet.AddWGAccess then znet.ExternalIP else None)
  }

  datatype PrepareError = NotRefreshed | NotGenerated(error: GenerateError)

  /** What a deployment starts from: the living contracts, the subnets and the external subnet that stay. */
  datatype Origin = Origin(contracts: map<NodeId, ContractId>, subnets: Subnets, external: Option<IPNet>)

  function OriginOf(chain: ContractId -> ContractLookup, znet: ZNet): Origin
    reads znet`NodeDeploymentID, znet`IPRange, znet`NodesIPRange, znet`AddWGAccess, znet`ExternalIP
  {
    Origin(Living(chain, znet.NodeDeploymentID, znet.NodeDeploymentID),
          InRange(znet.IPRange, Living(chain, znet.NodeDeploymentID, znet.NodesIPRange)),
          KeptExternal(znet.IPRange, znet.AddWGAccess, znet.ExternalIP))
  }

  /** The nodes a plan connects. */
  ghost function Connected(plan: Option<Plan>): seq<NodeId> {
    match plan
    case None => []
    case Some(p) => p.hidden + p.accessible
  }

  /** The plan once invalidation has dropped a public node that is not up. */
  ghost function PlanOf(client: NodeId -> ClientLookup, g: Grid, znet: ZNet): Option<Plan>
    reads znet`PublicNodeID, znet`Nodes, znet`AddWGAccess
  {
    var public := znet.PublicNodeID;
    PlanFor(g, znet.Nodes, znet.AddWGAccess, if public != 0 && client(public).Up? then public else 0)
  }

  /** A failed assignment of a missing external subnet takes an octet no other tracked node has. */
  ghost predicate FailureIsClean(addWGAccess: bool, s: Origin, nodes: seq<NodeId>) {
    addWGAccess && s.external.None? ==>
      forall m :: m in s.subnets && m !in nodes ==>
          !IsAmongLowest(OctetsOf(Kept(s.subnets, nodes)), s.subnets[m].ip.c, 1)
  }

  /** Where the emitted layout was allocated from. */
  ghost predicate AllocatedFrom(l: Layout, s: Origin, nodes: seq<NodeId>) {
    && WellFormed(l) && (!l.addWGAccess ==> s.external.None?)
    && l.hidden + l.accessible == nodes && Sound(l.range, s.subnets, if l.addWGAccess then s.external else None)
    && Allocate(l.range, l.addWGAccess, s.external, s.subnets, nodes) == Allocation(l.external, Some(l.subnets))
  }

  /** The emitted deployments are those of the layout the network records, allocated from where it started. */
  ghost predicate IsPrepared(
      g: Grid, znet: ZNet, s: Origin, nodes: seq<NodeId>, l: Layout, deployments: map<NodeId, Deployment>)
    reads znet
  {
    AllocatedFrom(l, s, nodes) && Records(g, znet, l) && deployments == Compile(l) &&
        znet.NodeDeploymentID == s.contracts
  }

  lemma LayoutIsPrepared(g: Grid, znet: ZNet, publicNode: NodeId, s: Origin, l: Layout)
    requires 0 !in znet.Nodes && g.proxyPublicNode != Some(0)
    requires l.range.ones == 16 && !(l.range.ip.a == 100 && l.range.ip.b == 64)
    requires Sound(l.range, s.subnets, s.external) && (!l.addWGAccess ==> s.external.None?) &&
             s.contracts == znet.NodeDeploymentID
    requires l == LayoutOf(znet, Plan(l.hidden, l.accessible, l.hosts, l.relay)) && l.Complete()
    requires PlanFor(g, znet.Nodes, l.addWGAccess, publicNode) == Some(Plan(l.hidden, l.accessible, l.hosts, l.relay))
    requires Allocate(l.range, l.addWGAccess, s.external, s.subnets, l.hidden + l.accessible) ==
             Allocation(l.external, Some(l.subnets))
    requires l.addWGAccess ==> znet.AccessWGConfig == Some(UserConfig(l))
    ensures IsPrepared(g, znet, s, l.hidden + l.accessible, l, Compile(l)) && SubnetsApart(znet)
  {
    LayoutIsWellFormed(g, znet.Nodes, publicNode, s.external, s.subnets, l);
    SoundIsDistinct(l.range, l.subnets, if l.addWGAccess then l.external else None);
  }

  /** What stays is distinct, and so is what a successful assignment makes of it. */
  lemma AssignmentIsApart(range: IPNet, addWGAccess: bool, s: Origin, nodes: seq<NodeId>)
    requires Sound(range, s.subnets, s.external) && (!addWGAccess ==> s.external.None?)
    ensures DistinctSubnets(s.subnets, if addWGAccess then s.external else None)
    ensures var a := Allocate(range, addWGAccess, s.external, s.subnets, nodes);
            a.subnets.Some? ==> DistinctSubnets(a.subnets.value, if addWGAccess then a.external else None)
  {
    var a := Allocate(range, addWGAccess, s.external, s.subnets, nodes);
    AllocationIsSound(range, addWGAccess, s.external, s.subnets, nodes);
    SoundIsDistinct(range, s.subnets, s.external);
    if a.subnets.Some? { SoundIsDistinct(range, a.subnets.value, if addWGAccess then a.external else None); }
  }

  /** Compiles the network from sound subnets, and says what each exit leaves of them. */
  method GenerateFrom(g: Grid, znet: ZNet, ghost s: Origin, ghost plan: Option<Plan>)
    returns (r: Result<map<NodeId, Deployment>, GenerateError>, ghost l: Layout)
    requires 0 !in znet.Nodes && g.proxyPublicNode != Some(0)
    requires znet.IPRange.ones == 16 && !(znet.IPRange.ip.a == 100 && znet.IPRange.ip.b == 64)
    requires s == Origin(znet.NodeDeploymentID, znet.NodesIPRange, znet.ExternalIP) &&
             (!znet.AddWGAccess ==> s.external.None?)
    requires Sound(znet.IPRange, s.subnets, s.external) &&
             plan == PlanFor(g, znet.Nodes, znet.AddWGAccess, znet.PublicNodeID)
    modifies znet`PublicNodeID, znet`ExternalIP, znet`NodesIPRange, znet`Keys, znet`WGPort, znet`AccessWGConfig
    ensures r.Success? ==> IsPrepared(g, znet, s, Connected(plan), l, r.value)
    ensures KeysFrom(g, old(znet.Keys), znet.Keys)
    ensures r != Failure(OutOfSubnets) ==> SubnetsApart(znet)
    ensures r == Failure(OutOfSubnets) ==>
            (SubnetsApart(znet) <==> FailureIsClean(znet.AddWGAccess, s, Connected(plan)))
  {
    ghost var public := znet.PublicNodeID;
    AssignmentIsApart(znet.IPRange, znet.AddWGAccess, s, Connected(plan));
    r := GenerateVersionlessDeployments(g, znet);
    l := LayoutOf(znet, if plan.Some? then plan.value else Plan([], [], map[], 0));
    if r.Success? {
      LayoutIsPrepared(g, znet, public, s, l);
    } else if r.error == OutOfSubnets {
      FailureLeaves(znet.IPRange, znet.AddWGAccess, s, Connected(plan));
    }
  }

  /**
   * The local half of a network deployment: validate, invalidate, generate. From distinct subnets a
   * success yields a well-formed layout and distinct subnets. So does every failure but one: running
   * out of subnets, which may have settled on a new external subnet.
   */
  method Prepare(
      chain: ContractId -> ContractLookup, client: NodeId -> ClientLookup, g: Grid, znet: ZNet, ghost s: Origin,
      ghost nodes: seq<NodeId>)
    returns (r: Result<map<NodeId, Deployment>, PrepareError>, ghost l: Layout)
    requires 0 !in znet.Nodes && g.proxyPublicNode != Some(0)
    requires !(znet.IPRange.ip.a == 100 && znet.IPRange.ip.b == 64)
    requires s == OriginOf(chain, znet) && nodes == Connected(PlanOf(client, g, znet))
    requires SubnetsApart(znet)
    modifies znet
    ensures unchanged(znet`Nodes) && unchanged(znet`IPRange) && unchanged(znet`AddWGAccess) &&
            unchanged(znet`ExternalSK)
    ensures r.Success? ==> IsPrepared(g, znet, s, nodes, l, r.value)
    ensures r.Success? && old(SecretsFresh(g, znet)) ==> DistinctKeys(l)
    ensures r != Failure(NotGenerated(OutOfSubnets)) ==> SubnetsApart(znet)
    ensures r == Failure(NotGenerated(OutOfSubnets)) ==>
            (SubnetsApart(znet) <==> FailureIsClean(znet.AddWGAccess, s, nodes))
  {
    ghost var plan, keys := PlanOf(client, g, znet), znet.Keys;
    var ok := Refresh(chain, client, znet);
    if !ok {
      l := LayoutOf(znet, Plan([], [], map[], 0));
      return Failure(NotRefreshed), l;
    }
    FreshKeysOfLess(g, keys, znet.Keys, znet.ExternalSK);
    ghost var left := znet.Keys;
    var deployments;
    deployments, l := GenerateFrom(g, znet, s, plan);
    if deployments.Success? && FreshKeys(g, left, znet.ExternalSK) { KeysStayDistinct(g, left, l); }
    r := if deployments.Success? then Success(deployments.value) else Failure(NotGenerated(deployments.error));
  }

  lemma FreshKeysOfLess(g: Grid, was: map<NodeId, Key>, keys: map<NodeId, Key>, externalSK: Key)
    requires forall n :: n in keys ==> n in was && keys[n] == was[n]
    ensures FreshKeys(g, was, externalSK) ==> FreshKeys(g, keys, externalSK)
  {
  }

  lemma FailureLeaves(range: IPNet, addWGAccess: bool, s: Origin, nodes: seq<NodeId>)
    requires range.ones == 16 && Sound(range, s.subnets, s.external) && (!addWGAccess ==> s.external.None?)
    requires Allocate(range, addWGAccess, s.external, s.subnets, nodes).subnets.None?
    ensures DistinctSubnets(s.subnets,
            if addWGAccess then Allocate(range, addWGAccess, s.external, s.subnets, nodes).external else None)
            <==> FailureIsClean(addWGAccess, s, nodes)
  {
    SoundIsDistinct(range, s.subnets, s.external);
    var r := Allocate(range, addWGAccess, s.external, s.subnets, nodes);
    if addWGAccess && s.external.None? {
      if r.external.Some? {
        DistinctAfterFailure(range, s.external, s.subnets, nodes);
      } else {
        NoneIsLowest(OctetsOf(Kept(s.subnets, nodes)));
      }
    }
  }

  /** With no octet left none is the lowest free one. */
  lemma NoneIsLowest(used: set<byte>)
    requires FirstFree(used, 2) == 255
    ensures forall b :: !IsAmongLowest(used, b, 1)
  {
    FreeCount(used, 2);
    forall b ensures !IsAmongLowest(used, b, 1) { assert b !in FreeOctets(used); }
  }

  // ----- What a node is sent, and what is read back -----

  /** What is read from the deployment emitted for a node. */
  lemma CompiledConfig(l: Layout, n: NodeId)
    requires l.Complete() && l.IsMember(n)
    ensures var ws := Compile(l)[n].workloads;
            && ConfigOf(ws) == Some(Network(l.range, l.subnets[n], l.keys[n], l.ports[n] % 0x1_0000, PeersOf(l, n)))
            && (OpensAccess(ws) <==> LacksEndpoint(PeersOf(l, n)))
  {
    var ws := Compile(l)[n].workloads;
    assert |ws| == 1 && ws[0] in ws;
  }

  /** Only the relay has peers without an endpoint, and it has some exactly when a relay is needed. */
  lemma AccessIsRelaying(l: Layout, n: NodeId)
    requires WellFormed(l) && l.IsMember(n)
    ensures LacksEndpoint(PeersOf(l, n)) <==> n == l.relay && NeedsRelay(l.addWGAccess, l.hidden, l.accessible)
  {
    if n in l.accessible {
      forall peer | peer in MeshPeers(l, n, l.accessible) ensures peer.endpoint.Some? {
        MeshPeersAre(l, n, l.accessible, peer);
      }
      if n == l.relay && l.addWGAccess {
        assert ExternalPeer(l) in AccessiblePeers(l, n);
      } else if n == l.relay && l.hidden != [] {
        var h := l.hidden[0];
        HiddenPeersAre(l, l.hidden, HiddenPeer(l, h));
        assert HiddenPeer(l, h) in AccessiblePeers(l, n);
      }
    }
  }

  /** A run leaves the copies of nodes it does not list alone. */
  lemma UnlistedStay(
      lib: U.Library, g: W.Grid, mid: W.Grid, h: W.Grid, olds: D.Contracts, news: D.Deployments, cur: D.Contracts,
      n: NodeId)
    requires D.Run(lib, g, mid, h, olds, news, cur, None) && n in olds && n !in news
    ensures n in D.Held(g.store, olds) <==> n in D.Held(h.store, cur)
    ensures n in D.Held(h.store, cur) ==> D.Held(h.store, cur)[n] == D.Held(g.store, olds)[n]
  {
    var k := (n, olds[n]);
    assert cur[n] == olds[n];
    if k in g.store {
      assert mid.store[k] == g.store[k] && D.Touched(lib, mid, h, olds, news, k);
    } else {
      assert k.0 !in news.Keys - olds.Keys;
    }
  }

  /** A node of the layout holds what was emitted for it. */
  lemma MemberRead(
      lib: U.Library, g: W.Grid, mid: W.Grid, h: W.Grid, olds: D.Contracts, l: Layout, cur: D.Contracts, n: NodeId)
    requires WellFormed(l) && D.Run(lib, g, mid, h, olds, Compile(l), cur, None) && D.Faithful(lib) && l.IsMember(n)
    ensures n in D.Held(h.store, cur)
    ensures var ws := D.Held(h.store, cur)[n].workloads;
            && ConfigOf(ws) == Some(Network(l.range, l.subnets[n], l.keys[n], l.ports[n] % 0x1_0000, PeersOf(l, n)))
            && (OpensAccess(ws) <==> n == l.relay && NeedsRelay(l.addWGAccess, l.hidden, l.accessible))
  {
    D.SuccessHolds(lib, g, mid, h, olds, Compile(l), cur, n);
    CompiledConfig(l, n);
    AccessIsRelaying(l, n);
    ReadFromContents(D.Held(h.store, cur)[n].workloads, Compile(l)[n].workloads);
  }

  /** The copies of nodes outside the layout. */
  ghost function Others(dls: D.Deployments, l: Layout): D.Deployments {
    map n | n in dls && !l.IsMember(n) :: dls[n]
  }

  /**
   * What a successful run leaves to be read: the layout's own subnets, keys and tables on its nodes,
   * and on every other tracked node what it held before. Access reads as opened exactly when the
   * layout needs a relay or another node's copy opens it.
   */
  ghost predicate IsReadBack(before: D.Deployments, after: D.Deployments, l: Layout)
    requires l.Complete()
  {
    && SubnetsIn(after) == Overlaid(SubnetsIn(before), l.subnets)
    && (forall n :: l.IsMember(n) ==>
          && n in after && n in KeysIn(after) && KeysIn(after)[n] == l.keys[n] &&
             PeersIn(after[n].workloads) == PeersOf(l, n))
    && (AccessIn(after) <==> NeedsRelay(l.addWGAccess, l.hidden, l.accessible) || AccessIn(Others(before, l)))
  }

  lemma OthersStay(
      lib: U.Library, g: W.Grid, mid: W.Grid, h: W.Grid, olds: D.Contracts, l: Layout, cur: D.Contracts)
    requires l.Complete() && D.Run(lib, g, mid, h, olds, Compile(l), cur, None)
    ensures forall n :: !l.IsMember(n) ==> (n in D.Held(g.store, olds) <==> n in D.Held(h.store, cur))
    ensures forall n :: !l.IsMember(n) && n in D.Held(g.store, olds) ==>
            D.Held(g.store, olds)[n] == D.Held(h.store, cur)[n]
  {
    forall n | !l.IsMember(n)
      ensures n in D.Held(g.store, olds) <==> n in D.Held(h.store, cur)
      ensures n in D.Held(g.store, olds) ==> D.Held(g.store, olds)[n] == D.Held(h.store, cur)[n]
    {
      if n in olds { UnlistedStay(lib, g, mid, h, olds, Compile(l), cur, n); }
    }
  }

  lemma RunIsReadBack(
      lib: U.Library, g: W.Grid, mid: W.Grid, h: W.Grid, olds: D.Contracts, l: Layout, cur: D.Contracts)
    requires WellFormed(l) && l.subnets.Keys == NodesOf(l.hidden + l.accessible)
    requires D.Run(lib, g, mid, h, olds, Compile(l), cur, None) && D.Faithful(lib)
    ensures IsReadBack(D.Held(g.store, olds), D.Held(h.store, cur), l)
  {
    var before, after := D.Held(g.store, olds), D.Held(h.store, cur);
    forall n | l.IsMember(n)
      ensures n in after && ConfigOf(after[n].workloads)
                            == Some(Network(l.range, l.subnets[n], l.keys[n], l.ports[n] % 0x1_0000, PeersOf(l, n)))
      ensures OpensAccess(after[n].workloads) <==> n == l.relay && NeedsRelay(l.addWGAccess, l.hidden, l.accessible)
    {
      MemberRead(lib, g, mid, h, olds, l, cur, n);
    }
    OthersStay(lib, g, mid, h, olds, l, cur);
    OverlayIsRead(before, after, l);
    AccessIsRead(before, after, l);
  }

  lemma OverlayIsRead(before: D.Deployments, after: D.Deployments, l: Layout)
    requires l.Complete() && l.subnets.Keys == NodesOf(l.hidden + l.accessible)
    requires forall n :: l.IsMember(n) ==>
               n in after && ConfigOf(after[n].workloads).Some? &&
                   ConfigOf(after[n].workloads).value.subnet == l.subnets[n]
    requires forall n :: !l.IsMember(n) ==> (n in before <==> n in after)
    requires forall n :: !l.IsMember(n) && n in before ==> before[n] == after[n]
    ensures SubnetsIn(after) == Overlaid(SubnetsIn(before), l.subnets)
  {
    forall n ensures n in l.subnets <==> l.IsMember(n) {
      assert n in l.subnets.Keys <==> n in l.hidden + l.accessible;
    }
  }

  lemma AccessIsRead(before: D.Deployments, after: D.Deployments, l: Layout)
    requires WellFormed(l)
    requires forall n :: l.IsMember(n) ==>
               n in after &&
                   (OpensAccess(after[n].workloads) <==>
                       n == l.relay && NeedsRelay(l.addWGAccess, l.hidden, l.accessible))
    requires forall n :: !l.IsMember(n) ==> (n in before <==> n in after)
    requires forall n :: !l.IsMember(n) && n in before ==> before[n] == after[n]
    ensures AccessIn(after) <==> NeedsRelay(l.addWGAccess, l.hidden, l.accessible) || AccessIn(Others(before, l))
  {
    var others := Others(before, l);
    if NeedsRelay(l.addWGAccess, l.hidden, l.accessible) {
      assert l.IsMember(l.relay) && OpensAccess(after[l.relay].workloads);
    } else if AccessIn(others) {
      var n :| n in others && OpensAccess(others[n].workloads);
      assert n in after && after[n] == others[n];
    } else {
      forall n | n in after ensures !OpensAccess(after[n].workloads) {
        if !l.IsMember(n) { assert n in others && others[n] == after[n]; }
      }
    }
  }

  // ----- The deployed tables -----

  /** The peers a participant has: a node's from the copy it holds, the user's from its configuration. */
  function TableIn(dls: D.Deployments, config: Option<AccessConfig>, range: IPNet, p: Participant): seq<Peer> {
    match p
    case Node(n) => if n in dls then PeersIn(dls[n].workloads) else []
    case External =>
      if config.None? then []
      else [Peer(range, config.value.peerKey, config.value.allowedIPs, Some(config.value.endpoint))]
  }

  /** By the deployed tables, a packet of `p` reaches `a` of `q` in at most two hops, none of which drops it. */
  ghost predicate Delivers(
      l: Layout, dls: D.Deployments, config: Option<AccessConfig>, p: Participant, q: Participant, source: IPv4,
      a: IPv4)
    requires l.Complete() && IsParticipant(l, p) && IsParticipant(l, q)
  {
    var hop := NextHop(l, p, q);
    && IsParticipant(l, hop)
    && ForwardsBy(l, TableIn(dls, config, l.range, p), a, hop)
    && (if hop == q then ForwardsBy(l, TableIn(dls, config, l.range, q), source, p)
        else
          && ForwardsBy(l, TableIn(dls, config, l.range, hop), a, q)
          && ForwardsBy(l, TableIn(dls, config, l.range, hop), source, p)
          && ForwardsBy(l, TableIn(dls, config, l.range, q), source, hop))
  }

  /** The deployed network routes between all of its participants. */
  ghost predicate Connects(l: Layout, dls: D.Deployments, config: Option<AccessConfig>)
    requires l.Complete()
  {
    forall p, q, source, a ::
      IsParticipant(l, p) && IsParticipant(l, q) && p != q && Owns(l, p, source) && Owns(l, q, a) ==>
        Delivers(l, dls, config, p, q, source, a)
  }

  lemma DeployedConnects(l: Layout, dls: D.Deployments, config: Option<AccessConfig>)
    requires Good(l) && (l.addWGAccess ==> config == Some(UserConfig(l)))
    requires forall n :: l.IsMember(n) ==> n in dls && PeersIn(dls[n].workloads) == PeersOf(l, n)
    ensures Connects(l, dls, config)
  {
    forall p | IsParticipant(l, p) ensures TableIn(dls, config, l.range, p) == Table(l, p) {}
    forall p, q, source, a | IsParticipant(l, p) && IsParticipant(l, q) && p != q && Owns(l, p, source) && Owns(l, q, a)
      ensures Delivers(l, dls, config, p, q, source, a)
    {
      Reachability(l, p, q, a);
      SourceIsAdmitted(l, p, q, source);
    }
  }

  // ----- The whole deployment -----

  lemma AllocatedKeys(l: Layout, s: Origin, nodes: seq<NodeId>)
    requires AllocatedFrom(l, s, nodes)
    ensures l.subnets.Keys == NodesOf(l.hidden + l.accessible)
  {
    AllocationIsSound(l.range, l.addWGAccess, s.external, s.subnets, nodes);
  }

  /** The subnets read back are distinct exactly when the unlisted nodes' were clear before. */
  lemma ReadBackIsApart(l: Layout, s: Origin, nodes: seq<NodeId>, before: D.Deployments, after: D.Deployments)
    requires AllocatedFrom(l, s, nodes) && IsReadBack(before, after, l)
    ensures DistinctSubnets(SubnetsIn(after), if AccessIn(after) then l.external else None)
            <==> UnlistedAreClear(l.range, l.addWGAccess, s.external, s.subnets, nodes, SubnetsIn(before))
  {
    DistinctAfterReadBack(l.range, l.addWGAccess, s.external, s.subnets, nodes, SubnetsIn(before));
    if !l.addWGAccess {
      AllocationIsSound(l.range, l.addWGAccess, s.external, s.subnets, nodes);
      assert l.external.None?;
    }
  }

  /** Sends what was emitted; the tracked contracts are recorded on every exit. */
  method Send(
      deployer: D.Deployer, znet: ZNet, deployments: map<NodeId, Deployment>, ghost l: Layout, ghost s: Origin,
      ghost nodes: seq<NodeId>)
    returns (outcome: D.Outcome)
    requires W.Valid(deployer.world.grid) && W.Timed(deployer.world.faults)
    requires AllocatedFrom(l, s, nodes) && deployments == Compile(l)
    modifies znet`NodeDeploymentID, deployer.world
    ensures W.Valid(deployer.world.grid)
    ensures D.Grown(old(deployer.world.grid), deployer.world.grid, old(znet.NodeDeploymentID), znet.NodeDeploymentID)
    ensures outcome.Deployed? && D.Faithful(deployer.lib) ==>
              IsReadBack(D.Held(old(deployer.world.grid).store, old(znet.NodeDeploymentID)),
                         D.Held(deployer.world.grid.store, znet.NodeDeploymentID), l)
  {
    ghost var g, olds := deployer.world.grid, znet.NodeDeploymentID;
    var batch := new D.Batch(deployments);
    var cur;
    ghost var first;
    cur, outcome, first := deployer.Deploy(znet.NodeDeploymentID, batch);
    znet.NodeDeploymentID := cur;
    if outcome.Deployed? && D.Faithful(deployer.lib) {
      AllocatedKeys(l, s, nodes);
      RunIsReadBack(deployer.lib, g, first.mid, deployer.world.grid, olds, l, cur);
    }
  }

  /**
   * The network records what its nodes hold. Its subnets are distinct exactly when those of the tracked
   * nodes it does not connect were clear before, and with distinct keys its tables route.
   */
  ghost predicate RecordsHeld(
      znet: ZNet, l: Layout, s: Origin, nodes: seq<NodeId>, before: D.Deployments, after: D.Deployments)
    reads znet`NodesIPRange, znet`Keys, znet`WGPort, znet`ExternalIP, znet`AddWGAccess, znet`AccessWGConfig
  {
    && AllocatedFrom(l, s, nodes) && IsReadBack(before, after, l)
    && znet.NodesIPRange == SubnetsIn(after) && znet.Keys == KeysIn(after) && znet.WGPort == PortsIn(after)
    && znet.ExternalIP == l.external && (znet.AddWGAccess <==> AccessIn(after))
    && (SubnetsApart(znet) <==>
       UnlistedAreClear(l.range, l.addWGAccess, s.external, s.subnets, nodes, SubnetsIn(before)))
    && (DistinctKeys(l) ==> Connects(l, after, znet.AccessWGConfig))
  }

  lemma ReadIsRecorded(
      znet: ZNet, l: Layout, s: Origin, nodes: seq<NodeId>, before: D.Deployments, after: D.Deployments)
    requires AllocatedFrom(l, s, nodes) && IsReadBack(before, after, l)
    requires znet.NodesIPRange == SubnetsIn(after) && znet.Keys == KeysIn(after) && znet.WGPort == PortsIn(after)
    requires znet.ExternalIP == l.external && (znet.AddWGAccess <==> AccessIn(after))
    requires l.addWGAccess ==> znet.AccessWGConfig == Some(UserConfig(l))
    ensures RecordsHeld(znet, l, s, nodes, before, after)
  {
    ReadBackIsApart(l, s, nodes, before, after);
    if DistinctKeys(l) { DeployedConnects(l, after, znet.AccessWGConfig); }
  }

  /** Reads back a network whose run was successful. */
  method Finish(
      deployer: D.Deployer, znet: ZNet, ghost l: Layout, ghost s: Origin, ghost nodes: seq<NodeId>,
      ghost before: D.Deployments)
    returns (ok: bool, ghost after: D.Deployments)
    requires AllocatedFrom(l, s, nodes) && znet.ExternalIP == l.external
    requires l.addWGAccess ==> znet.AccessWGConfig == Some(UserConfig(l))
    modifies znet`Keys, znet`WGPort, znet`NodesIPRange, znet`AddWGAccess, znet`AccessWGConfig, deployer.world`clock
    ensures !ok ==> unchanged(znet)
    ensures after == D.Held(deployer.world.grid.store, znet.NodeDeploymentID)
    ensures ok && IsReadBack(before, after, l) ==> RecordsHeld(znet, l, s, nodes, before, after)
  {
    ok := ReadNodesConfig(deployer, znet);
    after := D.Held(deployer.world.grid.store, znet.NodeDeploymentID);
    if ok && IsReadBack(before, after, l) { ReadIsRecorded(znet, l, s, nodes, before, after); }
  }

  datatype SendResult = NotDeployed(outcome: D.Outcome) | NotRead | Completed

  /** Deploys what was prepared, and reads the nodes back. */
  method DeployPrepared(
      deployer: D.Deployer, znet: ZNet, deployments: map<NodeId, Deployment>, ghost l: Layout, ghost s: Origin,
      ghost nodes: seq<NodeId>)
    returns (r: SendResult, ghost after: D.Deployments)
    requires W.Valid(deployer.world.grid) && W.Timed(deployer.world.faults)
    requires AllocatedFrom(l, s, nodes) && deployments == Compile(l) && znet.NodeDeploymentID == s.contracts
    requires znet.ExternalIP == l.external && (l.addWGAccess ==> znet.AccessWGConfig == Some(UserConfig(l)))
    modifies znet`Keys, znet`WGPort, znet`NodesIPRange, znet`AddWGAccess, znet`AccessWGConfig, znet`NodeDeploymentID,
        deployer.world
    ensures W.Valid(deployer.world.grid)
    ensures !r.Completed? ==> SubnetsApart(znet) == old(SubnetsApart(znet))
    ensures after == D.Held(deployer.world.grid.store, znet.NodeDeploymentID)
    ensures r.Completed? && D.Faithful(deployer.lib) ==>
              RecordsHeld(znet, l, s, nodes, D.Held(old(deployer.world.grid).store, s.contracts), after)
  {
    ghost var before := D.Held(deployer.world.grid.store, s.contracts);
    var outcome := Send(deployer, znet, deployments, l, s, nodes);
    after := D.Held(deployer.world.grid.store, znet.NodeDeploymentID);
    if !outcome.Deployed? { return NotDeployed(outcome), after; }
    var ok;
    ok, after := Finish(deployer, znet, l, s, nodes, before);
    r := if ok then Completed else NotRead;
  }

  datatype DeployResult = NotPrepared(error: PrepareError) | Sent(result: SendResult)

  /**
   * A network deployment from distinct subnets. They stay distinct on every exit but two. Running out of
   * subnets keeps them distinct exactly when `FailureIsClean`; a complete run exactly when the subnets of
   * the tracked nodes it does not connect were clear before. A complete run leaves a network whose
   * deployed tables route between all participants, and records what its nodes hold.
   */
  method Deploy(
      deployer: D.Deployer, chain: ContractId -> ContractLookup, client: NodeId -> ClientLookup, g: Grid, znet: ZNet,
      ghost s: Origin, ghost nodes: seq<NodeId>)
    returns (r: DeployResult, ghost l: Layout, ghost after: D.Deployments)
    requires 0 !in znet.Nodes && g.proxyPublicNode != Some(0)
    requires !(znet.IPRange.ip.a == 100 && znet.IPRange.ip.b == 64)
    requires s == OriginOf(chain, znet) && nodes == Connected(PlanOf(client, g, znet))
    requires SubnetsApart(znet) && W.Valid(deployer.world.grid) && W.Timed(deployer.world.faults)
    modifies znet, deployer.world
    ensures W.Valid(deployer.world.grid)
    ensures r.NotPrepared? ==> deployer.world.grid == old(deployer.world.grid)
    ensures r != Sent(Completed) && r != NotPrepared(NotGenerated(OutOfSubnets)) ==> SubnetsApart(znet)
    ensures r == NotPrepared(NotGenerated(OutOfSubnets)) ==>
              (SubnetsApart(znet) <==> FailureIsClean(old(znet.AddWGAccess), s, nodes))
    ensures after == D.Held(deployer.world.grid.store, znet.NodeDeploymentID)
    ensures r == Sent(Completed) ==>
      && l.range == old(znet.IPRange) && l.addWGAccess == old(znet.AddWGAccess) &&
         l.hidden == Hidden(g, old(znet.Nodes))
    ensures r == Sent(Completed) && D.Faithful(deployer.lib) ==>
      && RecordsHeld(znet, l, s, nodes, D.Held(old(deployer.world.grid).store, s.contracts), after)
      && (old(SecretsFresh(g, znet)) ==> DistinctKeys(l))
  {
    var prepared, sent;
    prepared, l := Prepare(chain, client, g, znet, s, nodes);
    after := D.Held(deployer.world.grid.store, znet.NodeDeploymentID);
    if prepared.Failure? { return NotPrepared(prepared.error), l, after; }
    sent, after := DeployPrepared(deployer, znet, prepared.value, l, s, nodes);
    r := Sent(sent);
  }
}
