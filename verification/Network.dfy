/** The declared network and the allocation of one /24 per node inside its /16. */
module NetworkWorkload {
  import opened Wrappers
  import opened Addresses
  import opened GridTypes

  type Subnets = map<NodeId, IPNet>

  /** The WireGuard address that belongs to a subnet. */
  function WgIP(n: IPNet): IPNet {
    IPNet(IPv4(100, 64, n.ip.b, n.ip.c), 32)
  }

  const WG_RANGE := IPNet(IPv4(100, 64, 0, 0), 16)

  /** The WireGuard configuration handed to the external user. */
  datatype AccessConfig = AccessConfig(
    address: IPNet, secret: Key, peerKey: PublicKey, allowedIPs: seq<IPNet>, endpoint: Endpoint)

  function NodeSubnet(range: IPNet, octet: byte): IPNet {
    IPNet(IPv4(range.ip.a, range.ip.b, octet, range.ip.c), 24)
  }

  function ExternalSubnet(range: IPNet, octet: byte): IPNet {
    IPNet(IPv4(range.ip.a, range.ip.b, octet, range.ip.d), 24)
  }

  function NodesOf(nodes: seq<NodeId>): set<NodeId> {
    set n | n in nodes
  }

  function Kept(subnets: Subnets, nodes: seq<NodeId>): Subnets {
    map n | n in subnets && n in nodes :: subnets[n]
  }

  function OctetsOf(subnets: Subnets): set<byte> {
    set n | n in subnets :: subnets[n].ip.c
  }

  /** The allocation of the nodes that still lack a subnet, in order; None when the octets run out. */
  function AllocateNodes(range: IPNet, used: set<byte>, cur: byte, nodes: seq<NodeId>, ips: Subnets): Option<Subnets>
    decreases |nodes|
  {
    if nodes == [] then Some(ips)
    else if nodes[0] in ips then AllocateNodes(range, used, cur, nodes[1..], ips)
    else
      var f := FirstFree(used, cur);
      if f == 255 then None
      else AllocateNodes(range, used + {f}, f, nodes[1..], ips[nodes[0] := NodeSubnet(range, f)])
  }

  /** What an allocation starts from, once the external subnet is settled. */
  datatype Start = Start(external: Option<IPNet>, used: set<byte>, cur: byte)

  function AllocateExternal(range: IPNet, addWGAccess: bool, external: Option<IPNet>, kept: Subnets): Option<Start> {
    var used := OctetsOf(kept);
    if !addWGAccess then Some(Start(external, used, 2))
    else if external.Some? then Some(Start(external, used + {external.value.ip.c}, 2))
    else
      var f := FirstFree(used, 2);
      if f == 255 then None else Some(Start(Some(ExternalSubnet(range, f)), used + {f}, f))
  }

  datatype Allocation = Allocation(external: Option<IPNet>, subnets: Option<Subnets>)

  /** The whole assignment: the external subnet afterwards, and the node subnets unless it fails. */
  function Allocate(range: IPNet, addWGAccess: bool, external: Option<IPNet>, subnets: Subnets,
      nodes: seq<NodeId>): Allocation {
    var kept := Kept(subnets, nodes);
    match AllocateExternal(range, addWGAccess, external, kept)
    case None => Allocation(external, None)
    case Some(s) => Allocation(s.external, AllocateNodes(range, s.used, s.cur, nodes, kept))
  }

  /** The network workload of one node. */
  function ZosWorkload(
      name: string, description: string, range: IPNet, subnet: IPNet, secret: Key, port: uint16,
      peers: seq<Peer>): Workload
  {
    Workload(name, 0, description, Network(range, subnet, secret, port, peers), PENDING)
  }

  /** The network as the user declares it and as the deployer completes it. */
  class ZNet {
    const Name: string
    const Description: string
    var Nodes: seq<NodeId>
    var IPRange: IPNet
    var AddWGAccess: bool
    var AccessWGConfig: Option<AccessConfig>
    var ExternalIP: Option<IPNet>
    var ExternalSK: Key
    var PublicNodeID: NodeId
    var NodesIPRange: Subnets
    var NodeDeploymentID: map<NodeId, ContractId>
    var WGPort: map<NodeId, int>
    var Keys: map<NodeId, Key>

    constructor (name: string, description: string, nodes: seq<NodeId>, range: IPNet, addWGAccess: bool, secret: Key)
      ensures Nodes == nodes && IPRange == range && AddWGAccess == addWGAccess && ExternalSK == secret
      ensures ExternalIP == None && NodesIPRange == map[] && NodeDeploymentID == map[] && PublicNodeID == 0
    {
      Name, Description, Nodes, IPRange, AddWGAccess := name, description, nodes, range, addWGAccess;
      AccessWGConfig, ExternalIP, ExternalSK, PublicNodeID := None, None, secret, 0;
      NodesIPRange, NodeDeploymentID, WGPort, Keys := map[], map[], map[], map[];
    }

    /** Only /16 networks are accepted. */
    method Validate() returns (ok: bool)
      ensures ok <==> IPRange.ones == 16
    {
      ok := IPRange.ones == 16;
    }

    method NextFreeIP(used: seq<byte>, start: byte) returns (cur: byte, ok: bool)
      ensures cur == FirstFree(OctetSet(used), start)
      ensures ok <==> cur != 255
    {
      cur := start;
      while cur in used && cur <= 254
        invariant FirstFree(OctetSet(used), start) == FirstFree(OctetSet(used), cur)
        decreases 255 - cur
      {
        cur := cur + 1;
      }
      ok := cur != 255;
    }

    method AssignNodesIPs(nodes: seq<NodeId>) returns (ok: bool)
      modifies this`ExternalIP, this`NodesIPRange
      ensures var r := Allocate(IPRange, AddWGAccess, old(ExternalIP), old(NodesIPRange), nodes);
              && ExternalIP == r.external
              && (ok <==> r.subnets.Some?)
              && NodesIPRange == if ok then r.subnets.value else old(NodesIPRange)
    {
      var ips: Subnets := map[];
      var usedIPs: seq<byte> := [];
      var keys := NodesIPRange.Keys;
      while keys != {}
        invariant keys <= NodesIPRange.Keys
        invariant ips == map n | n in NodesIPRange && n !in keys && n in nodes :: NodesIPRange[n]
        invariant OctetSet(usedIPs) == OctetsOf(ips)
        decreases keys
        modifies {}
      {
        var node :| node in keys;
        ghost var before, was := ips, usedIPs;
        if node in nodes {
          usedIPs := usedIPs + [NodesIPRange[node].ip.c];
          ips := ips[node := NodesIPRange[node]];
          OctetsOfInsert(before, node, NodesIPRange[node], was);
        }
        keys := keys - {node};
      }
      assert ips == Kept(NodesIPRange, nodes);
      ghost var kept := ips;
      var cur: byte := 2;
      if AddWGAccess {
        if ExternalIP.Some? {
          AppendOctet(usedIPs, ExternalIP.value.ip.c);
          usedIPs := usedIPs + [ExternalIP.value.ip.c];
        } else {
          var free;
          cur, free := NextFreeIP(usedIPs, cur);
          if !free { return false; }
          AppendOctet(usedIPs, cur);
          usedIPs := usedIPs + [cur];
          ExternalIP := Some(ExternalSubnet(IPRange, cur));
        }
      }
      ghost var start := AllocateExternal(IPRange, AddWGAccess, old(ExternalIP), kept).value;
      assert start == Start(ExternalIP, OctetSet(usedIPs), cur);
      for i := 0 to |nodes|
        invariant AllocateNodes(IPRange, start.used, start.cur, nodes, kept)
               == AllocateNodes(IPRange, OctetSet(usedIPs), cur, nodes[i..], ips)
        modifies {}
      {
        assert nodes[i..][0] == nodes[i] && nodes[i..][1..] == nodes[i + 1..];
        if nodes[i] !in ips {
          var free;
          cur, free := NextFreeIP(usedIPs, cur);
          if !free { return false; }
          AppendOctet(usedIPs, cur);
          usedIPs := usedIPs + [cur];
          ips := ips[nodes[i] := NodeSubnet(IPRange, cur)];
        }
      }
      NodesIPRange := ips;
      return true;
    }

    /** Nodes without a key get a generated one; existing keys stay. */
    method AssignNodesWGKey(nodes: seq<NodeId>, generate: NodeId -> Option<Key>) returns (ok: bool)
      modifies this`Keys
      ensures ok <==> forall n :: n in nodes && n !in old(Keys) ==> generate(n).Some?
      ensures forall n :: n in old(Keys) ==> n in Keys && Keys[n] == old(Keys)[n]
      ensures forall n :: n in Keys && n !in old(Keys) ==> n in nodes && generate(n) == Some(Keys[n])
      ensures ok ==> Keys.Keys == old(Keys).Keys + NodesOf(nodes)
    {
      for i := 0 to |nodes|
        invariant forall n :: n in nodes[..i] && n !in old(Keys) ==> generate(n).Some?
        invariant forall n :: n in old(Keys) ==> n in Keys && Keys[n] == old(Keys)[n]
        invariant forall n :: n in Keys && n !in old(Keys) ==> n in nodes && generate(n) == Some(Keys[n])
        invariant forall n :: n in nodes[..i] ==> n in Keys
      {
        if nodes[i] !in Keys {
          if generate(nodes[i]).None? { return false; }
          Keys := Keys[nodes[i] := generate(nodes[i]).value];
        }
      }
      return true;
    }

    /** Nodes without a port get a free one from the node; existing ports stay. */
    method AssignNodesWGPort(nodes: seq<NodeId>, freePort: NodeId -> Option<int>) returns (ok: bool)
      modifies this`WGPort
      ensures ok <==> forall n :: n in nodes && n !in old(WGPort) ==> freePort(n).Some?
      ensures forall n :: n in old(WGPort) ==> n in WGPort && WGPort[n] == old(WGPort)[n]
      ensures forall n :: n in WGPort && n !in old(WGPort) ==> n in nodes && freePort(n) == Some(WGPort[n])
      ensures ok ==> WGPort.Keys == old(WGPort).Keys + NodesOf(nodes)
    {
      for i := 0 to |nodes|
        invariant forall n :: n in nodes[..i] && n !in old(WGPort) ==> freePort(n).Some?
        invariant forall n :: n in old(WGPort) ==> n in WGPort && WGPort[n] == old(WGPort)[n]
        invariant forall n :: n in WGPort && n !in old(WGPort) ==> n in nodes && freePort(n) == Some(WGPort[n])
        invariant forall n :: n in nodes[..i] ==> n in WGPort
      {
        if nodes[i] !in WGPort {
          if freePort(nodes[i]).None? { return false; }
          WGPort := WGPort[nodes[i] := freePort(nodes[i]).value];
        }
      }
      return true;
    }
  }

  lemma OctetsOfInsert(ips: Subnets, n: NodeId, net: IPNet, s: seq<byte>)
    requires n !in ips && OctetSet(s) == OctetsOf(ips)
    ensures OctetSet(s + [net.ip.c]) == OctetsOf(ips[n := net])
  {
    AppendOctet(s, net.ip.c);
    var more := ips[n := net];
    assert OctetsOf(more) == OctetsOf(ips) + {net.ip.c} by {
      assert more[n] == net;
      forall m | m in ips ensures more[m] == ips[m] {}
      forall b | b in OctetsOf(ips) ensures b in OctetsOf(more) {
        var m :| m in ips && ips[m].ip.c == b;
        assert more[m].ip.c == b;
      }
    }
  }

  // ----- What an allocation guarantees -----

  /** A /24 of the network: the one shape every assigned subnet has. */
  predicate InNetwork(range: IPNet, n: IPNet) {
    n.ones == 24 && n.ip.a == range.ip.a && n.ip.b == range.ip.b
  }

  /** Subnets are /24s of the network with pairwise distinct third octets, the external one included. */
  ghost predicate Sound(range: IPNet, subnets: Subnets, external: Option<IPNet>) {
    && (forall n :: n in subnets ==> InNetwork(range, subnets[n]))
    && (forall m, n :: m in subnets && n in subnets && m != n ==> subnets[m].ip.c != subnets[n].ip.c)
    && (external.Some? ==>
          && InNetwork(range, external.value)
          && forall n :: n in subnets ==> subnets[n].ip.c != external.value.ip.c)
  }

  /** The octets in use are those of the subnets and of the external subnet. */
  ghost predicate Covers(used: set<byte>, subnets: Subnets, external: Option<IPNet>) {
    && (forall n :: n in subnets ==> subnets[n].ip.c in used)
    && (external.Some? ==> external.value.ip.c in used)
  }

  lemma SoundInsert(range: IPNet, used: set<byte>, ips: Subnets, external: Option<IPNet>, node: NodeId, f: byte)
    requires Sound(range, ips, external) && Covers(used, ips, external)
    requires node !in ips && f !in used
    ensures var more := ips[node := NodeSubnet(range, f)];
            Sound(range, more, external) && Covers(used + {f}, more, external)
  {
  }

  /** The allocation only adds subnets, each with an octet that was free. */
  ghost predicate Extends(more: Subnets, ips: Subnets, used: set<byte>) {
    && (forall n :: n in ips ==> n in more && more[n] == ips[n])
    && (forall n :: n in more && n !in ips ==> 2 <= more[n].ip.c <= 254 && more[n].ip.c !in used)
  }

  lemma ExtendsMore(range: IPNet, used: set<byte>, ips: Subnets, node: NodeId, f: byte, more: Subnets)
    requires node !in ips && 2 <= f <= 254 && f !in used
    requires Extends(more, ips[node := NodeSubnet(range, f)], used + {f})
    ensures Extends(more, ips, used)
  {
    assert more[node] == NodeSubnet(range, f);
  }

  lemma {:induction false} AllocateNodesSound(
      range: IPNet, used: set<byte>, cur: byte, nodes: seq<NodeId>, ips: Subnets, external: Option<IPNet>)
    requires Sound(range, ips, external) && Covers(used, ips, external) && BelowUsed(used, cur)
    ensures var r := AllocateNodes(range, used, cur, nodes, ips);
            r.Some? ==>
              && Sound(range, r.value, external)
              && r.value.Keys == ips.Keys + NodesOf(nodes)
              && Extends(r.value, ips, used)
    decreases |nodes|
  {
    if nodes != [] {
      NodesOfHead(nodes);
      if nodes[0] in ips {
        AllocateNodesSound(range, used, cur, nodes[1..], ips, external);
      } else {
        var f := FirstFree(used, cur);
        if f != 255 {
          FirstFreeTaken(used, cur);
          var more := ips[nodes[0] := NodeSubnet(range, f)];
          SoundInsert(range, used, ips, external, nodes[0], f);
          AllocateNodesSound(range, used + {f}, f, nodes[1..], more, external);
          var r := AllocateNodes(range, used + {f}, f, nodes[1..], more);
          if r.Some? { ExtendsMore(range, used, ips, nodes[0], f, r.value); }
        }
      }
    }
  }

  lemma NodesOfHead(nodes: seq<NodeId>)
    requires nodes != []
    ensures NodesOf(nodes) == {nodes[0]} + NodesOf(nodes[1..])
  {
    assert nodes == [nodes[0]] + nodes[1..];
  }

  lemma {:induction false} AllocateNodesCovers(
      range: IPNet, used: set<byte>, cur: byte, nodes: seq<NodeId>, ips: Subnets)
    ensures var r := AllocateNodes(range, used, cur, nodes, ips);
            r.Some? ==> r.value.Keys == ips.Keys + NodesOf(nodes)
    decreases |nodes|
  {
    if nodes != [] {
      NodesOfHead(nodes);
      if nodes[0] in ips {
        AllocateNodesCovers(range, used, cur, nodes[1..], ips);
      } else {
        var f := FirstFree(used, cur);
        if f != 255 {
          AllocateNodesCovers(range, used + {f}, f, nodes[1..], ips[nodes[0] := NodeSubnet(range, f)]);
        }
      }
    }
  }

  /** Whatever it started from, a successful assignment covers the list and settles the external subnet. */
  lemma AllocationCovers(range: IPNet, addWGAccess: bool, external: Option<IPNet>, subnets: Subnets, nodes: seq<NodeId>)
    ensures var r := Allocate(range, addWGAccess, external, subnets, nodes);
            r.subnets.Some? ==> r.subnets.value.Keys == NodesOf(nodes) && (addWGAccess ==> r.external.Some?)
  {
    var kept := Kept(subnets, nodes);
    var start := AllocateExternal(range, addWGAccess, external, kept);
    if start.Some? {
      AllocateNodesCovers(range, start.value.used, start.value.cur, nodes, kept);
      assert kept.Keys + NodesOf(nodes) == NodesOf(nodes);
    }
  }

  /** The nodes of the list that still need a subnet. */
  function Lacking(nodes: seq<NodeId>, ips: Subnets): set<NodeId> {
    NodesOf(nodes) - ips.Keys
  }

  lemma LackingPresent(nodes: seq<NodeId>, ips: Subnets)
    requires nodes != [] && nodes[0] in ips
    ensures Lacking(nodes, ips) == Lacking(nodes[1..], ips)
  {
    NodesOfHead(nodes);
  }

  lemma LackingServed(nodes: seq<NodeId>, ips: Subnets, net: IPNet)
    requires nodes != [] && nodes[0] !in ips
    ensures |Lacking(nodes, ips)| == |Lacking(nodes[1..], ips[nodes[0] := net])| + 1
  {
    NodesOfHead(nodes);
    assert nodes[0] in Lacking(nodes, ips);
    assert Lacking(nodes[1..], ips[nodes[0] := net]) == Lacking(nodes, ips) - {nodes[0]};
  }

  lemma {:induction false} AllocateNodesComplete(range: IPNet, used: set<byte>, cur: byte, nodes: seq<NodeId>,
      ips: Subnets)
    requires BelowUsed(used, cur)
    ensures AllocateNodes(range, used, cur, nodes, ips).None? <==> |Lacking(nodes, ips)| > |FreeOctets(used)|
    decreases |nodes|
  {
    if nodes == [] {
      assert Lacking(nodes, ips) == {};
    } else if nodes[0] in ips {
      LackingPresent(nodes, ips);
      AllocateNodesComplete(range, used, cur, nodes[1..], ips);
    } else {
      var f := FirstFree(used, cur);
      FreeCount(used, cur);
      LackingServed(nodes, ips, NodeSubnet(range, f));
      if f != 255 {
        FirstFreeTaken(used, cur);
        AllocateNodesComplete(range, used + {f}, f, nodes[1..], ips[nodes[0] := NodeSubnet(range, f)]);
      }
    }
  }

  /** Third octets the assignment may not hand out: those of kept nodes and of a kept external subnet. */
  function Taken(addWGAccess: bool, external: Option<IPNet>, kept: Subnets): set<byte> {
    OctetsOf(kept) + if addWGAccess && external.Some? then {external.value.ip.c} else {}
  }

  /**
   * Soundness. From kept entries that were sound, every node of the list gets a /24 of the network,
   * third octets are pairwise distinct (the external subnet included), kept nodes keep their subnet,
   * and an external subnet exists whenever access was asked for.
   */
  lemma AllocationIsSound(
      range: IPNet, addWGAccess: bool, external: Option<IPNet>, subnets: Subnets, nodes: seq<NodeId>)
    requires Sound(range, Kept(subnets, nodes), if addWGAccess then external else None)
    ensures var r := Allocate(range, addWGAccess, external, subnets, nodes);
            r.subnets.Some? ==>
              && Sound(range, r.subnets.value, if addWGAccess then r.external else None)
              && (addWGAccess ==> r.external.Some?)
              && (external.Some? || !addWGAccess ==> r.external == external)
              && r.subnets.value.Keys == NodesOf(nodes)
              && (forall n :: n in nodes && n in subnets ==> r.subnets.value[n] == subnets[n])
  {
    var kept := Kept(subnets, nodes);
    var used := OctetsOf(kept);
    if addWGAccess && external.None? && FirstFree(used, 2) != 255 {
      FirstFreeTaken(used, 2);
    }
    var start := AllocateExternal(range, addWGAccess, external, kept);
    if start.Some? {
      var ext := if addWGAccess then start.value.external else None;
      forall n | n in kept ensures kept[n].ip.c in used {}
      assert Sound(range, kept, ext) && Covers(start.value.used, kept, ext);
      AllocateNodesSound(range, start.value.used, start.value.cur, nodes, kept, ext);
    }
  }

  /** What an assignment needs beyond the kept entries: a subnet per lacking node, and an external one if missing. */
  function Demand(addWGAccess: bool, external: Option<IPNet>, kept: Subnets, nodes: seq<NodeId>): nat {
    |Lacking(nodes, kept)| + if addWGAccess && external.None? then 1 else 0
  }

  /** Completeness. The assignment fails exactly when the demand outnumbers the free octets in 2..254. */
  lemma AllocationIsComplete(range: IPNet, addWGAccess: bool, external: Option<IPNet>, subnets: Subnets,
      nodes: seq<NodeId>)
    ensures var kept := Kept(subnets, nodes);
            Allocate(range, addWGAccess, external, subnets, nodes).subnets.None? <==>
            Demand(addWGAccess, external, kept, nodes) > |FreeOctets(Taken(addWGAccess, external, kept))|
  {
    var kept := Kept(subnets, nodes);
    FreeCount(OctetsOf(kept), 2);
    if FirstFree(OctetsOf(kept), 2) != 255 { FirstFreeTaken(OctetsOf(kept), 2); }
    assert OctetsOf(kept) + {} == OctetsOf(kept);
    var start := AllocateExternal(range, addWGAccess, external, kept);
    if start.Some? {
      AllocateNodesComplete(range, start.value.used, start.value.cur, nodes, kept);
    }
  }

  lemma OctetsInsert(ips: Subnets, node: NodeId, net: IPNet, b: byte)
    requires node !in ips
    ensures b in OctetsOf(ips[node := net]) <==> b in OctetsOf(ips) || b == net.ip.c
  {
    var more := ips[node := net];
    assert more[node] == net;
    if b in OctetsOf(ips) {
      var n :| n in ips && ips[n].ip.c == b;
      assert more[n].ip.c == b;
    }
  }

  /** Nodes get the lowest free octets, as many as they lack. */
  lemma {:induction false} AllocateNodesOctets(
      range: IPNet, used: set<byte>, cur: byte, nodes: seq<NodeId>, ips: Subnets, b: byte)
    requires BelowUsed(used, cur) && AllocateNodes(range, used, cur, nodes, ips).Some?
    ensures b in OctetsOf(AllocateNodes(range, used, cur, nodes, ips).value)
            <==> b in OctetsOf(ips) || IsAmongLowest(used, b, |Lacking(nodes, ips)|)
    decreases |nodes|
  {
    if nodes == [] {
      assert Lacking(nodes, ips) == {};
    } else if nodes[0] in ips {
      LackingPresent(nodes, ips);
      AllocateNodesOctets(range, used, cur, nodes[1..], ips, b);
    } else {
      var f := FirstFree(used, cur);
      var net := NodeSubnet(range, f);
      LackingServed(nodes, ips, net);
      LowestStep(used, cur, b, |Lacking(nodes, ips)|);
      FirstFreeTaken(used, cur);
      OctetsInsert(ips, nodes[0], net, b);
      AllocateNodesOctets(range, used + {f}, f, nodes[1..], ips[nodes[0] := net], b);
    }
  }

  /**
   * The third octets after a successful assignment: those taken before, and the lowest free ones in
   * 2..254, as many as were needed.
   */
  lemma AllocatedOctets(
      range: IPNet, addWGAccess: bool, external: Option<IPNet>, subnets: Subnets, nodes: seq<NodeId>, b: byte)
    requires Allocate(range, addWGAccess, external, subnets, nodes).subnets.Some?
    ensures var r, kept := Allocate(range, addWGAccess, external, subnets, nodes), Kept(subnets, nodes);
            var taken := Taken(addWGAccess, external, kept);
            b in OctetsOf(r.subnets.value) || (addWGAccess && r.external.Some? && b == r.external.value.ip.c)
            <==> b in taken || IsAmongLowest(taken, b, Demand(addWGAccess, external, kept, nodes))
  {
    var kept := Kept(subnets, nodes);
    var start := AllocateExternal(range, addWGAccess, external, kept).value;
    var octets := OctetsOf(kept);
    if addWGAccess && external.None? {
      LowestStep(octets, 2, b, Demand(addWGAccess, external, kept, nodes));
      FirstFreeTaken(octets, 2);
      assert Taken(addWGAccess, external, kept) == octets;
    } else if addWGAccess {
      assert start.used == Taken(addWGAccess, external, kept);
    } else {
      assert Taken(addWGAccess, external, kept) == octets;
    }
    AllocateNodesOctets(range, start.used, start.cur, nodes, kept, b);
  }

  /** A failed assignment that had to find an external subnet first may leave it: at the least free octet. */
  lemma LeftExternal(range: IPNet, external: Option<IPNet>, subnets: Subnets, nodes: seq<NodeId>, b: byte)
    requires external.None? && Allocate(range, true, external, subnets, nodes).external.Some?
    ensures var e := Allocate(range, true, external, subnets, nodes).external.value;
            InNetwork(range, e) && (b == e.ip.c <==> IsAmongLowest(OctetsOf(Kept(subnets, nodes)), b, 1))
  {
    var octets := OctetsOf(Kept(subnets, nodes));
    LowestStep(octets, 2, b, 1);
    FirstFreeTaken(octets, 2);
  }

  lemma {:induction false} AllocateNothing(range: IPNet, used: set<byte>, cur: byte, nodes: seq<NodeId>, ips: Subnets)
    requires NodesOf(nodes) <= ips.Keys
    ensures AllocateNodes(range, used, cur, nodes, ips) == Some(ips)
    decreases |nodes|
  {
    if nodes != [] {
      assert nodes[0] in NodesOf(nodes);
      assert NodesOf(nodes[1..]) <= NodesOf(nodes);
      AllocateNothing(range, used, cur, nodes[1..], ips);
    }
  }

  /** Stability. A second assignment over the outcome of a successful one changes nothing. */
  lemma AllocationIsStable(
      range: IPNet, addWGAccess: bool, external: Option<IPNet>, subnets: Subnets, nodes: seq<NodeId>)
    requires Sound(range, Kept(subnets, nodes), if addWGAccess then external else None)
    requires Allocate(range, addWGAccess, external, subnets, nodes).subnets.Some?
    ensures var r := Allocate(range, addWGAccess, external, subnets, nodes);
            Allocate(range, addWGAccess, r.external, r.subnets.value, nodes) == r
  {
    AllocationIsSound(range, addWGAccess, external, subnets, nodes);
    var r := Allocate(range, addWGAccess, external, subnets, nodes);
    assert Kept(r.subnets.value, nodes) == r.subnets.value;
    var s := AllocateExternal(range, addWGAccess, r.external, r.subnets.value).value;
    AllocateNothing(range, s.used, s.cur, nodes, r.subnets.value);
  }

  /** Sound subnets of a /16 do not overlap, and neither do their WireGuard addresses. */
  lemma SoundSubnetsDisjoint(range: IPNet, m: IPNet, n: IPNet)
    requires InNetwork(range, m) && InNetwork(range, n) && m.ip.c != n.ip.c
    ensures Disjoint(m, n) && Disjoint(WgIP(m), WgIP(n))
  {
    forall x: IPv4
      ensures !(m.Contains(x) && n.Contains(x)) && !(WgIP(m).Contains(x) && WgIP(n).Contains(x))
    {
      ContainsByOctets(m, x);
      ContainsByOctets(n, x);
      ContainsByOctets(WgIP(m), x);
      ContainsByOctets(WgIP(n), x);
    }
  }
}
