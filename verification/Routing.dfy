/**
 * Routing over the emitted tables. WireGuard sends a packet to the peer whose AllowedIPs contain
 * its destination (WireGuard whitepaper, section 2, Cryptokey Routing).
 */
module Routing {
  import opened Wrappers
  import opened Addresses
  import opened GridTypes
  import opened NetworkWorkload
  import opened NetworkDeployer
  import opened Slices

  datatype Participant = Node(id: NodeId) | External

  predicate IsParticipant(l: Layout, p: Participant) {
    match p
    case Node(n) => l.IsMember(n)
    case External => l.addWGAccess
  }

  predicate IsAccessible(l: Layout, p: Participant) {
    p.Node? && p.id in l.accessible
  }

  ghost predicate Good(l: Layout) {
    WellFormed(l) && DistinctKeys(l)
  }

  function SubnetOf(l: Layout, p: Participant): IPNet
    requires l.Complete() && IsParticipant(l, p)
  {
    match p
    case Node(n) => l.subnets[n]
    case External => l.external.value
  }

  function KeyOf(l: Layout, p: Participant): PublicKey
    requires l.Complete() && IsParticipant(l, p)
  {
    match p
    case Node(n) => PublicKey(l.keys[n])
    case External => PublicKey(l.externalSK)
  }

  /** The peers a participant is configured with, read from what the compiler emitted. */
  function Table(l: Layout, p: Participant): seq<Peer>
    requires l.Complete() && IsParticipant(l, p)
  {
    match p
    case Node(n) => Compile(l)[n].workloads[0].data.peers
    case External =>
      var config := UserConfig(l);
      [Peer(l.range, config.peerKey, config.allowedIPs, Some(config.endpoint))]
  }

  /** The addresses a participant answers for: its subnet and its WireGuard address. */
  ghost predicate Owns(l: Layout, p: Participant, a: IPv4)
    requires l.Complete() && IsParticipant(l, p)
  {
    SubnetOf(l, p).Contains(a) || WgIP(SubnetOf(l, p)).Contains(a)
  }

  ghost predicate AnyContains(nets: seq<IPNet>, a: IPv4) {
    exists k :: 0 <= k < |nets| && nets[k].Contains(a)
  }

  /** A participant with this table hands packets for `a` to `q` and to nobody else. */
  ghost predicate ForwardsBy(l: Layout, table: seq<Peer>, a: IPv4, q: Participant)
    requires l.Complete() && IsParticipant(l, q)
  {
    && (exists peer :: peer in table && AnyContains(peer.allowedIPs, a))
    && (forall peer, x :: peer in table && AnyContains(peer.allowedIPs, a) && IsParticipant(l, x)
                          ==> (KeyOf(l, x) == peer.publicKey <==> x == q))
  }

  /** `p` hands packets for `a` to `q` and to nobody else; it accepts packets from `a` from `q` and from nobody else. */
  ghost predicate Forwards(l: Layout, p: Participant, a: IPv4, q: Participant)
    requires l.Complete() && IsParticipant(l, p) && IsParticipant(l, q)
  {
    ForwardsBy(l, Table(l, p), a, q)
  }

  // ----- Who owns an address -----

  lemma OwnsByOctets(l: Layout, p: Participant, a: IPv4)
    requires WellFormed(l) && IsParticipant(l, p)
    ensures var n := SubnetOf(l, p);
            && InNetwork(l.range, n)
            && (Owns(l, p, a) <==>
                  || (a.a == l.range.ip.a && a.b == l.range.ip.b && a.c == n.ip.c)
                  || a == IPv4(100, 64, l.range.ip.b, n.ip.c))
  {
    ContainsByOctets(SubnetOf(l, p), a);
    ContainsByOctets(WgIP(SubnetOf(l, p)), a);
  }

  /** An address has at most one owner. */
  lemma OwnerIsUnique(l: Layout, p: Participant, q: Participant, a: IPv4)
    requires WellFormed(l) && IsParticipant(l, p) && IsParticipant(l, q)
    requires Owns(l, p, a) && Owns(l, q, a)
    ensures p == q
  {
    OwnsByOctets(l, p, a);
    OwnsByOctets(l, q, a);
    assert SubnetOf(l, p).ip.c == SubnetOf(l, q).ip.c;
  }

  // ----- What the tables contain -----

  lemma {:induction false} MeshPeersAre(l: Layout, node: NodeId, nodes: seq<NodeId>, peer: Peer)
    requires l.Complete() && forall n :: n in nodes ==> n in l.accessible
    ensures peer in MeshPeers(l, node, nodes) <==> exists x :: x in nodes && x != node && peer == MeshPeer(l, x)
    decreases |nodes|
  {
    if nodes != [] {
      var init, last := nodes[..|nodes| - 1], nodes[|nodes| - 1];
      assert nodes == init + [last];
      MeshPeersAre(l, node, init, peer);
    }
  }

  lemma {:induction false} HiddenPeersAre(l: Layout, nodes: seq<NodeId>, peer: Peer)
    requires l.Complete() && forall n :: n in nodes ==> n in l.hidden
    ensures peer in HiddenPeers(l, nodes) <==> exists x :: x in nodes && peer == HiddenPeer(l, x)
    decreases |nodes|
  {
    if nodes != [] {
      var init, last := nodes[..|nodes| - 1], nodes[|nodes| - 1];
      assert nodes == init + [last];
      HiddenPeersAre(l, init, peer);
    }
  }

  lemma AnyContainsConcat(s: seq<IPNet>, t: seq<IPNet>, a: IPv4)
    ensures AnyContains(s + t, a) <==> AnyContains(s, a) || AnyContains(t, a)
  {
    if AnyContains(s, a) {
      var k :| 0 <= k < |s| && s[k].Contains(a);
      assert (s + t)[k].Contains(a);
    } else if AnyContains(t, a) {
      var k :| 0 <= k < |t| && t[k].Contains(a);
      assert (s + t)[|s| + k].Contains(a);
    }
  }

  lemma RangesContain(n: IPNet, a: IPv4)
    ensures AnyContains(Ranges(n), a) <==> n.Contains(a) || WgIP(n).Contains(a)
  {
    assert Ranges(n)[0] == n && Ranges(n)[1] == WgIP(n);
  }

  lemma {:induction false} RangesOfContain(l: Layout, nodes: seq<NodeId>, a: IPv4)
    requires l.Complete() && forall n :: n in nodes ==> n in l.hidden
    ensures AnyContains(RangesOf(l, nodes), a) <==> exists n :: n in nodes && Owns(l, Node(n), a)
    decreases |nodes|
  {
    if nodes != [] {
      var init, last := nodes[..|nodes| - 1], nodes[|nodes| - 1];
      assert nodes == init + [last];
      RangesOfContain(l, init, a);
      AnyContainsConcat(RangesOf(l, init), Ranges(l.subnets[last]), a);
      RangesContain(l.subnets[last], a);
    }
  }

  /** The participant sits behind the relay. */
  ghost predicate IsBehind(l: Layout, p: Participant) {
    IsParticipant(l, p) && (p.External? || p.id in l.hidden)
  }

  lemma BehindContains(l: Layout, a: IPv4)
    requires l.Complete()
    ensures AnyContains(Behind(l), a) <==> exists p :: IsBehind(l, p) && Owns(l, p, a)
  {
    RangesOfContain(l, l.hidden, a);
    var rest := if l.addWGAccess then Ranges(l.external.value) else [];
    AnyContainsConcat(RangesOf(l, l.hidden), rest, a);
    if l.addWGAccess { RangesContain(l.external.value, a); }
    if AnyContains(RangesOf(l, l.hidden), a) {
      var n :| n in l.hidden && Owns(l, Node(n), a);
      assert IsBehind(l, Node(n));
    } else if AnyContains(rest, a) {
      assert IsBehind(l, External) && Owns(l, External, a);
    }
  }

  /** What a mesh entry admits: its node, and everything behind it if that node is the relay. */
  lemma MeshPeerAdmits(l: Layout, x: NodeId, q: Participant, a: IPv4)
    requires WellFormed(l) && x in l.accessible && IsParticipant(l, q) && Owns(l, q, a)
    ensures AnyContains(MeshPeer(l, x).allowedIPs, a) <==> q == Node(x) || (x == l.relay && IsBehind(l, q))
  {
    var more := if x == l.relay then Behind(l) else [];
    AnyContainsConcat(Ranges(l.subnets[x]), more, a);
    RangesContain(l.subnets[x], a);
    BehindContains(l, a);
    if Owns(l, Node(x), a) { OwnerIsUnique(l, Node(x), q, a); }
    if AnyContains(Behind(l), a) {
      var p :| IsBehind(l, p) && Owns(l, p, a);
      OwnerIsUnique(l, p, q, a);
    }
  }

  /** As soon as two participants exist and one is hidden or external, there is a usable relay. */
  lemma RelayExists(l: Layout, p: Participant, q: Participant)
    requires WellFormed(l) && p != q && IsParticipant(l, p) && IsParticipant(l, q)
    requires IsBehind(l, p) || IsBehind(l, q)
    ensures l.relay != 0 && l.relay in l.accessible && l.relay !in l.hidden
  {
    if !l.addWGAccess {
      var all := l.hidden + l.accessible;
      assert p.id in all && q.id in all;
      var i :| 0 <= i < |all| && all[i] == p.id;
      var j :| 0 <= j < |all| && all[j] == q.id;
      assert i != j;
    }
  }

  // ----- Reachability -----

  /** The hop towards `q`: directly between accessible nodes, through the relay otherwise. */
  function NextHop(l: Layout, p: Participant, q: Participant): Participant {
    if !IsAccessible(l, p) then Node(l.relay)
    else if IsAccessible(l, q) || p == Node(l.relay) then q
    else Node(l.relay)
  }

  /** The peers of an accessible node that admit an address of `q` all carry the key of the next hop. */
  lemma AccessibleForwards(l: Layout, n: NodeId, q: Participant, a: IPv4)
    requires Good(l) && n in l.accessible && IsParticipant(l, q) && q != Node(n) && Owns(l, q, a)
    requires IsBehind(l, q) ==> l.relay in l.accessible
    ensures Forwards(l, Node(n), a, NextHop(l, Node(n), q))
  {
    var hop := NextHop(l, Node(n), q);
    var table := Table(l, Node(n));
    assert table == AccessiblePeers(l, n);
    forall peer | peer in table && AnyContains(peer.allowedIPs, a)
      ensures peer.publicKey == KeyOf(l, hop)
    {
      PeerAdmitting(l, n, q, a, peer);
    }
    forall peer, x | peer in table && AnyContains(peer.allowedIPs, a) && IsParticipant(l, x)
      ensures KeyOf(l, x) == peer.publicKey <==> x == hop
    {
      KeysIdentify(l, x, hop);
    }
    SomePeerAdmits(l, n, q, a);
  }

  lemma KeysIdentify(l: Layout, p: Participant, q: Participant)
    requires l.Complete() && DistinctKeys(l) && IsParticipant(l, p) && IsParticipant(l, q)
    ensures KeyOf(l, p) == KeyOf(l, q) <==> p == q
  {
  }

  /** What is behind the relay is only ever admitted by the relay's own entry or, on the relay, by its own. */
  lemma LeafAdmits(l: Layout, p: Participant, q: Participant, a: IPv4)
    requires WellFormed(l) && IsBehind(l, p) && IsParticipant(l, q) && Owns(l, q, a)
    requires AnyContains(Ranges(SubnetOf(l, p)), a)
    ensures p == q
  {
    RangesContain(SubnetOf(l, p), a);
    OwnerIsUnique(l, p, q, a);
  }

  lemma MeshHop(l: Layout, n: NodeId, x: NodeId, q: Participant, a: IPv4)
    requires WellFormed(l) && n in l.accessible && x in l.accessible && x != n
    requires IsParticipant(l, q) && Owns(l, q, a) && AnyContains(MeshPeer(l, x).allowedIPs, a)
    ensures NextHop(l, Node(n), q) == Node(x)
  {
    MeshPeerAdmits(l, x, q, a);
  }

  lemma MeshAdmitting(l: Layout, n: NodeId, q: Participant, a: IPv4, peer: Peer)
    requires Good(l) && n in l.accessible && IsParticipant(l, q) && Owns(l, q, a)
    requires peer in MeshPeers(l, n, l.accessible) && AnyContains(peer.allowedIPs, a)
    ensures peer.publicKey == KeyOf(l, NextHop(l, Node(n), q))
  {
    MeshPeersAre(l, n, l.accessible, peer);
    var x :| x in l.accessible && x != n && peer == MeshPeer(l, x);
    MeshHop(l, n, x, q, a);
  }

  lemma HiddenAdmitting(l: Layout, n: NodeId, q: Participant, a: IPv4, peer: Peer)
    requires Good(l) && n == l.relay && n in l.accessible && IsParticipant(l, q) && Owns(l, q, a)
    requires peer in HiddenPeers(l, l.hidden) && AnyContains(peer.allowedIPs, a)
    ensures peer.publicKey == KeyOf(l, NextHop(l, Node(n), q))
  {
    HiddenPeersAre(l, l.hidden, peer);
    var x :| x in l.hidden && peer == HiddenPeer(l, x);
    LeafAdmits(l, Node(x), q, a);
  }

  lemma PeerAdmitting(l: Layout, n: NodeId, q: Participant, a: IPv4, peer: Peer)
    requires Good(l) && n in l.accessible && IsParticipant(l, q) && q != Node(n) && Owns(l, q, a)
    requires peer in AccessiblePeers(l, n) && AnyContains(peer.allowedIPs, a)
    requires IsBehind(l, q) ==> l.relay in l.accessible
    ensures peer.publicKey == KeyOf(l, NextHop(l, Node(n), q))
  {
    if peer in MeshPeers(l, n, l.accessible) {
      MeshAdmitting(l, n, q, a, peer);
    } else if l.addWGAccess && peer == ExternalPeer(l) {
      LeafAdmits(l, External, q, a);
    } else {
      HiddenAdmitting(l, n, q, a, peer);
    }
  }

  lemma SomePeerAdmits(l: Layout, n: NodeId, q: Participant, a: IPv4)
    requires Good(l) && n in l.accessible && IsParticipant(l, q) && q != Node(n) && Owns(l, q, a)
    requires IsBehind(l, q) ==> l.relay in l.accessible
    ensures exists peer :: peer in AccessiblePeers(l, n) && AnyContains(peer.allowedIPs, a)
  {
    var hop := NextHop(l, Node(n), q);
    if IsAccessible(l, hop) {
      MeshPeersAre(l, n, l.accessible, MeshPeer(l, hop.id));
      MeshPeerAdmits(l, hop.id, q, a);
      assert MeshPeer(l, hop.id) in AccessiblePeers(l, n);
    } else if q.External? {
      RangesContain(l.external.value, a);
      assert ExternalPeer(l) in AccessiblePeers(l, n);
    } else {
      HiddenPeersAre(l, l.hidden, HiddenPeer(l, q.id));
      RangesContain(l.subnets[q.id], a);
      assert HiddenPeer(l, q.id) in AccessiblePeers(l, n);
    }
  }

  /** A hidden node or the external user sends everything to the relay. */
  lemma BehindForwards(l: Layout, p: Participant, q: Participant, a: IPv4)
    requires Good(l) && IsBehind(l, p) && IsParticipant(l, q) && p != q && Owns(l, q, a)
    requires l.relay != 0 && l.relay in l.accessible
    ensures Forwards(l, p, a, Node(l.relay))
  {
    var allowed := [l.range, WG_RANGE];
    OwnsByOctets(l, q, a);
    ContainsByOctets(l.range, a);
    ContainsByOctets(WG_RANGE, a);
    assert AnyContains(allowed, a) by { assert allowed[0].Contains(a) || allowed[1].Contains(a); }
    var table := Table(l, p);
    assert p.Node? ==> table == RelayPeers(l, p.id);
    assert |table| == 1 && table[0].allowedIPs == allowed && table[0].publicKey == KeyOf(l, Node(l.relay));
    assert table[0] in table;
    forall x | IsParticipant(l, x) ensures KeyOf(l, x) == table[0].publicKey <==> x == Node(l.relay) {
      KeysIdentify(l, x, Node(l.relay));
    }
  }

  lemma FirstHop(l: Layout, p: Participant, q: Participant, a: IPv4)
    requires Good(l) && IsParticipant(l, p) && IsParticipant(l, q) && p != q && Owns(l, q, a)
    requires IsBehind(l, p) || IsBehind(l, q) ==> l.relay in l.accessible
    ensures Forwards(l, p, a, NextHop(l, p, q))
  {
    if IsBehind(l, p) {
      BehindForwards(l, p, q, a);
    } else {
      AccessibleForwards(l, p.id, q, a);
    }
  }

  /**
   * Reachability: from any participant, a packet to any address of another one reaches it in at most
   * two hops over unambiguous tables, and through the relay when either end is hidden or external.
   */
  lemma Reachability(l: Layout, p: Participant, q: Participant, a: IPv4)
    requires Good(l) && IsParticipant(l, p) && IsParticipant(l, q) && p != q && Owns(l, q, a)
    ensures var hop := NextHop(l, p, q);
            && IsParticipant(l, hop) && Forwards(l, p, a, hop)
            && (hop == q || (hop == Node(l.relay) && Forwards(l, hop, a, q)))
            && (IsBehind(l, p) || IsBehind(l, q) ==> hop == Node(l.relay) || p == Node(l.relay))
  {
    if IsBehind(l, p) || IsBehind(l, q) { RelayExists(l, p, q); }
    FirstHop(l, p, q, a);
    if NextHop(l, p, q) != q {
      FirstHop(l, Node(l.relay), q, a);
      assert NextHop(l, Node(l.relay), q) == q;
    }
  }

  /**
   * Cryptokey routing also drops a packet whose source its sender's entry does not admit. On the way to
   * `q` none is: at each hop the entry that admits an address of `p` is the sender's.
   */
  lemma SourceIsAdmitted(l: Layout, p: Participant, q: Participant, source: IPv4)
    requires Good(l) && IsParticipant(l, p) && IsParticipant(l, q) && p != q && Owns(l, p, source)
    ensures var hop := NextHop(l, p, q);
            if hop == q then Forwards(l, q, source, p)
            else IsParticipant(l, hop) && Forwards(l, hop, source, p) && Forwards(l, q, source, hop)
  {
    if IsBehind(l, p) || IsBehind(l, q) { RelayExists(l, p, q); }
    FirstHop(l, q, p, source);
    if NextHop(l, p, q) != q { FirstHop(l, Node(l.relay), p, source); }
  }

  // ----- Unambiguous tables -----

  /** On an accessible node, entries of different peers never admit the same address. */
  lemma PeersAreDisjoint(l: Layout, n: NodeId, peer: Peer, other: Peer, a: IPv4)
    requires Good(l) && n in l.accessible
    ensures peer in Table(l, Node(n)) && other in Table(l, Node(n))
            && AnyContains(peer.allowedIPs, a) && AnyContains(other.allowedIPs, a)
            ==> peer.publicKey == other.publicKey
  {
    var table := Table(l, Node(n));
    assert table == AccessiblePeers(l, n);
    if peer in table && other in table && AnyContains(peer.allowedIPs, a) && AnyContains(other.allowedIPs, a) {
      var q := AdmittedIsOwned(l, n, peer, a);
      if IsBehind(l, q) { RelayExists(l, Node(n), q); }
      PeerAdmitting(l, n, q, a, peer);
      PeerAdmitting(l, n, q, a, other);
    }
  }

  /** Every address an entry admits belongs to some other participant. */
  lemma AdmittedIsOwned(l: Layout, n: NodeId, peer: Peer, a: IPv4) returns (q: Participant)
    requires WellFormed(l) && n in l.accessible
    requires peer in AccessiblePeers(l, n) && AnyContains(peer.allowedIPs, a)
    ensures IsParticipant(l, q) && q != Node(n) && Owns(l, q, a)
  {
    MeshPeersAre(l, n, l.accessible, peer);
    HiddenPeersAre(l, l.hidden, peer);
    if peer in MeshPeers(l, n, l.accessible) {
      var x :| x in l.accessible && x != n && peer == MeshPeer(l, x);
      var more := if x == l.relay then Behind(l) else [];
      AnyContainsConcat(Ranges(l.subnets[x]), more, a);
      RangesContain(l.subnets[x], a);
      BehindContains(l, a);
      if Owns(l, Node(x), a) {
        q := Node(x);
      } else {
        q :| IsBehind(l, q) && Owns(l, q, a);
      }
    } else if l.addWGAccess && peer == ExternalPeer(l) {
      RangesContain(l.external.value, a);
      q := External;
    } else {
      var x :| x in l.hidden && peer == HiddenPeer(l, x);
      RangesContain(l.subnets[x], a);
      q := Node(x);
    }
  }

  /** The participants whose ranges an accessible node's table lists, in the order of the listing. */
  function Nodes(nodes: seq<NodeId>): seq<Participant> {
    if nodes == [] then [] else Nodes(nodes[..|nodes| - 1]) + [Node(nodes[|nodes| - 1])]
  }

  function ExternalIf(l: Layout): seq<Participant> {
    if l.addWGAccess then [External] else []
  }

  function MeshOrder(l: Layout, node: NodeId, nodes: seq<NodeId>): seq<Participant> {
    if nodes == [] then []
    else
      var peer, rest := nodes[|nodes| - 1], MeshOrder(l, node, nodes[..|nodes| - 1]);
      if peer == node then rest
      else rest + ([Node(peer)] + if peer == l.relay then Nodes(l.hidden) + ExternalIf(l) else [])
  }

  function Order(l: Layout, n: NodeId): seq<Participant> {
    MeshOrder(l, n, l.accessible) + if n != l.relay then [] else ExternalIf(l) + Nodes(l.hidden)
  }

  function AllRanges(peers: seq<Peer>): seq<IPNet> {
    if peers == [] then [] else AllRanges(peers[..|peers| - 1]) + peers[|peers| - 1].allowedIPs
  }

  function RangesFor(l: Layout, p: Participant): seq<IPNet>
    requires l.Complete()
  {
    if IsParticipant(l, p) then Ranges(SubnetOf(l, p)) else []
  }

  function OrderRanges(l: Layout, order: seq<Participant>): seq<IPNet>
    requires l.Complete()
  {
    if order == [] then [] else OrderRanges(l, order[..|order| - 1]) + RangesFor(l, order[|order| - 1])
  }

  lemma {:induction false} AllRangesConcat(s: seq<Peer>, t: seq<Peer>)
    ensures AllRanges(s + t) == AllRanges(s) + AllRanges(t)
    decreases |t|
  {
    if t == [] {
      assert s + t == s;
    } else {
      assert (s + t)[..|s + t| - 1] == s + t[..|t| - 1];
      AllRangesConcat(s, t[..|t| - 1]);
    }
  }

  lemma Grouped<T>(a: seq<T>, b: seq<T>, c: seq<T>)
    ensures (a + b) + c == a + (b + c)
  {
  }

  lemma OrderRangesLast(l: Layout, order: seq<Participant>, p: Participant)
    requires l.Complete()
    ensures OrderRanges(l, order + [p]) == OrderRanges(l, order) + RangesFor(l, p)
  {
    assert (order + [p])[..|order|] == order;
  }

  lemma {:induction false} OrderRangesConcat(l: Layout, s: seq<Participant>, t: seq<Participant>)
    requires l.Complete()
    ensures OrderRanges(l, s + t) == OrderRanges(l, s) + OrderRanges(l, t)
    decreases |t|
  {
    if t == [] {
      assert s + t == s;
    } else {
      var init, last := t[..|t| - 1], t[|t| - 1];
      assert t == init + [last] && s + t == (s + init) + [last];
      OrderRangesConcat(l, s, init);
      OrderRangesLast(l, s + init, last);
      OrderRangesLast(l, init, last);
      Grouped(OrderRanges(l, s), OrderRanges(l, init), RangesFor(l, last));
    }
  }

  lemma {:induction false} NodesAre(nodes: seq<NodeId>, p: Participant)
    ensures p in Nodes(nodes) <==> p.Node? && p.id in nodes
    decreases |nodes|
  {
    if nodes != [] {
      assert nodes == nodes[..|nodes| - 1] + [nodes[|nodes| - 1]];
      NodesAre(nodes[..|nodes| - 1], p);
    }
  }

  lemma {:induction false} NodesRanges(l: Layout, nodes: seq<NodeId>)
    requires l.Complete() && forall n :: n in nodes ==> n in l.hidden
    ensures OrderRanges(l, Nodes(nodes)) == RangesOf(l, nodes)
    decreases |nodes|
  {
    if nodes != [] {
      var init, last := nodes[..|nodes| - 1], nodes[|nodes| - 1];
      assert nodes == init + [last];
      NodesRanges(l, init);
      OrderRangesLast(l, Nodes(init), Node(last));
    }
  }

  lemma {:induction false} HiddenRanges(l: Layout, nodes: seq<NodeId>)
    requires l.Complete() && forall n :: n in nodes ==> n in l.hidden
    ensures AllRanges(HiddenPeers(l, nodes)) == RangesOf(l, nodes)
    decreases |nodes|
  {
    if nodes != [] {
      var init, last := nodes[..|nodes| - 1], nodes[|nodes| - 1];
      assert nodes == init + [last];
      HiddenRanges(l, init);
      assert HiddenPeers(l, nodes)[..|HiddenPeers(l, nodes)| - 1] == HiddenPeers(l, init);
    }
  }

  lemma BehindRanges(l: Layout)
    requires l.Complete()
    ensures forall p :: p in Nodes(l.hidden) + ExternalIf(l) ==> IsBehind(l, p)
    ensures OrderRanges(l, Nodes(l.hidden) + ExternalIf(l)) == Behind(l)
  {
    forall p | p in Nodes(l.hidden) + ExternalIf(l) ensures IsBehind(l, p) { NodesAre(l.hidden, p); }
    NodesRanges(l, l.hidden);
    OrderRangesConcat(l, Nodes(l.hidden), ExternalIf(l));
  }

  lemma MeshStep(l: Layout, rest: seq<Peer>, order: seq<Participant>, x: NodeId)
    requires l.Complete() && x in l.accessible && AllRanges(rest) == OrderRanges(l, order)
    ensures var tail := if x == l.relay then Nodes(l.hidden) + ExternalIf(l) else [];
            AllRanges(rest + [MeshPeer(l, x)]) == OrderRanges(l, order + ([Node(x)] + tail))
  {
    var tail := if x == l.relay then Nodes(l.hidden) + ExternalIf(l) else [];
    BehindRanges(l);
    OrderRangesConcat(l, [Node(x)], tail);
    OrderRangesConcat(l, order, [Node(x)] + tail);
    assert OrderRanges(l, [Node(x)]) == Ranges(l.subnets[x]);
    assert (rest + [MeshPeer(l, x)])[..|rest|] == rest;
  }

  lemma {:induction false} MeshMembers(l: Layout, node: NodeId, nodes: seq<NodeId>, p: Participant)
    requires (forall n :: n in nodes ==> n in l.accessible) && p in MeshOrder(l, node, nodes)
    ensures IsParticipant(l, p)
    decreases |nodes|
  {
    var init := nodes[..|nodes| - 1];
    if p in MeshOrder(l, node, init) {
      MeshMembers(l, node, init, p);
    } else {
      NodesAre(l.hidden, p);
    }
  }

  lemma {:induction false} MeshRanges(l: Layout, node: NodeId, nodes: seq<NodeId>)
    requires l.Complete() && forall n :: n in nodes ==> n in l.accessible
    ensures AllRanges(MeshPeers(l, node, nodes)) == OrderRanges(l, MeshOrder(l, node, nodes))
    decreases |nodes|
  {
    if nodes != [] {
      var init, last := nodes[..|nodes| - 1], nodes[|nodes| - 1];
      MeshRanges(l, node, init);
      if last != node { MeshStep(l, MeshPeers(l, node, init), MeshOrder(l, node, init), last); }
    }
  }

  lemma OrderMembers(l: Layout, n: NodeId, p: Participant)
    requires p in Order(l, n)
    ensures IsParticipant(l, p)
  {
    if p in MeshOrder(l, n, l.accessible) {
      MeshMembers(l, n, l.accessible, p);
    } else {
      NodesAre(l.hidden, p);
    }
  }

  /** The relay's own entries for the external user and the hidden nodes. */
  lemma RelayRanges(l: Layout)
    requires l.Complete()
    ensures AllRanges((if l.addWGAccess then [ExternalPeer(l)] else []) + HiddenPeers(l, l.hidden))
         == OrderRanges(l, ExternalIf(l) + Nodes(l.hidden))
  {
    var ext := if l.addWGAccess then [ExternalPeer(l)] else [];
    assert AllRanges(ext) == OrderRanges(l, ExternalIf(l)) by {
      if l.addWGAccess { assert ext[..0] == [] && ExternalIf(l)[..0] == []; }
    }
    HiddenRanges(l, l.hidden);
    NodesRanges(l, l.hidden);
    AllRangesConcat(ext, HiddenPeers(l, l.hidden));
    OrderRangesConcat(l, ExternalIf(l), Nodes(l.hidden));
  }

  /** The AllowedIPs of an accessible node are exactly the ranges of the participants in its order. */
  lemma TableListsOrder(l: Layout, n: NodeId)
    requires l.Complete() && n in l.accessible && n !in l.hidden
    ensures forall p :: p in Order(l, n) ==> IsParticipant(l, p)
    ensures AllRanges(Table(l, Node(n))) == OrderRanges(l, Order(l, n))
  {
    forall p | p in Order(l, n) ensures IsParticipant(l, p) { OrderMembers(l, n, p); }
    MeshRanges(l, n, l.accessible);
    var mesh, order := MeshPeers(l, n, l.accessible), MeshOrder(l, n, l.accessible);
    assert Table(l, Node(n)) == AccessiblePeers(l, n);
    if n == l.relay {
      RelayRanges(l);
      AllRangesConcat(mesh, (if l.addWGAccess then [ExternalPeer(l)] else []) + HiddenPeers(l, l.hidden));
      OrderRangesConcat(l, order, ExternalIf(l) + Nodes(l.hidden));
    } else {
      assert AccessiblePeers(l, n) == mesh && Order(l, n) == order;
    }
  }

  lemma {:induction false} NodesTimes(nodes: seq<NodeId>, p: Participant)
    ensures multiset(Nodes(nodes))[p] == if p.Node? then multiset(nodes)[p.id] else 0
    decreases |nodes|
  {
    if nodes != [] {
      assert nodes == nodes[..|nodes| - 1] + [nodes[|nodes| - 1]];
      NodesTimes(nodes[..|nodes| - 1], p);
    }
  }

  /** How often one entry of the mesh lists a participant. */
  function TimesAt(l: Layout, node: NodeId, peer: NodeId, p: Participant): nat {
    if peer == node then 0
    else multiset([Node(peer)])[p] + if peer == l.relay then multiset(Nodes(l.hidden) + ExternalIf(l))[p] else 0
  }

  lemma MeshTimesStep(l: Layout, node: NodeId, init: seq<NodeId>, last: NodeId, p: Participant)
    ensures multiset(MeshOrder(l, node, init + [last]))[p] ==
            multiset(MeshOrder(l, node, init))[p] + TimesAt(l, node, last, p)
  {
    assert (init + [last])[..|init|] == init;
  }

  /** Whoever is behind the relay is not in the mesh itself; the others are not behind it. */
  lemma TimesAtIs(l: Layout, node: NodeId, peer: NodeId, p: Participant)
    requires l.Complete() && IsParticipant(l, p) && peer in l.accessible &&
             forall n :: n in l.hidden ==> n !in l.accessible
    ensures TimesAt(l, node, peer, p) ==
            if IsBehind(l, p) then
              if peer == l.relay && peer != node then multiset(Nodes(l.hidden) + ExternalIf(l))[p] else 0
            else if p.id == peer && peer != node then 1 else 0
  {
    NodesTimes(l.hidden, p);
  }

  /** How often the mesh part lists a participant: once per listing of its node, or of the relay it is behind. */
  lemma {:induction false} MeshTimes(l: Layout, node: NodeId, nodes: seq<NodeId>, p: Participant)
    requires l.Complete() && (forall n :: n in nodes ==> n in l.accessible)
    requires forall n :: n in l.hidden ==> n !in l.accessible
    requires IsParticipant(l, p)
    requires forall i, j :: 0 <= i < j < |nodes| ==> nodes[i] != nodes[j]
    ensures multiset(MeshOrder(l, node, nodes))[p] ==
            if IsBehind(l, p) then
              if l.relay in nodes && l.relay != node then multiset(Nodes(l.hidden) + ExternalIf(l))[p] else 0
            else if p.id in nodes && p.id != node then 1 else 0
    decreases |nodes|
  {
    if nodes != [] {
      var init, last := nodes[..|nodes| - 1], nodes[|nodes| - 1];
      assert nodes == init + [last];
      MeshTimes(l, node, init, p);
      MeshTimesStep(l, node, init, last, p);
      TimesAtIs(l, node, last, p);
    }
  }

  lemma {:induction false} DistinctCount<T>(s: seq<T>, x: T)
    requires Distinct(s)
    ensures multiset(s)[x] == if x in s then 1 else 0
    decreases |s|
  {
    if s != [] {
      assert s == s[..|s| - 1] + [s[|s| - 1]];
      DistinctCount(s[..|s| - 1], x);
    }
  }

  /**
   * With no node listed twice, the AllowedIPs of an accessible node hold the subnet and the WireGuard
   * address of every other participant exactly once, and nothing else.
   */
  lemma TableCoversEachOnce(l: Layout, n: NodeId, p: Participant)
    requires WellFormed(l) && n in l.accessible && Distinct(l.accessible) && Distinct(l.hidden)
    ensures forall x :: x in Order(l, n) ==> IsParticipant(l, x)
    ensures AllRanges(Table(l, Node(n))) == OrderRanges(l, Order(l, n))
    ensures multiset(Order(l, n))[p] == if IsParticipant(l, p) && p != Node(n) then 1 else 0
  {
    TableListsOrder(l, n);
    if !IsParticipant(l, p) {
      assert p !in Order(l, n);
    } else {
      MeshTimes(l, n, l.accessible, p);
      NodesTimes(l.hidden, p);
      if p.Node? { DistinctCount(l.hidden, p.id); }
      if IsBehind(l, p) { RelayExists(l, p, Node(n)); }
    }
  }

  // ----- Mutual peering -----

  ghost predicate Lists(l: Layout, p: Participant, q: Participant)
    requires l.Complete() && IsParticipant(l, p) && IsParticipant(l, q)
  {
    exists peer :: peer in Table(l, p) && peer.publicKey == KeyOf(l, q)
  }

  /** Some entry of `p` for `q` says where `q` can be contacted. */
  ghost predicate CanDial(l: Layout, p: Participant, q: Participant)
    requires l.Complete() && IsParticipant(l, p) && IsParticipant(l, q)
  {
    exists peer :: peer in Table(l, p) && peer.publicKey == KeyOf(l, q)
                   && q.Node? && peer.endpoint == Some(EndpointOf(l, q.id)) && peer.endpoint.value.host != ""
  }

  predicate Linked(l: Layout, p: Participant, q: Participant) {
    (IsAccessible(l, p) && IsAccessible(l, q)) || p == Node(l.relay) || q == Node(l.relay)
  }

  lemma AccessibleLists(l: Layout, n: NodeId, q: Participant)
    requires Good(l) && n in l.accessible && IsParticipant(l, q) && q != Node(n)
    ensures Lists(l, Node(n), q) <==> IsAccessible(l, q) || n == l.relay
    ensures IsAccessible(l, q) ==> CanDial(l, Node(n), q)
  {
    var table := Table(l, Node(n));
    assert table == AccessiblePeers(l, n);
    if IsAccessible(l, q) {
      MeshPeersAre(l, n, l.accessible, MeshPeer(l, q.id));
      assert MeshPeer(l, q.id) in table;
    } else if n == l.relay && q.External? {
      assert ExternalPeer(l) in table;
    } else if n == l.relay {
      HiddenPeersAre(l, l.hidden, HiddenPeer(l, q.id));
      assert HiddenPeer(l, q.id) in table;
    } else if Lists(l, Node(n), q) {
      var peer :| peer in table && peer.publicKey == KeyOf(l, q);
      MeshPeersAre(l, n, l.accessible, peer);
      var x :| x in l.accessible && x != n && peer == MeshPeer(l, x);
      KeysIdentify(l, Node(x), q);
    }
  }

  lemma BehindLists(l: Layout, p: Participant, q: Participant)
    requires Good(l) && IsBehind(l, p) && IsParticipant(l, q) && q != p
    requires l.relay != 0 && l.relay in l.accessible
    ensures Lists(l, p, q) <==> q == Node(l.relay)
    ensures CanDial(l, p, Node(l.relay))
  {
    var table := Table(l, p);
    assert p.Node? ==> table == RelayPeers(l, p.id);
    assert |table| == 1 && table[0].publicKey == KeyOf(l, Node(l.relay));
    assert table[0] in table && forall peer :: peer in table ==> peer == table[0];
    KeysIdentify(l, q, Node(l.relay));
  }

  /**
   * Peering is mutual, and in each pair of peers at least one side knows where to contact the other.
   * This holds for every pair of participants of a well-formed layout.
   */
  lemma PeeringIsMutual(l: Layout, p: Participant, q: Participant)
    requires Good(l) && IsParticipant(l, p) && IsParticipant(l, q) && p != q
    ensures Lists(l, p, q) <==> Lists(l, q, p)
    ensures Lists(l, p, q) <==> Linked(l, p, q)
    ensures Lists(l, p, q) ==> CanDial(l, p, q) || CanDial(l, q, p)
  {
    if IsBehind(l, p) || IsBehind(l, q) { RelayExists(l, p, q); }
    if IsBehind(l, p) { BehindLists(l, p, q); } else { AccessibleLists(l, p.id, q); }
    if IsBehind(l, q) { BehindLists(l, q, p); } else { AccessibleLists(l, q.id, p); }
  }

  // ----- Contacts that can be dialled -----

  /** Some entry of `p` for `q` gives the address `q` has, in the form a dialler can read. */
  ghost predicate CanReach(g: Grid, l: Layout, p: Participant, q: Participant)
    requires l.Complete() && IsParticipant(l, p) && IsParticipant(l, q)
  {
    && q.Node? && g.endpoint(q.id).Address?
    && exists peer :: peer in Table(l, p) && peer.publicKey == KeyOf(l, q)
                      && peer.endpoint == Some(Endpoint(HostText(g.endpoint(q.id)), Lookup0(l.ports, q.id, 0)))
  }

  /** The recorded host of a node is its address in the form a dialler can read. */
  predicate HostIsExact(g: Grid, hosts: map<NodeId, string>, n: NodeId) {
    n in hosts && g.endpoint(n).Address? && hosts[n] == HostText(g.endpoint(n))
  }

  /** A listed node's host is exact. One taken in as the relay is the only other, and its host is the bare text. */
  lemma PlannedHosts(g: Grid, nodes: seq<NodeId>, addWGAccess: bool, publicNode: NodeId, p: Plan, n: NodeId)
    requires 0 !in nodes && g.proxyPublicNode != Some(0)
    requires PlanFor(g, nodes, addWGAccess, publicNode) == Some(p) && n in p.accessible
    ensures n in nodes ==> HostIsExact(g, p.hosts, n)
    ensures n !in nodes ==>
              && n == p.relay && NeedsRelay(addWGAccess, p.hidden, p.accessible)
              && n in p.hosts && g.endpoint(n).Address? && p.hosts[n] == g.endpoint(n).text
  {
    ChoiceIsWellFormed(g, nodes, addWGAccess, publicNode);
  }

  lemma BareTextIsExact(a: Lookup)
    requires a.Address?
    ensures a.text == HostText(a) <==> a.isV4
  {
    if !a.isV4 { assert |HostText(a)| == |a.text| + 2; }
  }

  /** From a behind participant the relay's recorded host is all there is. */
  lemma BehindReaches(g: Grid, l: Layout, p: Participant)
    requires Good(l) && IsBehind(l, p) && l.relay != 0 && l.relay in l.accessible && g.endpoint(l.relay).Address?
    ensures CanReach(g, l, p, Node(l.relay)) <==> HostIsExact(g, l.hosts, l.relay)
  {
    var table := Table(l, p);
    assert p.Node? ==> table == RelayPeers(l, p.id);
    assert |table| == 1 && table[0].publicKey == KeyOf(l, Node(l.relay));
    assert table[0] in table && forall peer :: peer in table ==> peer == table[0];
    assert table[0].endpoint == Some(EndpointOf(l, l.relay));
  }

  lemma AccessibleReaches(g: Grid, l: Layout, n: NodeId, q: NodeId)
    requires Good(l) && n in l.accessible && q in l.accessible && q != n && HostIsExact(g, l.hosts, q)
    ensures CanReach(g, l, Node(n), Node(q))
  {
    assert Table(l, Node(n)) == AccessiblePeers(l, n);
    MeshPeersAre(l, n, l.accessible, MeshPeer(l, q));
    assert MeshPeer(l, q) in Table(l, Node(n));
  }

  lemma LinkedReaches(g: Grid, l: Layout, p: Participant, q: Participant)
    requires Good(l) && IsParticipant(l, p) && IsParticipant(l, q) && p != q && Lists(l, p, q)
    requires forall n :: n in l.accessible ==> HostIsExact(g, l.hosts, n)
    ensures CanReach(g, l, p, q) || CanReach(g, l, q, p)
  {
    PeeringIsMutual(l, p, q);
    if IsBehind(l, p) || IsBehind(l, q) { RelayExists(l, p, q); }
    if IsBehind(l, p) {
      BehindReaches(g, l, p);
    } else if IsBehind(l, q) {
      BehindReaches(g, l, q);
    } else {
      AccessibleReaches(g, l, p.id, q.id);
    }
  }

  /** In every pair of peers one side has a contact for the other that can be dialled. */
  ghost predicate PeersCanDial(g: Grid, l: Layout)
    requires l.Complete()
  {
    forall p, q :: IsParticipant(l, p) && IsParticipant(l, q) && p != q && Lists(l, p, q) ==>
      CanReach(g, l, p, q) || CanReach(g, l, q, p)
  }

  lemma ExactHostsCanDial(g: Grid, l: Layout)
    requires Good(l) && forall n :: n in l.accessible ==> HostIsExact(g, l.hosts, n)
    ensures PeersCanDial(g, l)
  {
    forall p, q | IsParticipant(l, p) && IsParticipant(l, q) && p != q && Lists(l, p, q)
      ensures CanReach(g, l, p, q) || CanReach(g, l, q, p)
    {
      LinkedReaches(g, l, p, q);
    }
  }

  lemma BareRelayCannot(g: Grid, l: Layout)
    requires Good(l) && NeedsRelay(l.addWGAccess, l.hidden, l.accessible)
    requires forall n :: n in l.hidden ==> !g.endpoint(n).Address?
    requires g.endpoint(l.relay).Address? && !HostIsExact(g, l.hosts, l.relay)
    ensures !PeersCanDial(g, l)
  {
    var p := if l.addWGAccess then External else Node(l.hidden[0]);
    BehindLists(l, p, Node(l.relay));
    BehindReaches(g, l, p);
    assert Lists(l, p, Node(l.relay)) && !CanReach(g, l, Node(l.relay), p);
  }

  /**
   * Peers can dial exactly when the relay, if it is not one of the listed nodes, has an IPv4 endpoint:
   * its IPv6 text is written without brackets.
   */
  lemma PeersCanDialExactly(g: Grid, nodes: seq<NodeId>, publicNode: NodeId, l: Layout)
    requires 0 !in nodes && g.proxyPublicNode != Some(0) && Good(l)
    requires PlanFor(g, nodes, l.addWGAccess, publicNode) == Some(Plan(l.hidden, l.accessible, l.hosts, l.relay))
    ensures PeersCanDial(g, l) <==>
            forall n :: n in l.accessible && n !in nodes ==> g.endpoint(n).Address? && g.endpoint(n).isV4
  {
    var plan := Plan(l.hidden, l.accessible, l.hosts, l.relay);
    forall n | n in l.accessible
      ensures g.endpoint(n).Address?
      ensures HostIsExact(g, l.hosts, n) <==> n in nodes || g.endpoint(n).isV4
      ensures n !in nodes ==> n == l.relay && NeedsRelay(l.addWGAccess, l.hidden, l.accessible)
    {
      PlannedHosts(g, nodes, l.addWGAccess, publicNode, plan, n);
      BareTextIsExact(g.endpoint(n));
    }
    if forall n :: n in l.accessible ==> HostIsExact(g, l.hosts, n) {
      ExactHostsCanDial(g, l);
    } else {
      ChoiceIsWellFormed(g, nodes, l.addWGAccess, publicNode);
      BareRelayCannot(g, l);
    }
  }
}
