/**
 * Subnets from run to run. A successful network deployment ends by reading every tracked node's subnet
 * back, listed or not; an unlisted node keeps a subnet whose octet the run may have handed out again.
 */
module SubnetReadBack {
  import opened Wrappers
  import opened Addresses
  import opened GridTypes
  import opened NetworkWorkload
  import opened NetworkDeployer

  /** What is known after the read-back: the subnets nodes hold, the listed ones as this run assigned them. */
  function Overlaid(held: Subnets, given: Subnets): Subnets {
    held + given
  }

  function Unlisted(held: Subnets, nodes: seq<NodeId>): Subnets {
    held - NodesOf(nodes)
  }

  predicate InNet(range: IPNet, n: IPNet) {
    n.ip.a == range.ip.a && n.ip.b == range.ip.b
  }

  /** Before the run: the subnet's octet is neither taken by a listed node nor among those the run will hand out. */
  predicate IsClear(
      range: IPNet, addWGAccess: bool, external: Option<IPNet>, kept: Subnets, nodes: seq<NodeId>, n: IPNet)
  {
    InNet(range, n) ==>
      var taken := Taken(addWGAccess, external, Kept(kept, nodes));
      n.ip.c !in taken && !IsAmongLowest(taken, n.ip.c, Demand(addWGAccess, external, Kept(kept, nodes), nodes))
  }

  /** The unlisted nodes' subnets are distinct among themselves, and clear of what the run does. */
  ghost predicate UnlistedAreClear(
      range: IPNet, addWGAccess: bool, external: Option<IPNet>, kept: Subnets, nodes: seq<NodeId>, held: Subnets)
  {
    && DistinctSubnets(Unlisted(held, nodes), None)
    && forall m :: m in Unlisted(held, nodes) ==> IsClear(range, addWGAccess, external, kept, nodes, held[m])
  }

  /** No subnet of `left` is the network of one of `right`, nor of the external one. */
  ghost predicate Apart(left: Subnets, right: Subnets, external: Option<IPNet>) {
    forall m :: m in left ==>
      && (forall n :: n in right ==> !SameNet(left[m], right[n]))
      && (external.Some? ==> !SameNet(left[m], external.value))
  }

  lemma DistinctOverlay(held: Subnets, given: Subnets, nodes: seq<NodeId>, external: Option<IPNet>)
    requires given.Keys == NodesOf(nodes) && DistinctSubnets(given, external)
    ensures DistinctSubnets(Overlaid(held, given), external)
            <==> DistinctSubnets(Unlisted(held, nodes), None) && Apart(Unlisted(held, nodes), given, external)
  {
    var all, rest := Overlaid(held, given), Unlisted(held, nodes);
    forall n ensures n in all <==> n in rest || n in given {}
    forall n | n in rest ensures n in all && n !in given && all[n] == rest[n] {}
    forall n | n in given ensures n in all && all[n] == given[n] {}
    if DistinctSubnets(rest, None) && Apart(rest, given, external) {
      forall m, n | m in all && n in all && m != n ensures !SameNet(all[m], all[n]) {
        if m in rest && n in given { assert !SameNet(rest[m], given[n]); }
        if n in rest && m in given { assert !SameNet(rest[n], given[m]); }
      }
    }
  }

  /** A subnet is apart from what an assignment leaves exactly when it is clear before. */
  lemma ClearIsApart(
      range: IPNet, addWGAccess: bool, external: Option<IPNet>, kept: Subnets, nodes: seq<NodeId>, n: IPNet)
    requires Allocate(range, addWGAccess, external, kept, nodes).subnets.Some?
    requires Sound(range, Kept(kept, nodes), if addWGAccess then external else None)
    ensures var r := Allocate(range, addWGAccess, external, kept, nodes);
            IsClear(range, addWGAccess, external, kept, nodes, n) <==>
              && (forall k :: k in r.subnets.value ==> !SameNet(n, r.subnets.value[k]))
              && (addWGAccess && r.external.Some? ==> !SameNet(n, r.external.value))
  {
    var r := Allocate(range, addWGAccess, external, kept, nodes);
    AllocationIsSound(range, addWGAccess, external, kept, nodes);
    AllocatedOctets(range, addWGAccess, external, kept, nodes, n.ip.c);
    if InNet(range, n) {
      if n.ip.c in OctetsOf(r.subnets.value) {
        var k :| k in r.subnets.value && r.subnets.value[k].ip.c == n.ip.c;
        assert SameNet(n, r.subnets.value[k]);
      } else {
        forall k | k in r.subnets.value ensures !SameNet(n, r.subnets.value[k]) {
          assert r.subnets.value[k].ip.c in OctetsOf(r.subnets.value);
        }
      }
    }
  }

  /**
   * After a successful run and its read-back the subnets are distinct exactly when, before the run, the
   * subnets of tracked nodes it does not list were distinct and clear of what it takes and hands out.
   */
  lemma DistinctAfterReadBack(
      range: IPNet, addWGAccess: bool, external: Option<IPNet>, kept: Subnets, nodes: seq<NodeId>, held: Subnets)
    requires Sound(range, kept, if addWGAccess then external else None)
    requires Allocate(range, addWGAccess, external, kept, nodes).subnets.Some?
    ensures var r := Allocate(range, addWGAccess, external, kept, nodes);
            DistinctSubnets(Overlaid(held, r.subnets.value), if addWGAccess then r.external else None)
            <==> UnlistedAreClear(range, addWGAccess, external, kept, nodes, held)
  {
    var r := Allocate(range, addWGAccess, external, kept, nodes);
    var ext := if addWGAccess then r.external else None;
    AllocationIsSound(range, addWGAccess, external, kept, nodes);
    SoundIsDistinct(range, r.subnets.value, ext);
    DistinctOverlay(held, r.subnets.value, nodes, ext);
    forall m | m in Unlisted(held, nodes)
      ensures IsClear(range, addWGAccess, external, kept, nodes, held[m]) <==>
              && (forall k :: k in r.subnets.value ==> !SameNet(held[m], r.subnets.value[k]))
              && (ext.Some? ==> !SameNet(held[m], ext.value))
    {
      ClearIsApart(range, addWGAccess, external, kept, nodes, held[m]);
    }
  }

  /**
   * From a state in which the known subnets are what the nodes hold, and distinct, they stay distinct
   * exactly when no unlisted node's octet is among those the run hands out.
   */
  lemma DistinctNextTime(
      range: IPNet, addWGAccess: bool, external: Option<IPNet>, known: Subnets, kept: Subnets, nodes: seq<NodeId>)
    requires DistinctSubnets(known, if addWGAccess then external else None)
    requires kept == InRange(range, known) && Sound(range, kept, if addWGAccess then external else None)
    requires range.ones == 16 && Allocate(range, addWGAccess, external, kept, nodes).subnets.Some?
    ensures var r, taken := Allocate(range, addWGAccess, external, kept, nodes),
            Taken(addWGAccess, external, Kept(kept, nodes));
            DistinctSubnets(Overlaid(known, r.subnets.value), if addWGAccess then r.external else None)
            <==> forall m :: m in known && m !in nodes && InNet(range, known[m]) ==>
                   !IsAmongLowest(taken, known[m].ip.c, Demand(addWGAccess, external, Kept(kept, nodes), nodes))
  {
    DistinctAfterReadBack(range, addWGAccess, external, kept, nodes, known);
    forall m | m in known && m !in nodes && InNet(range, known[m])
      ensures known[m].ip.c !in Taken(addWGAccess, external, Kept(kept, nodes))
    {
      NotTaken(range, addWGAccess, external, known, kept, nodes, m);
    }
    forall m ensures m in Unlisted(known, nodes) <==> m in known && m !in nodes {}
  }

  lemma NotTaken(
      range: IPNet, addWGAccess: bool, external: Option<IPNet>, known: Subnets, kept: Subnets, nodes: seq<NodeId>,
      m: NodeId)
    requires DistinctSubnets(known, if addWGAccess then external else None) && kept == InRange(range, known)
    requires Sound(range, kept, if addWGAccess then external else None)
    requires m in known && m !in nodes && InNet(range, known[m])
    ensures known[m].ip.c !in Taken(addWGAccess, external, Kept(kept, nodes))
  {
    var listed := Kept(kept, nodes);
    forall n | n in listed ensures listed[n].ip.c != known[m].ip.c {
      assert n in kept && kept[n] == known[n] && InNetwork(range, kept[n]) && n != m;
      assert !SameNet(known[m], known[n]);
    }
  }

  // ----- How it fails -----

  const EXAMPLE := IPNet(IPv4(10, 1, 0, 0), 16)

  /**
   * Three runs on 10.1.0.0/16. The first lists nodes 1 and 2, the second 1 and 3: node 3 gets the octet
   * of node 2, which is tracked but not listed, and after the read-back both are known with it. A third
   * run that lists all three keeps the clash.
   */
  lemma UnlistedOctetIsReused()
    ensures var known := map[1 := NodeSubnet(EXAMPLE, 2), 2 := NodeSubnet(EXAMPLE, 3)];
            var second := map[1 := NodeSubnet(EXAMPLE, 2), 3 := NodeSubnet(EXAMPLE, 3)];
            && Allocate(EXAMPLE, false, None, map[], [1, 2]) == Allocation(None, Some(known))
            && DistinctSubnets(known, None)
            && Allocate(EXAMPLE, false, None, known, [1, 3]) == Allocation(None, Some(second))
            && !DistinctSubnets(Overlaid(known, second), None)
            && Allocate(EXAMPLE, false, None, Overlaid(known, second), [1, 2, 3])
               == Allocation(None, Some(Overlaid(known, second)))
  {
    var known: Subnets := map[1 := NodeSubnet(EXAMPLE, 2), 2 := NodeSubnet(EXAMPLE, 3)];
    FirstExample(known);
    SecondExample(known);
    ThirdExample(known, map[1 := NodeSubnet(EXAMPLE, 2), 3 := NodeSubnet(EXAMPLE, 3)]);
  }

  lemma ThirdExample(known: Subnets, second: Subnets)
    requires known.Keys == {1, 2} && second.Keys == {1, 3}
    requires known[2] == second[3] == NodeSubnet(EXAMPLE, 3)
    ensures var after := Overlaid(known, second);
            && !DistinctSubnets(after, None)
            && Allocate(EXAMPLE, false, None, after, [1, 2, 3]) == Allocation(None, Some(after))
  {
    var after := Overlaid(known, second);
    assert 2 in after && 3 in after && SameNet(after[2], after[3]);
    assert Kept(after, [1, 2, 3]) == after;
    AllocateNothing(EXAMPLE, OctetsOf(after), 2, [1, 2, 3], after);
  }

  lemma FirstExample(known: Subnets)
    requires known == map[1 := NodeSubnet(EXAMPLE, 2), 2 := NodeSubnet(EXAMPLE, 3)]
    ensures Allocate(EXAMPLE, false, None, map[], [1, 2]) == Allocation(None, Some(known)) &&
            DistinctSubnets(known, None)
  {
    var none: Subnets := map[];
    assert Kept(none, [1, 2]) == none && OctetsOf(none) == {};
    assert FirstFree({}, 2) == 2;
    assert FirstFree({2}, 2) == 3 by { assert FirstFree({2}, 3) == 3; }
    assert [1, 2][1..] == [2] && [2][1..] == [];
    var one: Subnets := map[1 := NodeSubnet(EXAMPLE, 2)];
    assert none[1 := NodeSubnet(EXAMPLE, 2)] == one && {} + {2} == {2};
    assert one[2 := NodeSubnet(EXAMPLE, 3)] == known;
    assert AllocateNodes(EXAMPLE, {2}, 2, [2], one) == AllocateNodes(EXAMPLE, {2} + {3}, 3, [], known) == Some(known);
    assert AllocateNodes(EXAMPLE, {}, 2, [1, 2], none) == AllocateNodes(EXAMPLE, {2}, 2, [2], one);
  }

  lemma SecondExample(known: Subnets)
    requires known == map[1 := NodeSubnet(EXAMPLE, 2), 2 := NodeSubnet(EXAMPLE, 3)]
    ensures Allocate(EXAMPLE, false, None, known, [1, 3])
         == Allocation(None, Some(map[1 := NodeSubnet(EXAMPLE, 2), 3 := NodeSubnet(EXAMPLE, 3)]))
  {
    var one: Subnets := map[1 := NodeSubnet(EXAMPLE, 2)];
    assert Kept(known, [1, 3]) == one;
    assert one[1].ip.c == 2 && OctetsOf(one) == {2};
    assert FirstFree({2}, 2) == 3 by { assert FirstFree({2}, 3) == 3; }
    assert [1, 3][1..] == [3] && [3][1..] == [];
    var two: Subnets := map[1 := NodeSubnet(EXAMPLE, 2), 3 := NodeSubnet(EXAMPLE, 3)];
    assert one[3 := NodeSubnet(EXAMPLE, 3)] == two;
    assert AllocateNodes(EXAMPLE, {2}, 2, [3], one) == AllocateNodes(EXAMPLE, {2} + {3}, 3, [], two) == Some(two);
    assert AllocateNodes(EXAMPLE, {2}, 2, [1, 3], one) == AllocateNodes(EXAMPLE, {2}, 2, [3], one);
  }

  /**
   * A failed assignment keeps the node subnets but may leave a new external one: the known subnets are
   * then distinct exactly when no unlisted node has the least octet that listed nodes leave free.
   */
  lemma DistinctAfterFailure(range: IPNet, external: Option<IPNet>, known: Subnets, nodes: seq<NodeId>)
    requires external.None? && DistinctSubnets(known, None) && range.ones == 16
    requires var r := Allocate(range, true, external, known, nodes); r.subnets.None? && r.external.Some?
    ensures DistinctSubnets(known, Allocate(range, true, external, known, nodes).external)
            <==> forall m :: m in known && m !in nodes && InNet(range, known[m]) ==>
                   !IsAmongLowest(OctetsOf(Kept(known, nodes)), known[m].ip.c, 1)
  {
    var e := Allocate(range, true, external, known, nodes).external.value;
    forall m | m in known
      ensures !SameNet(known[m], e) <==>
              (m !in nodes && InNet(range, known[m]) ==> !IsAmongLowest(OctetsOf(Kept(known, nodes)), known[m].ip.c, 1))
    {
      LeftExternal(range, external, known, nodes, known[m].ip.c);
      if m in nodes {
        assert Kept(known, nodes)[m] == known[m];
        assert known[m].ip.c in OctetsOf(Kept(known, nodes));
      }
    }
    LeftExternal(range, external, known, nodes, e.ip.c);
  }

  /** The nodes 1 to `n`. */
  function Upto(n: nat): (r: seq<NodeId>)
    requires n < 0x1_0000_0000
    ensures |r| == n && forall i :: 0 <= i < n ==> r[i] == i + 1
  {
    seq(n, i requires 0 <= i < n => i + 1)
  }

  lemma {:induction false} UptoCount(n: nat)
    requires n < 0x1_0000_0000
    ensures |NodesOf(Upto(n))| == n && n + 1 !in NodesOf(Upto(n))
    decreases n
  {
    if n == 0 {
      assert NodesOf(Upto(0)) == {};
    } else {
      UptoCount(n - 1);
      assert Upto(n) == Upto(n - 1) + [n];
      assert NodesOf(Upto(n)) == NodesOf(Upto(n - 1)) + {n};
    }
  }

  lemma AllFree()
    ensures |FreeOctets({})| == 253
  {
    AllFreeBelow(255);
    assert FreeOctets({}) == FreeBelow({}, 255);
  }

  lemma {:induction false} AllFreeBelow(n: byte)
    requires 2 <= n
    ensures |FreeBelow({}, n)| == n - 2
    decreases n
  {
    if n == 2 {
      assert FreeBelow({}, n) == {};
    } else {
      AllFreeBelow(n - 1);
      assert FreeBelow({}, n) == FreeBelow({}, n - 1) + {n - 1};
    }
  }

  /**
   * On 10.1.0.0/16 with access wanted, 253 new nodes and the external user outnumber the free octets.
   * The failed run leaves the external subnet at octet 2, which the tracked node 1000 holds.
   */
  lemma FailureLeavesClash()
    ensures var known := map[1000 := NodeSubnet(EXAMPLE, 2)];
            var r := Allocate(EXAMPLE, true, None, known, Upto(253));
            && DistinctSubnets(known, None)
            && r == Allocation(Some(ExternalSubnet(EXAMPLE, 2)), None)
            && !DistinctSubnets(known, r.external)
  {
    var known: Subnets := map[1000 := NodeSubnet(EXAMPLE, 2)];
    TooManyNodes(known, Upto(253));
    assert SameNet(known[1000], ExternalSubnet(EXAMPLE, 2));
  }

  lemma TooManyNodes(known: Subnets, nodes: seq<NodeId>)
    requires known.Keys == {1000} && nodes == Upto(253)
    ensures Allocate(EXAMPLE, true, None, known, nodes) == Allocation(Some(ExternalSubnet(EXAMPLE, 2)), None)
  {
    var kept := Kept(known, nodes);
    assert 1000 !in nodes;
    assert kept == map[] && OctetsOf(kept) == {};
    AllocationIsComplete(EXAMPLE, true, None, known, nodes);
    UptoCount(253);
    AllFree();
    assert Lacking(nodes, kept) == NodesOf(nodes);
    assert FirstFree({}, 2) == 2;
  }
}
