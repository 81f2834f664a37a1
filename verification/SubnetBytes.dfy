/**
 * Which byte of an address an allocation reads. The index comes from the length of the range's address,
 * so an address kept in the other form is read at the wrong byte.
 */
module SubnetBytes {
  import opened Wrappers
  import opened Addresses
  import opened NetworkWorkload
  import opened GridTypes

  /** The two forms in which an IPv4 address is kept. */
  datatype Form = FourBytes | SixteenBytes

  function Bytes(a: IPv4, form: Form): seq<byte> {
    match form
    case FourBytes => [a.a, a.b, a.c, a.d]
    case SixteenBytes => [0, 0, 0, 0, 0, 0, 0, 0, 0, 0, 255, 255, a.a, a.b, a.c, a.d]
  }

  /** The byte read as a kept subnet's third octet; None where the index is out of range, which is a panic. */
  function ThirdOctet(range: Form, kept: Form, a: IPv4): Option<byte> {
    var i, bytes := |Bytes(a, range)| - 2, Bytes(a, kept);
    if i < |bytes| then Some(bytes[i]) else None
  }

  /** It is the third octet exactly when the two forms agree, or the octet is 0 anyway. */
  lemma ReadsThirdOctet(range: Form, kept: Form, a: IPv4)
    ensures ThirdOctet(range, kept, a) == Some(a.c) <==> range == kept || (range.FourBytes? && a.c == 0)
    ensures range.FourBytes? && kept.SixteenBytes? ==> ThirdOctet(range, kept, a) == Some(0)
    ensures range.SixteenBytes? && kept.FourBytes? ==> ThirdOctet(range, kept, a) == None
  {
    assert Bytes(a, FourBytes)[2] == a.c && Bytes(a, SixteenBytes)[14] == a.c && Bytes(a, SixteenBytes)[2] == 0;
  }

  /** The byte read from a sixteen-byte subnet under a four-byte range. */
  function MisreadOctet(n: IPNet): byte {
    match ThirdOctet(FourBytes, SixteenBytes, n.ip) case Some(b) => b case None => 0
  }

  /** The octets taken for used. */
  function Misread(addWGAccess: bool, external: Option<IPNet>, kept: Subnets): set<byte> {
    (set n | n in kept :: MisreadOctet(kept[n])) + if addWGAccess && external.Some? then {MisreadOctet(external.value)}
        else {}
  }

  lemma OnlyZeroIsRead(addWGAccess: bool, external: Option<IPNet>, kept: Subnets)
    ensures Misread(addWGAccess, external, kept) <= {0}
  {
    forall n | n in kept ensures MisreadOctet(kept[n]) == 0 { ReadsThirdOctet(FourBytes, SixteenBytes, kept[n].ip); }
    if external.Some? { ReadsThirdOctet(FourBytes, SixteenBytes, external.value.ip); }
  }

  /** The assignment under a four-byte range, with subnets kept in sixteen bytes. */
  function AllocateMisread(range: IPNet, addWGAccess: bool, external: Option<IPNet>, subnets: Subnets,
      nodes: seq<NodeId>): Allocation {
    var kept := Kept(subnets, nodes);
    var used := Misread(addWGAccess, external, kept);
    if addWGAccess && external.None? then
      var f := FirstFree(used, 2);
      if f == 255 then Allocation(external, None)
      else Allocation(Some(ExternalSubnet(range, f)), AllocateNodes(range, used + {f}, f, nodes, kept))
    else Allocation(external, AllocateNodes(range, used, 2, nodes, kept))
  }

  /** The nodes that lacked a subnet get distinct ones, with the lowest octets not taken for used. */
  ghost predicate NewAreLowest(range: IPNet, used: set<byte>, n: nat, ips: Subnets, r: Subnets) {
    && (forall m :: m in ips ==> m in r && r[m] == ips[m])
    && Sound(range, r - ips.Keys, None)
    && forall b :: b in OctetsOf(r - ips.Keys) <==> IsAmongLowest(used, b, n)
  }

  lemma NewWith(range: IPNet, used: set<byte>, cur: byte, n: nat, ips: Subnets, node: NodeId, r: Subnets)
    requires BelowUsed(used, cur) && FirstFree(used, cur) != 255 && node !in ips
    requires var f := FirstFree(used, cur); NewAreLowest(range, used + {f}, n, ips[node := NodeSubnet(range, f)], r)
    ensures NewAreLowest(range, used, n + 1, ips, r)
  {
    var f := FirstFree(used, cur);
    var net := NodeSubnet(range, f);
    var more := ips[node := net];
    var rest, all := r - more.Keys, r - ips.Keys;
    assert r[node] == more[node] == net;
    assert all == rest[node := net];
    assert f !in OctetsOf(rest);
    forall m | m in rest ensures rest[m].ip.c != f { assert rest[m].ip.c in OctetsOf(rest); }
    forall b ensures b in OctetsOf(all) <==> IsAmongLowest(used, b, n + 1) {
      OctetsInsert(rest, node, net, b);
      LowestStep(used, cur, b, n + 1);
    }
    forall m | m in ips ensures m in r && r[m] == ips[m] { assert more[m] == ips[m]; }
  }

  lemma {:induction false} AllocateNodesNew(range: IPNet, used: set<byte>, cur: byte, nodes: seq<NodeId>, ips: Subnets)
    requires BelowUsed(used, cur) && AllocateNodes(range, used, cur, nodes, ips).Some?
    ensures NewAreLowest(range, used, |Lacking(nodes, ips)|, ips, AllocateNodes(range, used, cur, nodes, ips).value)
    decreases |nodes|
  {
    if nodes == [] {
      assert Lacking(nodes, ips) == {};
      assert ips - ips.Keys == map[];
    } else if nodes[0] in ips {
      LackingPresent(nodes, ips);
      AllocateNodesNew(range, used, cur, nodes[1..], ips);
    } else {
      var f := FirstFree(used, cur);
      var net := NodeSubnet(range, f);
      FirstFreeTaken(used, cur);
      LackingServed(nodes, ips, net);
      AllocateNodesNew(range, used + {f}, f, nodes[1..], ips[nodes[0] := net]);
      NewWith(range, used, cur, |Lacking(nodes[1..], ips[nodes[0] := net])|, ips, nodes[0],
              AllocateNodes(range, used, cur, nodes, ips).value);
    }
  }

  lemma ZeroIsNotLowest(used: set<byte>, b: byte, n: nat)
    requires used <= {0}
    ensures IsAmongLowest(used, b, n) <==> IsAmongLowest({}, b, n)
  {
    assert FreeBelow(used, b) == FreeBelow({}, b);
  }

  /** A new external subnet counts as one more new subnet. */
  lemma NewOctets(
      range: IPNet, addWGAccess: bool, external: Option<IPNet>, subnets: Subnets, nodes: seq<NodeId>, b: byte)
    requires AllocateMisread(range, addWGAccess, external, subnets, nodes).subnets.Some?
    ensures var r, kept := AllocateMisread(range, addWGAccess, external, subnets, nodes), Kept(subnets, nodes);
            b in OctetsOf(r.subnets.value - kept.Keys) || (addWGAccess && external.None? && b == r.external.value.ip.c)
            <==> IsAmongLowest({}, b, Demand(addWGAccess, external, kept, nodes))
  {
    var kept := Kept(subnets, nodes);
    var used := Misread(addWGAccess, external, kept);
    OnlyZeroIsRead(addWGAccess, external, kept);
    ZeroIsNotLowest(used, b, Demand(addWGAccess, external, kept, nodes));
    if addWGAccess && external.None? {
      var f := FirstFree(used, 2);
      FirstFreeTaken(used, 2);
      LowestStep(used, 2, b, Demand(addWGAccess, external, kept, nodes));
      AllocateNodesNew(range, used + {f}, f, nodes, kept);
    } else {
      AllocateNodesNew(range, used, 2, nodes, kept);
    }
  }

  /** New subnets are distinct among themselves, and kept ones stay. */
  lemma NewAreSound(range: IPNet, addWGAccess: bool, external: Option<IPNet>, subnets: Subnets, nodes: seq<NodeId>)
    requires AllocateMisread(range, addWGAccess, external, subnets, nodes).subnets.Some?
    ensures var r, kept := AllocateMisread(range, addWGAccess, external, subnets, nodes), Kept(subnets, nodes);
            && (forall m :: m in kept ==> m in r.subnets.value && r.subnets.value[m] == kept[m])
            && Sound(range, r.subnets.value - kept.Keys, if addWGAccess && external.None? then r.external else None)
            && (addWGAccess && external.None? ==> r.external.Some?)
            && (external.Some? || !addWGAccess ==> r.external == external)
  {
    var kept := Kept(subnets, nodes);
    var used := Misread(addWGAccess, external, kept);
    OnlyZeroIsRead(addWGAccess, external, kept);
    if addWGAccess && external.None? {
      var f := FirstFree(used, 2);
      FirstFreeTaken(used, 2);
      AllocateNodesNew(range, used + {f}, f, nodes, kept);
      var rest := AllocateNodes(range, used + {f}, f, nodes, kept).value - kept.Keys;
      forall m | m in rest ensures rest[m].ip.c != f { assert rest[m].ip.c in OctetsOf(rest); }
    } else {
      AllocateNodesNew(range, used, 2, nodes, kept);
    }
  }

  /** The octets of the kept subnets, the external one included, are clear of what is handed out anew. */
  ghost predicate KeptAreClear(addWGAccess: bool, external: Option<IPNet>, kept: Subnets, nodes: seq<NodeId>) {
    forall b :: b in Taken(addWGAccess, external, kept) ==>
        !IsAmongLowest({}, b, Demand(addWGAccess, external, kept, nodes))
  }

  ghost predicate HasOctet(subnets: Subnets, external: Option<IPNet>, b: byte) {
    b in OctetsOf(subnets) || (external.Some? && b == external.value.ip.c)
  }

  ghost predicate NoneShared(kept: Subnets, keptExternal: Option<IPNet>, added: Subnets, newExternal: Option<IPNet>) {
    forall b :: HasOctet(kept, keptExternal, b) ==> !HasOctet(added, newExternal, b)
  }

  lemma SharedIsUnsound(
      range: IPNet, kept: Subnets, keptExternal: Option<IPNet>, all: Subnets, newExternal: Option<IPNet>, b: byte)
    requires forall m :: m in kept ==> m in all && all[m] == kept[m]
    requires keptExternal.None? || newExternal.None?
    requires HasOctet(kept, keptExternal, b) && HasOctet(all - kept.Keys, newExternal, b)
    ensures !Sound(range, all, if keptExternal.Some? then keptExternal else newExternal)
  {
    var added := all - kept.Keys;
    if b in OctetsOf(kept) { var m :| m in kept && kept[m].ip.c == b; assert m in all && m !in added; }
    if b in OctetsOf(added) { var n :| n in added && added[n].ip.c == b; assert n in all && all[n] == added[n]; }
  }

  lemma ApartIsSound(range: IPNet, kept: Subnets, keptExternal: Option<IPNet>, all: Subnets, newExternal: Option<IPNet>)
    requires Sound(range, kept, keptExternal) && (forall m :: m in kept ==> m in all && all[m] == kept[m])
    requires Sound(range, all - kept.Keys, newExternal) && (keptExternal.None? || newExternal.None?)
    requires NoneShared(kept, keptExternal, all - kept.Keys, newExternal)
    ensures Sound(range, all, if keptExternal.Some? then keptExternal else newExternal)
  {
    var added := all - kept.Keys;
    forall m | m in kept ensures HasOctet(kept, keptExternal, all[m].ip.c) { assert kept[m].ip.c in OctetsOf(kept); }
    forall n | n in added ensures HasOctet(added, newExternal, all[n].ip.c) { assert added[n].ip.c in OctetsOf(added); }
    assert keptExternal.Some? ==> HasOctet(kept, keptExternal, keptExternal.value.ip.c);
    forall n ensures n in all <==> n in kept || n in added {}
  }

  /** Distinct old ones and distinct new ones are distinct together exactly when no octet is in both. */
  lemma SoundTogether(
      range: IPNet, kept: Subnets, keptExternal: Option<IPNet>, all: Subnets, newExternal: Option<IPNet>)
    requires Sound(range, kept, keptExternal) && (forall m :: m in kept ==> m in all && all[m] == kept[m])
    requires Sound(range, all - kept.Keys, newExternal) && (keptExternal.None? || newExternal.None?)
    ensures Sound(range, all, if keptExternal.Some? then keptExternal else newExternal)
            <==> NoneShared(kept, keptExternal, all - kept.Keys, newExternal)
  {
    if NoneShared(kept, keptExternal, all - kept.Keys, newExternal) {
      ApartIsSound(range, kept, keptExternal, all, newExternal);
    } else {
      var b :| HasOctet(kept, keptExternal, b) && HasOctet(all - kept.Keys, newExternal, b);
      SharedIsUnsound(range, kept, keptExternal, all, newExternal, b);
    }
  }

  /**
   * With a four-byte range and sixteen-byte subnets, an assignment from distinct subnets leaves distinct
   * ones exactly when no octet in use is among the lowest ones, counted as if none were: as many as it needs.
   */
  lemma MisreadIsSoundExactly(
      range: IPNet, addWGAccess: bool, external: Option<IPNet>, subnets: Subnets, nodes: seq<NodeId>)
    requires Sound(range, Kept(subnets, nodes), if addWGAccess then external else None)
    requires AllocateMisread(range, addWGAccess, external, subnets, nodes).subnets.Some?
    ensures var r := AllocateMisread(range, addWGAccess, external, subnets, nodes);
            Sound(range, r.subnets.value, if addWGAccess then r.external else None)
            <==> KeptAreClear(addWGAccess, external, Kept(subnets, nodes), nodes)
  {
    var r, kept := AllocateMisread(range, addWGAccess, external, subnets, nodes), Kept(subnets, nodes);
    var keptExternal := if addWGAccess then external else None;
    var newExternal := if addWGAccess && external.None? then r.external else None;
    NewAreSound(range, addWGAccess, external, subnets, nodes);
    SoundTogether(range, kept, keptExternal, r.subnets.value, newExternal);
    forall b
      ensures HasOctet(kept, keptExternal, b) <==> b in Taken(addWGAccess, external, kept)
      ensures HasOctet(r.subnets.value - kept.Keys, newExternal, b) <==>
              IsAmongLowest({}, b, Demand(addWGAccess, external, kept, nodes))
    {
      NewOctets(range, addWGAccess, external, subnets, nodes, b);
    }
  }

  /** The first node of a network gets octet 2, and the second, in a later run, gets it again. */
  lemma SecondRunReusesOctet(range: IPNet)
    ensures var first := map[1 := NodeSubnet(range, 2)];
            && AllocateMisread(range, false, None, map[], [1]) == Allocation(None, Some(first))
            && AllocateMisread(range, false, None, first, [1, 2]) ==
               Allocation(None, Some(first[2 := NodeSubnet(range, 2)]))
  {
    var none: Subnets := map[];
    var first: Subnets := map[1 := NodeSubnet(range, 2)];
    assert Kept(none, [1]) == none && Misread(false, None, none) == {};
    assert FirstFree({}, 2) == 2 && FirstFree({0}, 2) == 2;
    assert AllocateNodes(range, {2}, 2, [], first) == Some(first);
    assert none[1 := NodeSubnet(range, 2)] == first && [1][1..] == [] && {} + {2} == {2};
    assert Kept(first, [1, 2]) == first;
    ReadsThirdOctet(FourBytes, SixteenBytes, first[1].ip);
    assert Misread(false, None, first) == {0};
    assert [1, 2][1..] == [2] && [2][1..] == [];
    assert AllocateNodes(range, {0}, 2, [2], first) == Some(first[2 := NodeSubnet(range, 2)]);
  }
}
