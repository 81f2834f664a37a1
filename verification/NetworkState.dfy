/** The overlay networks known locally: node subnets, and the host ids deployments use on each node. */
module NetworkState {
  import opened Wrappers
  import opened Addresses
  import opened GridTypes
  import opened Workloads

  type HostIDs = map<ContractId, seq<byte>>
  type HostIndex = map<NodeId, HostIDs>

  // ----- The index of used host ids -----

  function IDsOn(index: HostIndex, node: NodeId): HostIDs {
    if node in index then index[node] else map[]
  }

  function WithIDs(index: HostIndex, node: NodeId, contract: ContractId, ids: seq<byte>): HostIndex {
    index[node := IDsOn(index, node)[contract := ids]]
  }

  function WithoutIDs(index: HostIndex, node: NodeId, contract: ContractId): HostIndex {
    if node in index then index[node := index[node] - {contract}] else index
  }

  /** Every host id some deployment uses on the node. */
  function UsedOn(index: HostIndex, node: NodeId): set<byte> {
    set c, b | c in IDsOn(index, node) && b in IDsOn(index, node)[c] :: b
  }

  /** A network is shared by reference: what a copy inserts is seen by all. */
  class Network {
    var Subnets: map<NodeId, string>
    var NodeDeploymentHostIDs: HostIndex

    constructor ()
      ensures Subnets == map[] && NodeDeploymentHostIDs == map[]
    {
      Subnets, NodeDeploymentHostIDs := map[], map[];
    }

    method GetUsedNetworkHostIDs(node: NodeId) returns (ids: seq<byte>)
      ensures OctetSet(ids) == UsedOn(NodeDeploymentHostIDs, node)
    {
      ids := [];
      if node !in NodeDeploymentHostIDs {
        assert UsedOn(NodeDeploymentHostIDs, node) == {};
        return;
      }
      var all := NodeDeploymentHostIDs[node];
      var contracts := all.Keys;
      while contracts != {}
        invariant contracts <= all.Keys
        invariant forall b :: b in ids <==> exists c :: c in all && c !in contracts && b in all[c]
        decreases contracts
      {
        var contract :| contract in contracts;
        ghost var before := ids;
        ids := ids + all[contract];
        contracts := contracts - {contract};
        forall b ensures b in ids <==> exists c :: c in all && c !in contracts && b in all[c] {
          assert b in ids <==> b in before || b in all[contract];
        }
      }
      assert IDsOn(NodeDeploymentHostIDs, node) == all;
      forall b: byte ensures b in OctetSet(ids) <==> b in UsedOn(NodeDeploymentHostIDs, node) {
        if b in ids {
          var c :| c in all && b in all[c];
        }
      }
    }

    method SetDeploymentHostIDs(node: NodeId, contract: ContractId, ids: seq<byte>)
      modifies this`NodeDeploymentHostIDs
      ensures NodeDeploymentHostIDs == WithIDs(old(NodeDeploymentHostIDs), node, contract, ids)
    {
      if node !in NodeDeploymentHostIDs {
        NodeDeploymentHostIDs := NodeDeploymentHostIDs[node := map[]];
      }
      var onNode: HostIDs := NodeDeploymentHostIDs[node];
      onNode := onNode[contract := ids];
      NodeDeploymentHostIDs := NodeDeploymentHostIDs[node := onNode];
    }

    method DeleteDeploymentHostIDs(node: NodeId, contract: ContractId)
      modifies this`NodeDeploymentHostIDs
      ensures NodeDeploymentHostIDs == WithoutIDs(old(NodeDeploymentHostIDs), node, contract)
    {
      if node in NodeDeploymentHostIDs {
        NodeDeploymentHostIDs := NodeDeploymentHostIDs[node := NodeDeploymentHostIDs[node] - {contract}];
      }
    }
  }

  /** What is recorded for a network; a missing one counts as empty. */
  datatype View = View(subnets: map<NodeId, string>, index: HostIndex)

  class Networks {
    var nets: map<string, Network>

    /** Different names have different networks. */
    ghost predicate Valid()
      reads this
    {
      forall m, n :: m in nets && n in nets && nets[m] == nets[n] ==> m == n
    }

    ghost function At(name: string): View
      reads this, nets.Values
    {
      if name in nets then
        assert nets[name] in nets.Values;
        View(nets[name].Subnets, nets[name].NodeDeploymentHostIDs)
      else View(map[], map[])
    }

    constructor ()
      ensures nets == map[]
    {
      nets := map[];
    }

    /** The network of that name, created empty if there is none. */
    method GetNetwork(name: string) returns (net: Network)
      requires Valid()
      modifies this
      ensures Valid() && forall n :: At(n) == old(At(n))
      ensures fresh(nets.Values - old(nets.Values))
      ensures name in nets && nets[name] == net && nets == old(nets)[name := net]
      ensures if name in old(nets) then net == old(nets)[name]
              else fresh(net) && net.Subnets == map[] && net.NodeDeploymentHostIDs == map[]
    {
      if name !in nets {
        net := new Network();
        nets := nets[name := net];
      }
      net := nets[name];
    }
  }

  // ----- Runs of synchronisations -----

  /**
   * One synchronisation replaces the host ids of a contract on a node by those of its running machines;
   * None when a machine without IPv4 address stops it after the old ones were dropped.
   */
  datatype SyncEvent = SyncEvent(node: NodeId, contract: ContractId, ids: Option<seq<byte>>)

  function Resynced(index: HostIndex, e: SyncEvent): HostIndex {
    var without := WithoutIDs(index, e.node, e.contract);
    if e.ids.Some? then WithIDs(without, e.node, e.contract, e.ids.value) else without
  }

  function AfterSyncs(index: HostIndex, events: seq<SyncEvent>): HostIndex {
    if events == [] then index else Resynced(AfterSyncs(index, events[..|events| - 1]), events[|events| - 1])
  }

  /** One more synchronisation after a run of them is a run of them. */
  lemma OneMoreSync(index: HostIndex, events: seq<SyncEvent>, e: SyncEvent)
    ensures AfterSyncs(index, events + [e]) == Resynced(AfterSyncs(index, events), e)
  {
    assert (events + [e])[..|events|] == events;
  }

  ghost predicate IsLatest(events: seq<SyncEvent>, i: nat) {
    i < |events| &&
        forall j :: i < j < |events| ==> events[j].node != events[i].node || events[j].contract != events[i].contract
  }

  /**
   * After any run, the index holds for each contract what its latest synchronisation recorded, and
   * nothing if that one was stopped.
   */
  lemma {:induction false} LatestSyncIsRecorded(index: HostIndex, events: seq<SyncEvent>, i: nat)
    requires IsLatest(events, i)
    ensures var e, on := events[i], IDsOn(AfterSyncs(index, events), events[i].node);
            match e.ids
            case None => e.contract !in on
            case Some(ids) =>
              && e.contract in on && on[e.contract] == ids
              && OctetSet(ids) <= UsedOn(AfterSyncs(index, events), e.node)
    decreases |events|
  {
    if i < |events| - 1 {
      var init := events[..|events| - 1];
      assert init[i] == events[i] && IsLatest(init, i);
      LatestSyncIsRecorded(index, init, i);
    }
  }

  // ----- Handing out host ids -----

  function HostAddress(t: Texts, net: IPNet, host: byte): string {
    t.showIP(V4(net.ip.(d := host)))
  }

  predicate HasAddress(t: Texts, net: IPNet, vm: VM) {
    vm.ip != "" && t.parseIP(vm.ip).Some? && t.parseIP(vm.ip).value.V4? && net.Contains(t.parseIP(vm.ip).value.addr)
  }

  datatype Assigned = Assigned(vms: seq<VM>, ok: bool)

  /** Machines without an address in the subnet get the lowest free host ids, in order. */
  function AssignHosts(t: Texts, net: IPNet, used: set<byte>, cur: byte, vms: seq<VM>): (r: Assigned)
    ensures |r.vms| == |vms|
    decreases |vms|
  {
    if vms == [] then Assigned([], true)
    else if HasAddress(t, net, vms[0]) then
      var r := AssignHosts(t, net, used, cur, vms[1..]);
      Assigned([vms[0]] + r.vms, r.ok)
    else
      var f := FirstFree(used, cur);
      if f == 255 then Assigned(vms, false)
      else
        var r := AssignHosts(t, net, used + {f}, f, vms[1..]);
        Assigned([vms[0].(ip := HostAddress(t, net, f))] + r.vms, r.ok)
  }

  /** The number of machines that need an address. */
  function Needy(t: Texts, net: IPNet, vms: seq<VM>): nat {
    if vms == [] then 0 else (if HasAddress(t, net, vms[0]) then 0 else 1) + Needy(t, net, vms[1..])
  }

  /** The host ids a greedy run hands out; None when they run out. */
  function Handed(used: set<byte>, cur: byte, n: nat): Option<seq<byte>>
    decreases n
  {
    if n == 0 then Some([])
    else
      var f := FirstFree(used, cur);
      if f == 255 then None
      else
        match Handed(used + {f}, f, n - 1)
        case None => None
        case Some(rest) => Some([f] + rest)
  }

  lemma {:induction false} HandedAreFree(used: set<byte>, cur: byte, n: nat)
    requires BelowUsed(used, cur)
    ensures Handed(used, cur, n).None? <==> n > |FreeOctets(used)|
    ensures var h := Handed(used, cur, n);
            h.Some? ==>
              && |h.value| == n
              && (forall i :: 0 <= i < n ==> 2 <= h.value[i] <= 254 && h.value[i] !in used)
              && (forall i, j :: 0 <= i < j < n ==> h.value[i] != h.value[j])
    decreases n
  {
    if n > 0 {
      var f := FirstFree(used, cur);
      FreeCount(used, cur);
      if f != 255 {
        FirstFreeTaken(used, cur);
        HandedAreFree(used + {f}, f, n - 1);
        assert forall i :: 0 < i && Handed(used, cur, n).Some? && i < n ==>
            Handed(used, cur, n).value[i] == Handed(used + {f}, f, n - 1).value[i - 1];
      }
    }
  }

  /** The machines, with the given host ids placed on the needy ones in order. */
  function Place(t: Texts, net: IPNet, vms: seq<VM>, hosts: seq<byte>): (r: seq<VM>)
    requires Needy(t, net, vms) <= |hosts|
    ensures |r| == |vms|
    decreases |vms|
  {
    if vms == [] then []
    else if HasAddress(t, net, vms[0]) then [vms[0]] + Place(t, net, vms[1..], hosts)
    else [vms[0].(ip := HostAddress(t, net, hosts[0]))] + Place(t, net, vms[1..], hosts[1..])
  }

  /**
   * The assignment succeeds exactly when the host ids suffice, and then places the handed-out ids on
   * the machines that need one, in order; every other machine is left alone.
   */
  lemma {:induction false} AssignmentPlacesHanded(t: Texts, net: IPNet, used: set<byte>, cur: byte, vms: seq<VM>)
    requires BelowUsed(used, cur)
    ensures var r, h := AssignHosts(t, net, used, cur, vms), Handed(used, cur, Needy(t, net, vms));
            && (r.ok <==> h.Some?)
            && (h.Some? ==> |h.value| == Needy(t, net, vms) && r.vms == Place(t, net, vms, h.value))
    decreases |vms|
  {
    HandedAreFree(used, cur, Needy(t, net, vms));
    if vms != [] {
      if HasAddress(t, net, vms[0]) {
        AssignmentPlacesHanded(t, net, used, cur, vms[1..]);
      } else {
        var f := FirstFree(used, cur);
        if f != 255 {
          FirstFreeTaken(used, cur);
          AssignmentPlacesHanded(t, net, used + {f}, f, vms[1..]);
        }
      }
    }
  }

  lemma NeedyTail(t: Texts, net: IPNet, vms: seq<VM>, i: nat)
    requires 0 < i <= |vms|
    ensures Needy(t, net, vms[..i]) == (if HasAddress(t, net, vms[0]) then 0 else 1) + Needy(t, net, vms[1..][..i - 1])
  {
    assert vms[..i][1..] == vms[1..][..i - 1];
  }

  /** A needy machine gets the host id whose turn it is; the others keep what they have. */
  lemma {:induction false} PlaceAt(t: Texts, net: IPNet, vms: seq<VM>, hosts: seq<byte>, i: nat)
    requires Needy(t, net, vms) <= |hosts| && i < |vms|
    ensures HasAddress(t, net, vms[i]) ==> Place(t, net, vms, hosts)[i] == vms[i]
    ensures !HasAddress(t, net, vms[i]) ==>
              && Needy(t, net, vms[..i]) < Needy(t, net, vms)
              && Place(t, net, vms, hosts)[i] == vms[i].(ip := HostAddress(t, net, hosts[Needy(t, net, vms[..i])]))
    decreases |vms|
  {
    if i > 0 {
      NeedyTail(t, net, vms, i);
      PlaceAt(t, net, vms[1..], if HasAddress(t, net, vms[0]) then hosts else hosts[1..], i - 1);
    }
  }

  lemma {:induction false} NeedyGrows(t: Texts, net: IPNet, vms: seq<VM>, i: nat, j: nat)
    requires i < j <= |vms| && !HasAddress(t, net, vms[i])
    ensures Needy(t, net, vms[..i]) < Needy(t, net, vms[..j])
    decreases i
  {
    NeedyTail(t, net, vms, j);
    if i > 0 {
      NeedyTail(t, net, vms, i);
      NeedyGrows(t, net, vms[1..], i - 1, j - 1);
    }
  }

  // ----- The whole assignment -----

  /** Byte 3 of the 16-byte form of an address, which is 0 for every IPv4 address. */
  function FourthByte(ip: IP): byte {
    match ip
    case V4(_) => 0
    case V6(fourth, _) => fourth
  }

  predicate InRange(net: IPNet, ip: IP) {
    ip.V4? && net.Contains(ip.addr)
  }

  predicate IsPreset(t: Texts, net: IPNet, vm: VM) {
    t.parseIP(vm.ip).Some? && InRange(net, t.parseIP(vm.ip).value)
  }

  /** What the scan over preset addresses adds to the used host ids: only ever the byte 0. */
  function Presets(t: Texts, net: IPNet, vms: seq<VM>): set<byte> {
    if exists vm :: vm in vms && IsPreset(t, net, vm) then {0} else {}
  }

  lemma PresetsLast(t: Texts, net: IPNet, vms: seq<VM>, vm: VM)
    ensures Presets(t, net, vms + [vm]) == Presets(t, net, vms) + if IsPreset(t, net, vm) then {0} else {}
  {
    assert vm in vms + [vm];
    assert forall v :: v in vms ==> v in vms + [vm];
  }

  /** `all` is `done` followed by what assigning the rest gives. */
  ghost predicate Continues(t: Texts, net: IPNet, used: set<byte>, cur: byte, done: seq<VM>, left: seq<VM>,
      all: Assigned) {
    var rest := AssignHosts(t, net, used, cur, left);
    all == Assigned(done + rest.vms, rest.ok)
  }

  lemma AssignStep(t: Texts, net: IPNet, used: set<byte>, cur: byte, done: seq<VM>, left: seq<VM>, all: Assigned)
    requires Continues(t, net, used, cur, done, left, all) && left != []
    ensures HasAddress(t, net, left[0]) ==> Continues(t, net, used, cur, done + [left[0]], left[1..], all)
    ensures !HasAddress(t, net, left[0]) ==>
              var f := FirstFree(used, cur);
              if f == 255 then all == Assigned(done + left, false)
              else Continues(t, net, used + {f}, f, done + [left[0].(ip := HostAddress(t, net, f))], left[1..], all)
  {
  }

  /** The assignment over the node's subnet; nothing happens when there are no machines. */
  function Addressing(t: Texts, subnet: string, used: set<byte>, vms: seq<VM>): Assigned {
    if vms == [] then Assigned(vms, true)
    else
      match t.parseCIDR(subnet)
      case None => Assigned(vms, false)
      case Some(net) => AssignHosts(t, net, used + Presets(t, net, vms), 2, vms)
  }

  // ----- What the assignment guarantees -----

  /** Printed addresses parse back to what was printed. */
  ghost predicate Lawful(t: Texts) {
    forall a: IPv4 :: t.parseIP(t.showIP(V4(a))) == Some(V4(a)) && t.showIP(V4(a)) != ""
  }

  function HostOf(t: Texts, vm: VM): byte
    requires t.parseIP(vm.ip).Some? && t.parseIP(vm.ip).value.V4?
  {
    t.parseIP(vm.ip).value.addr.d
  }

  lemma HostAddressParses(t: Texts, net: IPNet, host: byte, vm: VM)
    requires Lawful(t) && net.ones == 24 && vm.ip == HostAddress(t, net, host)
    ensures HasAddress(t, net, vm) && HostOf(t, vm) == host
  {
    ContainsByOctets(net, net.ip.(d := host));
  }

  /** The machines that lacked an address have pairwise distinct host ids. */
  ghost predicate DistinctHosts(t: Texts, net: IPNet, vms: seq<VM>, r: seq<VM>)
    requires |r| == |vms|
  {
    forall i, j :: 0 <= i < j < |vms| && !HasAddress(t, net, vms[i]) && !HasAddress(t, net, vms[j]) ==>
      HasAddress(t, net, r[i]) && HasAddress(t, net, r[j]) && HostOf(t, r[i]) != HostOf(t, r[j])
  }

  /**
   * Over a /24, machines that lacked an address get pairwise distinct host ids in 2..254, none of
   * them in use; the assignment fails only when the free ids do not suffice.
   */
  lemma AssignedHostsAreFresh(t: Texts, net: IPNet, used: set<byte>, vms: seq<VM>)
    requires Lawful(t) && net.ones == 24
    ensures var r := AssignHosts(t, net, used, 2, vms);
            && (r.ok <==> Needy(t, net, vms) <= |FreeOctets(used)|)
            && (r.ok ==> forall i :: 0 <= i < |vms| ==>
                  && HasAddress(t, net, r.vms[i])
                  && (HasAddress(t, net, vms[i]) ==> r.vms[i] == vms[i])
                  && (!HasAddress(t, net, vms[i]) ==>
                        r.vms[i] == vms[i].(ip := r.vms[i].ip)
                        && 2 <= HostOf(t, r.vms[i]) <= 254 && HostOf(t, r.vms[i]) !in used))
            && (r.ok ==> DistinctHosts(t, net, vms, r.vms))
  {
    var r := AssignHosts(t, net, used, 2, vms);
    HandedAreFree(used, 2, Needy(t, net, vms));
    AssignmentPlacesHanded(t, net, used, 2, vms);
    if r.ok {
      var hosts := Handed(used, 2, Needy(t, net, vms)).value;
      forall i | 0 <= i < |vms|
        ensures HasAddress(t, net, r.vms[i])
        ensures HasAddress(t, net, vms[i]) ==> r.vms[i] == vms[i]
        ensures !HasAddress(t, net, vms[i]) ==>
                  && Needy(t, net, vms[..i]) < |hosts|
                  && r.vms[i] == vms[i].(ip := r.vms[i].ip)
                  && HostOf(t, r.vms[i]) == hosts[Needy(t, net, vms[..i])]
      {
        PlaceAt(t, net, vms, hosts, i);
        if !HasAddress(t, net, vms[i]) { HostAddressParses(t, net, hosts[Needy(t, net, vms[..i])], r.vms[i]); }
      }
      forall i, j | 0 <= i < j < |vms| && !HasAddress(t, net, vms[i]) && !HasAddress(t, net, vms[j])
        ensures HasAddress(t, net, r.vms[i]) && HasAddress(t, net, r.vms[j]) &&
                HostOf(t, r.vms[i]) != HostOf(t, r.vms[j])
      {
        NeedyGrows(t, net, vms, i, j);
      }
    }
  }

  /** After any run of synchronisations, no assigned id is one a running machine was last seen to use on the node. */
  lemma AssignedAvoidSynced(
      t: Texts, net: IPNet, index: HostIndex, events: seq<SyncEvent>, preset: set<byte>, vms: seq<VM>, e: nat, i: nat)
    requires Lawful(t) && net.ones == 24 && IsLatest(events, e) && i < |vms| && !HasAddress(t, net, vms[i])
    requires events[e].ids.Some?
    requires AssignHosts(t, net, UsedOn(AfterSyncs(index, events), events[e].node) + preset, 2, vms).ok
    ensures var r := AssignHosts(t, net, UsedOn(AfterSyncs(index, events), events[e].node) + preset, 2, vms);
            HasAddress(t, net, r.vms[i]) && HostOf(t, r.vms[i]) !in events[e].ids.value
  {
    LatestSyncIsRecorded(index, events, e);
    var used := UsedOn(AfterSyncs(index, events), events[e].node) + preset;
    AssignedHostsAreFresh(t, net, used, vms);
    assert HostOf(t, AssignHosts(t, net, used, 2, vms).vms[i]) !in OctetSet(events[e].ids.value);
  }

  lemma {:induction false} NothingToAssign(t: Texts, net: IPNet, used: set<byte>, cur: byte, vms: seq<VM>)
    requires forall i :: 0 <= i < |vms| ==> HasAddress(t, net, vms[i])
    ensures AssignHosts(t, net, used, cur, vms) == Assigned(vms, true)
    decreases |vms|
  {
    if vms != [] { NothingToAssign(t, net, used, cur, vms[1..]); }
  }

  /** A second assignment changes nothing, whatever is in use by then. */
  lemma AssignmentIsStable(t: Texts, net: IPNet, used: set<byte>, vms: seq<VM>, later: set<byte>)
    requires Lawful(t) && net.ones == 24 && AssignHosts(t, net, used, 2, vms).ok
    ensures var r := AssignHosts(t, net, used, 2, vms);
            AssignHosts(t, net, later, 2, r.vms) == r
  {
    AssignedHostsAreFresh(t, net, used, vms);
    NothingToAssign(t, net, later, 2, AssignHosts(t, net, used, 2, vms).vms);
  }

  // ----- Addresses the user set -----

  /** Some machine with a preset address ends up sharing its host id with an assigned one. */
  ghost predicate Clashes(t: Texts, net: IPNet, vms: seq<VM>, r: seq<VM>) {
    exists i, j ::
      && 0 <= i < |vms| && 0 <= j < |vms| && j < |r|
      && HasAddress(t, net, vms[i]) && !HasAddress(t, net, vms[j]) && HasAddress(t, net, r[j])
      && HostOf(t, vms[i]) == HostOf(t, r[j])
  }

  /** The host ids handed out are exactly the lowest free ones, as many as are needed. */
  lemma {:induction false} HandedAreLowest(used: set<byte>, cur: byte, n: nat, b: byte)
    requires BelowUsed(used, cur) && Handed(used, cur, n).Some?
    ensures b in Handed(used, cur, n).value <==> IsAmongLowest(used, b, n)
    decreases n
  {
    if n > 0 {
      var f := FirstFree(used, cur);
      LowestStep(used, cur, b, n);
      FirstFreeTaken(used, cur);
      HandedAreLowest(used + {f}, f, n - 1, b);
    }
  }

  /** The host id of a preset address is free and among the lowest, as many as machines lack an address. */
  ghost predicate PresetIsNext(t: Texts, net: IPNet, used: set<byte>, vms: seq<VM>) {
    exists i :: 0 <= i < |vms| && HasAddress(t, net, vms[i]) &&
        IsAmongLowest(used, HostOf(t, vms[i]), Needy(t, net, vms))
  }

  lemma {:induction false} NeedyIsReached(t: Texts, net: IPNet, vms: seq<VM>, n: nat) returns (j: nat)
    requires n < Needy(t, net, vms)
    ensures j < |vms| && !HasAddress(t, net, vms[j]) && Needy(t, net, vms[..j]) == n
    decreases |vms|
  {
    if HasAddress(t, net, vms[0]) {
      j := NeedyIsReached(t, net, vms[1..], n);
      j := j + 1;
      NeedyTail(t, net, vms, j);
    } else if n == 0 {
      j := 0;
    } else {
      j := NeedyIsReached(t, net, vms[1..], n - 1);
      j := j + 1;
      NeedyTail(t, net, vms, j);
    }
  }

  /**
   * The assigned addresses avoid the preset ones exactly when no preset host id is free with fewer
   * free ids below it than there are machines without address.
   */
  lemma ClashExactlyWhenNext(t: Texts, net: IPNet, used: set<byte>, vms: seq<VM>)
    requires Lawful(t) && net.ones == 24 && AssignHosts(t, net, used, 2, vms).ok
    ensures Clashes(t, net, vms, AssignHosts(t, net, used, 2, vms).vms) <==> PresetIsNext(t, net, used, vms)
  {
    var r := AssignHosts(t, net, used, 2, vms).vms;
    var n := Needy(t, net, vms);
    HandedAreFree(used, 2, n);
    AssignmentPlacesHanded(t, net, used, 2, vms);
    var hosts := Handed(used, 2, n).value;
    if Clashes(t, net, vms, r) {
      var i, j :| 0 <= i < |vms| && 0 <= j < |vms|
        && HasAddress(t, net, vms[i]) && !HasAddress(t, net, vms[j]) && HasAddress(t, net, r[j])
        && HostOf(t, vms[i]) == HostOf(t, r[j]);
      PlaceAt(t, net, vms, hosts, j);
      HostAddressParses(t, net, hosts[Needy(t, net, vms[..j])], r[j]);
      HandedAreLowest(used, 2, n, HostOf(t, vms[i]));
      assert HostOf(t, vms[i]) in hosts;
    }
    if PresetIsNext(t, net, used, vms) {
      var i :| 0 <= i < |vms| && HasAddress(t, net, vms[i]) && IsAmongLowest(used, HostOf(t, vms[i]), n);
      HandedAreLowest(used, 2, n, HostOf(t, vms[i]));
      var k :| 0 <= k < |hosts| && hosts[k] == HostOf(t, vms[i]);
      var j := NeedyIsReached(t, net, vms, k);
      PlaceAt(t, net, vms, hosts, j);
      HostAddressParses(t, net, hosts[k], r[j]);
      assert HasAddress(t, net, vms[i]) && !HasAddress(t, net, vms[j]) && HostOf(t, vms[i]) == HostOf(t, r[j]);
    }
  }

  /**
   * The intended reading, with preset addresses counted among the used host ids by their last octet:
   * under it no assigned address clashes with a preset one.
   */
  lemma IntendedReadingNeverClashes(t: Texts, net: IPNet, used: set<byte>, vms: seq<VM>)
    requires Lawful(t) && net.ones == 24 && AssignHosts(t, net, used, 2, vms).ok
    requires forall i :: 0 <= i < |vms| && HasAddress(t, net, vms[i]) ==> HostOf(t, vms[i]) in used
    ensures !Clashes(t, net, vms, AssignHosts(t, net, used, 2, vms).vms)
  {
    AssignedHostsAreFresh(t, net, used, vms);
  }

  // ----- Successive assignments -----

  /** Machines of two assignments over the same subnet got the same host id. */
  ghost predicate SharedHost(t: Texts, net: IPNet, first: seq<VM>, r: seq<VM>, second: seq<VM>, q: seq<VM>) {
    exists i, j ::
      && 0 <= i < |first| && 0 <= j < |second| && i < |r| && j < |q|
      && !HasAddress(t, net, first[i]) && !HasAddress(t, net, second[j])
      && HasAddress(t, net, r[i]) && HasAddress(t, net, q[j]) && HostOf(t, r[i]) == HostOf(t, q[j])
  }

  /** The byte 0 changes nothing about the ids in 2..254. */
  lemma PresetsDoNotMatter(t: Texts, net: IPNet, used: set<byte>, vms: seq<VM>)
    ensures FirstFree(used + Presets(t, net, vms), 2) == FirstFree(used, 2)
  {
    if Presets(t, net, vms) != {} { ZeroDoesNotMatter(used, 2); } else { assert used + {} == used; }
  }

  lemma {:induction false} ZeroDoesNotMatter(used: set<byte>, cur: byte)
    requires cur > 0
    ensures FirstFree(used + {0}, cur) == FirstFree(used, cur)
    decreases 255 - cur
  {
    if cur in used && cur <= 254 { ZeroDoesNotMatter(used, cur + 1); }
  }

  /** The first machine without address gets the least free id. */
  lemma FirstNeedyGetsFirst(t: Texts, net: IPNet, used: set<byte>, vms: seq<VM>) returns (j: nat)
    requires Lawful(t) && net.ones == 24 && Needy(t, net, vms) > 0 && AssignHosts(t, net, used, 2, vms).ok
    ensures j < |vms| && !HasAddress(t, net, vms[j])
    ensures var r := AssignHosts(t, net, used, 2, vms).vms;
            HasAddress(t, net, r[j]) && HostOf(t, r[j]) == FirstFree(used, 2)
  {
    j := NeedyIsReached(t, net, vms, 0);
    AssignmentPlacesHanded(t, net, used, 2, vms);
    var hosts := Handed(used, 2, Needy(t, net, vms)).value;
    PlaceAt(t, net, vms, hosts, j);
    HostAddressParses(t, net, hosts[0], AssignHosts(t, net, used, 2, vms).vms[j]);
  }

  lemma {:induction false} NoneNeedy(t: Texts, net: IPNet, vms: seq<VM>, i: nat)
    requires Needy(t, net, vms) == 0 && i < |vms|
    ensures HasAddress(t, net, vms[i])
    decreases |vms|
  {
    if i > 0 { NoneNeedy(t, net, vms[1..], i - 1); }
  }

  /**
   * Two deployments whose addresses are assigned with the same ids in use, as happens when none of them
   * is synchronised in between, share a host id exactly when both have a machine without address.
   */
  lemma SuccessiveAssignmentsClash(t: Texts, net: IPNet, used: set<byte>, first: seq<VM>, second: seq<VM>)
    requires Lawful(t) && net.ones == 24
    requires AssignHosts(t, net, used + Presets(t, net, first), 2, first).ok
    requires AssignHosts(t, net, used + Presets(t, net, second), 2, second).ok
    ensures SharedHost(t, net, first, AssignHosts(t, net, used + Presets(t, net, first), 2, first).vms,
                       second, AssignHosts(t, net, used + Presets(t, net, second), 2, second).vms)
            <==> Needy(t, net, first) > 0 && Needy(t, net, second) > 0
  {
    var r := AssignHosts(t, net, used + Presets(t, net, first), 2, first).vms;
    var q := AssignHosts(t, net, used + Presets(t, net, second), 2, second).vms;
    if Needy(t, net, first) > 0 && Needy(t, net, second) > 0 {
      var i := FirstNeedyGetsFirst(t, net, used + Presets(t, net, first), first);
      var j := FirstNeedyGetsFirst(t, net, used + Presets(t, net, second), second);
      PresetsDoNotMatter(t, net, used, first);
      PresetsDoNotMatter(t, net, used, second);
      assert HostOf(t, r[i]) == HostOf(t, q[j]);
    } else if SharedHost(t, net, first, r, second, q) {
      var i, j :| 0 <= i < |first| && 0 <= j < |second| && i < |r| && j < |q|
        && !HasAddress(t, net, first[i]) && !HasAddress(t, net, second[j])
        && HasAddress(t, net, r[i]) && HasAddress(t, net, q[j]) && HostOf(t, r[i]) == HostOf(t, q[j]);
      if Needy(t, net, first) == 0 { NoneNeedy(t, net, first, i); } else { NoneNeedy(t, net, second, j); }
    }
  }

  /** With nothing else in use, a machine preset to host 2 gets a double. */
  lemma PresetAddressIsHandedOut(t: Texts, net: IPNet, preset: VM, lacking: VM)
    requires Lawful(t) && net.ones == 24
    requires preset.ip == HostAddress(t, net, 2) && !HasAddress(t, net, lacking)
    ensures AssignHosts(t, net, {0}, 2, [preset, lacking]) == Assigned([preset, lacking.(ip := preset.ip)], true)
  {
    HostAddressParses(t, net, 2, preset);
    assert [preset, lacking][1..] == [lacking] && [lacking][1..] == [];
    assert FirstFree({0}, 2) == 2;
    assert AssignHosts(t, net, {0}, 2, [lacking]) == Assigned([lacking.(ip := preset.ip)], true);
  }
}
