/** Deploying, cancelling and synchronising a user's deployment, and the local state kept beside it. */
module DeploymentDeployer {
  import opened Wrappers
  import opened Addresses
  import opened GridTypes
  import opened Workloads
  import opened Slices
  import opened Matching
  import opened ReadBack
  import opened Reading
  import opened Restoring
  import opened NetworkState
  import opened GridWorld
  import opened LocalState
  import D = Deployer

  // ----- Validation -----

  predicate IsSpace(c: char) {
    || '\t' <= c <= '\r' || c == ' ' || c == '\U{85}' || c == '\U{A0}' || c == '\U{1680}' ||
       '\U{2000}' <= c <= '\U{200A}'
    || c == '\U{2028}' || c == '\U{2029}' || c == '\U{202F}' || c == '\U{205F}' || c == '\U{3000}'
  }

  predicate Blank(s: string) {
    forall c :: c in s ==> IsSpace(c)
  }

  /** The checksum published for an image; None when it cannot be fetched. */
  type Checksums = string -> Option<string>

  predicate ValidVM(checksum: Checksums, vm: VM) {
    1 <= vm.cpu <= 32 && (vm.flistChecksum != "" ==> checksum(vm.flist) == Some(vm.flistChecksum))
  }

  predicate ValidDeclaration(checksum: Checksums, networkName: string, vms: seq<VM>) {
    (vms != [] ==> !Blank(networkName)) && forall vm :: vm in vms ==> ValidVM(checksum, vm)
  }

  method ValidateVMs(checksum: Checksums, networkName: string, vms: seq<VM>) returns (ok: bool)
    ensures ok <==> ValidDeclaration(checksum, networkName, vms)
  {
    if |vms| != 0 && Blank(networkName) { return false; }
    for i := 0 to |vms|
      invariant forall vm :: vm in vms[..i] ==> ValidVM(checksum, vm)
    {
      assert vms[i] in vms;
      if vms[i].cpu < 1 || vms[i].cpu > 32 { return false; }
      if vms[i].flistChecksum != "" {
        var sum := checksum(vms[i].flist);
        if sum.None? || vms[i].flistChecksum != sum.value { return false; }
      }
    }
    assert vms[..|vms|] == vms;
    return true;
  }

  // ----- The plugin -----

  datatype DeployResult = Invalid | NotGenerated | Ran(outcome: D.Outcome)

  datatype SyncResult = ContractUnknown | NotFetched | Nullified | Panicked | Synced

  /** The node holds what the flattened declaration requests. */
  ghost predicate HoldsDeclared(t: Texts, g: Grid, cur: D.Contracts, node: NodeId, d: Declaration) {
    Flatten(t, d).Some? && D.Holds(g, cur, node, Flatten(t, d).value)
  }

  /** A network after a contract's machines were read back; a machine without IPv4 address leaves nothing recorded. */
  function AfterSync(t: Texts, v: View, node: NodeId, id: ContractId, ws: seq<Workload>): View {
    View(v.subnets, Resynced(v.index, SyncEvent(node, id, HostIDsIn(t, ws))))
  }

  /** A synchronisation, stopped or not, continues a run of synchronisations. */
  lemma SyncContinues(
      t: Texts, v: View, node: NodeId, id: ContractId, ws: seq<Workload>, index: HostIndex, events: seq<SyncEvent>)
    requires v.index == AfterSyncs(index, events)
    ensures AfterSync(t, v, node, id, ws).index == AfterSyncs(index, events + [SyncEvent(node, id, HostIDsIn(t, ws))])
  {
    OneMoreSync(index, events, SyncEvent(node, id, HostIDsIn(t, ws)));
  }

  /** Whatever the node answered and in whatever order: if the declaration can be restored, it is. */
  ghost predicate RestoresDeclared(t: Texts, d: Declaration, ws: seq<Workload>, got: Declaration) {
    Restorable(t, d) ==> forall answer :: Returned(t, d, answer, ws) ==> got == ObservedDeclaration(answer, d)
  }

  lemma ShowsRestored(t: Texts, d: Declaration, ws: seq<Workload>, got: Declaration, sorted: seq<VM>)
    requires Matched(t, d, ws, got, sorted)
    ensures RestoresDeclared(t, d, ws, got)
  {
    if Restorable(t, d) {
      forall answer | Returned(t, d, answer, ws) ensures got == ObservedDeclaration(answer, d) {
        DeclarationIsRestored(t, d, answer, ws, got, sorted);
      }
    }
  }

  /** The one deployment that a declaration asks for. */
  function Requested(t: Texts, node: NodeId, d: Declaration): D.Deployments
    requires Flatten(t, d).Some?
  {
    map[node := NewGridDeployment(Flatten(t, d).value)]
  }

  class DeploymentDeployer {
    const t: Texts
    const checksum: Checksums
    const deployer: D.Deployer
    const networks: Networks
    var CurrentNodeDeployments: map<NodeId, seq<ContractId>>

    constructor (t: Texts, checksum: Checksums, deployer: D.Deployer, networks: Networks)
      ensures this.t == t && this.checksum == checksum && this.deployer == deployer && this.networks == networks
      ensures CurrentNodeDeployments == map[]
    {
      this.t, this.checksum, this.deployer, this.networks := t, checksum, deployer, networks;
      CurrentNodeDeployments := map[];
    }

    /** The node's subnet and the host ids in use on it, by the local network state. */
    ghost function Subnet(network: string, node: NodeId): string
      reads networks, networks.nets.Values
    {
      var subnets := networks.At(network).subnets;
      if node in subnets then subnets[node] else ""
    }

    // ----- Assigning addresses -----

    /** The host ids in use, and those of preset addresses by their fourth byte. */
    method UsedHosts(net: IPNet, used: seq<byte>, vms: seq<VM>) returns (r: seq<byte>)
      ensures OctetSet(r) == OctetSet(used) + Presets(t, net, vms)
    {
      r := used;
      for i := 0 to |vms|
        invariant OctetSet(r) == OctetSet(used) + Presets(t, net, vms[..i])
      {
        assert vms[..i + 1] == vms[..i] + [vms[i]];
        PresetsLast(t, net, vms[..i], vms[i]);
        var vmIP := t.parseIP(vms[i].ip);
        if vmIP.Some? {
          var vmHostID := FourthByte(vmIP.value);
          if InRange(net, vmIP.value) && vmHostID !in r {
            AppendOctet(r, vmHostID);
            r := r + [vmHostID];
          }
        }
      }
      assert vms[..|vms|] == vms;
    }

    /** Advances the cursor past the used host ids; fails at 254. */
    static method NextHost(used: seq<byte>, cur: byte) returns (next: byte, ok: bool)
      requires cur <= 254
      ensures ok <==> FirstFree(OctetSet(used), cur) != 255
      ensures ok ==> next == FirstFree(OctetSet(used), cur)
    {
      next := cur;
      while next in used
        invariant cur <= next <= 254 && FirstFree(OctetSet(used), next) == FirstFree(OctetSet(used), cur)
        decreases 254 - next
      {
        if next == 254 {
          assert FirstFree(OctetSet(used), 255) == 255;
          return next, false;
        }
        next := next + 1;
      }
      ok := true;
    }

    method AssignHostIDs(dl: UserDeployment, net: IPNet, used: seq<byte>) returns (ok: bool)
      modifies dl`Vms
      ensures Assigned(dl.Vms, ok) == AssignHosts(t, net, OctetSet(used), 2, old(dl.Vms))
    {
      ghost var vms := dl.Vms;
      ghost var all := AssignHosts(t, net, OctetSet(used), 2, vms);
      var usedHosts, cur := used, 2;
      assert vms[0..] == vms;
      for idx := 0 to |dl.Vms|
        invariant |dl.Vms| == |vms| && dl.Vms[idx..] == vms[idx..]
        invariant 2 <= cur <= 254
        invariant Continues(t, net, OctetSet(usedHosts), cur, dl.Vms[..idx], vms[idx..], all)
      {
        ghost var done, left := dl.Vms[..idx], vms[idx..];
        NextElement(dl.Vms, vms, idx, dl.Vms[idx]);
        AssignStep(t, net, OctetSet(usedHosts), cur, done, left, all);
        if !HasAddress(t, net, dl.Vms[idx]) {
          var found;
          cur, found := NextHost(usedHosts, cur);
          if !found { return false; }
          AppendOctet(usedHosts, cur);
          usedHosts := usedHosts + [cur];
          NextElement(dl.Vms, vms, idx, dl.Vms[idx].(ip := HostAddress(t, net, cur)));
          dl.Vms := dl.Vms[idx := dl.Vms[idx].(ip := HostAddress(t, net, cur))];
        } else {
          assert dl.Vms[idx := dl.Vms[idx]] == dl.Vms;
        }
      }
      return true;
    }

    method AssignNodesIPs(dl: UserDeployment) returns (ok: bool)
      requires networks.Valid()
      modifies networks, dl`Vms
      ensures fresh(networks.nets.Values - old(networks.nets.Values))
      ensures networks.Valid() && forall n :: networks.At(n) == old(networks.At(n))
      ensures Assigned(dl.Vms, ok)
           == Addressing(t, old(Subnet(dl.NetworkName, dl.NodeID)),
               UsedOn(old(networks.At(dl.NetworkName)).index, dl.NodeID), old(dl.Vms))
    {
      var network := networks.GetNetwork(dl.NetworkName);
      var ipRange := if dl.NodeID in network.Subnets then network.Subnets[dl.NodeID] else "";
      var usedHosts := network.GetUsedNetworkHostIDs(dl.NodeID);
      if |dl.Vms| == 0 { return true; }
      var net := t.parseCIDR(ipRange);
      if net.None? { return false; }
      usedHosts := UsedHosts(net.value, usedHosts, dl.Vms);
      ok := AssignHostIDs(dl, net.value, usedHosts);
    }

    /** Assigns addresses, then prints the declaration; the machines keep their addresses either way. */
    method GenerateVersionlessDeployments(dl: UserDeployment) returns (r: Option<D.Deployments>)
      requires networks.Valid()
      modifies networks, dl`Vms
      ensures fresh(networks.nets.Values - old(networks.nets.Values))
      ensures networks.Valid() && forall n :: networks.At(n) == old(networks.At(n))
      ensures var a := Addressing(t, old(Subnet(dl.NetworkName, dl.NodeID)),
                                  UsedOn(old(networks.At(dl.NetworkName)).index, dl.NodeID), old(dl.Vms));
              && dl.Vms == a.vms
              && r == if !a.ok || Flatten(t, dl.Declared()).None? then None
                 else Some(Requested(t, dl.NodeID, dl.Declared()))
    {
      var ok := AssignNodesIPs(dl);
      if !ok { return None; }
      var ws := Print(t, dl.Declared());
      r := if ws.None? then None else Some(map[dl.NodeID := NewGridDeployment(ws.value)]);
    }

    // ----- Local state -----

    static function LocalOf(o: UserDeployment): Local
      reads o`NodeDeploymentID, o`ContractID
    {
      Local(o.NodeID, if o.NodeID in o.NodeDeploymentID then Some(o.NodeDeploymentID[o.NodeID]) else None, o.ContractID)
    }

    /** The local state of a set of objects, next to the chain's next contract id. */
    ghost function MemoryOf(objs: set<UserDeployment>): Memory<UserDeployment>
      reads this`CurrentNodeDeployments, objs`NodeDeploymentID, objs`ContractID, deployer.world`grid
    {
      Memory(map o | o in objs :: LocalOf(o), CurrentNodeDeployments, deployer.world.grid.nextID)
    }

    /** Records the contract an object ended up with: on the object, and once in its node's list. */
    method Record(dl: UserDeployment)
      modifies this`CurrentNodeDeployments, dl`ContractID
      ensures LocalOf(dl) == Recorded(old(LocalOf(dl)), LocalOf(dl).owned)
      ensures CurrentNodeDeployments == Listing(old(CurrentNodeDeployments), dl.NodeID, LocalOf(dl).owned)
    {
      if dl.NodeID in dl.NodeDeploymentID && dl.NodeDeploymentID[dl.NodeID] != 0 {
        dl.ContractID := dl.NodeDeploymentID[dl.NodeID];
        var ids := On(CurrentNodeDeployments, dl.NodeID);
        var listed := Contains(ids, dl.ContractID);
        if !listed {
          CurrentNodeDeployments := CurrentNodeDeployments[dl.NodeID := ids + [dl.ContractID]];
        }
      }
    }

    /** Runs the deploy protocol on the object's contracts and records what it ended up with. */
    method RunAndRecord(dl: UserDeployment, news: D.Deployments) returns (outcome: D.Outcome, ghost first: D.FirstRun)
      requires Valid(deployer.world.grid) && Timed(deployer.world.faults)
      modifies this`CurrentNodeDeployments, dl`NodeDeploymentID, dl`ContractID, deployer.world
      ensures Valid(deployer.world.grid)
      ensures D.Grown(old(deployer.world.grid), deployer.world.grid, old(dl.NodeDeploymentID), dl.NodeDeploymentID)
      ensures outcome.Rejected? ==> deployer.world.grid == old(deployer.world.grid)
      ensures outcome.Deployed? ==> first.failed.None? && deployer.world.grid == first.grid
      ensures old(deployer.world.waits) <= deployer.world.waits
      ensures outcome.Deployed? ==>
                D.SeenAll(deployer.lib, deployer.world.Since(|old(deployer.world.waits)|), old(deployer.world.grid),
                          old(dl.NodeDeploymentID), dl.NodeDeploymentID, news)
      ensures !outcome.Rejected? ==>
                && D.Run(deployer.lib, old(deployer.world.grid), first.mid, first.grid, old(dl.NodeDeploymentID), news,
                   first.cur, first.failed)
                && dl.NodeDeploymentID == first.cur
      ensures LocalOf(dl) == Recorded(old(LocalOf(dl)), LocalOf(dl).owned)
      ensures CurrentNodeDeployments == Listing(old(CurrentNodeDeployments), dl.NodeID, LocalOf(dl).owned)
    {
      var batch := new D.Batch(news);
      var cur;
      cur, outcome, first := deployer.Deploy(dl.NodeDeploymentID, batch);
      dl.NodeDeploymentID := cur;
      Record(dl);
    }

    /** The same, seen on all objects: only this one changes, by one step. */
    method RunStep(
        dl: UserDeployment, news: D.Deployments, ghost objs: set<UserDeployment>)
      returns (outcome: D.Outcome)
      requires Valid(deployer.world.grid) && Timed(deployer.world.faults) && dl in objs
      modifies this`CurrentNodeDeployments, dl`NodeDeploymentID, dl`ContractID, deployer.world
      ensures Valid(deployer.world.grid)
      ensures DeployStep(old(MemoryOf(objs)), MemoryOf(objs), dl)
      ensures old(deployer.world.waits) <= deployer.world.waits
      ensures outcome.Deployed? ==>
                D.SeenAll(deployer.lib, deployer.world.Since(|old(deployer.world.waits)|), old(deployer.world.grid),
                          old(dl.NodeDeploymentID), dl.NodeDeploymentID, news)
      ensures outcome.Deployed? && D.Faithful(deployer.lib) ==>
                forall n :: n in news ==> D.Holds(deployer.world.grid, dl.NodeDeploymentID, n, news[n].workloads)
    {
      ghost var g, olds, before := deployer.world.grid, dl.NodeDeploymentID, MemoryOf(objs);
      ghost var first;
      outcome, first := RunAndRecord(dl, news);
      if outcome.Deployed? && D.Faithful(deployer.lib) {
        forall n | n in news ensures D.Holds(deployer.world.grid, dl.NodeDeploymentID, n, news[n].workloads) {
          D.SuccessHolds(deployer.lib, g, first.mid, first.grid, olds, news, first.cur, n);
        }
      }
      IsDeployStep(before, MemoryOf(objs), dl);
    }

    /** Generation only touches the machines' addresses; the local state stays. */
    method GenerateStep(dl: UserDeployment, ghost objs: set<UserDeployment>) returns (r: Option<D.Deployments>)
      requires networks.Valid()
      modifies networks, dl`Vms
      ensures fresh(networks.nets.Values - old(networks.nets.Values))
      ensures networks.Valid() && MemoryOf(objs) == old(MemoryOf(objs)) &&
              forall n :: networks.At(n) == old(networks.At(n))
      ensures var a := Addressing(t, old(Subnet(dl.NetworkName, dl.NodeID)),
                                  UsedOn(old(networks.At(dl.NetworkName)).index, dl.NodeID), old(dl.Vms));
              dl.Vms == a.vms && (r.Some? ==> a.ok)
      ensures r.Some? ==> Flatten(t, dl.Declared()).Some? && r.value == Requested(t, dl.NodeID, dl.Declared())
    {
      r := GenerateVersionlessDeployments(dl);
    }

    /**
     * If the object's node was written to, a wait for what it was sent ended on a full poll. The waits are
     * those after the first `n`, the grid and the contracts those before.
     */
    ghost predicate SeenDeclared(dl: UserDeployment, n: nat, g: GridWorld.Grid, olds: D.Contracts)
      reads dl`Disks, dl`Zdbs, dl`Vms, dl`QSFS, dl`NodeDeploymentID, deployer.world`waits
    {
      && n <= |deployer.world.waits| && Flatten(t, dl.Declared()).Some?
      && D.SeenAll(deployer.lib, deployer.world.Since(n), g, olds, dl.NodeDeploymentID,
         Requested(t, dl.NodeID, dl.Declared()))
    }

    /** Deploys what the declaration asks for: what its node then holds, and which waits showed it. */
    method DeployRequested(
        dl: UserDeployment, ghost objs: set<UserDeployment>, news: D.Deployments)
      returns (outcome: D.Outcome)
      requires Valid(deployer.world.grid) && Timed(deployer.world.faults) && dl in objs
      requires Flatten(t, dl.Declared()).Some? && news == Requested(t, dl.NodeID, dl.Declared())
      modifies this`CurrentNodeDeployments, dl`NodeDeploymentID, dl`ContractID, deployer.world
      ensures Valid(deployer.world.grid)
      ensures DeployStep(old(MemoryOf(objs)), MemoryOf(objs), dl)
      ensures old(deployer.world.waits) <= deployer.world.waits
      ensures outcome.Deployed? ==>
                SeenDeclared(dl, |old(deployer.world.waits)|, old(deployer.world.grid), old(dl.NodeDeploymentID))
      ensures outcome.Deployed? && D.Faithful(deployer.lib) ==>
                HoldsDeclared(t, deployer.world.grid, dl.NodeDeploymentID, dl.NodeID, dl.Declared())
      ensures networks.nets == old(networks.nets) && forall n :: networks.At(n) == old(networks.At(n))
    {
      ghost var d := dl.Declared();
      outcome := RunStep(dl, news, objs);
      assert dl.Declared() == d;
      if outcome.Deployed? && D.Faithful(deployer.lib) {
        assert D.Holds(deployer.world.grid, dl.NodeDeploymentID, dl.NodeID, news[dl.NodeID].workloads);
      }
    }

    /** Generates and deploys a declaration that is valid. */
    method DeployValid(dl: UserDeployment, ghost objs: set<UserDeployment>) returns (r: DeployResult)
      requires Valid(deployer.world.grid) && Timed(deployer.world.faults) && networks.Valid() && dl in objs
      modifies this`CurrentNodeDeployments, dl`Vms, dl`NodeDeploymentID, dl`ContractID, networks, deployer.world
      ensures fresh(networks.nets.Values - old(networks.nets.Values))
      ensures networks.Valid() && forall n :: networks.At(n) == old(networks.At(n))
      ensures Valid(deployer.world.grid) && old(deployer.world.waits) <= deployer.world.waits && !r.Invalid?
      ensures if r.Ran? then DeployStep(old(MemoryOf(objs)), MemoryOf(objs), dl)
              else MemoryOf(objs) == old(MemoryOf(objs))
      ensures var a := Addressing(t, old(Subnet(dl.NetworkName, dl.NodeID)),
                                  UsedOn(old(networks.At(dl.NetworkName)).index, dl.NodeID), old(dl.Vms));
              dl.Vms == a.vms && (r.Ran? ==> a.ok)
      ensures r.Ran? && r.outcome.Deployed? && D.Faithful(deployer.lib) ==>
                HoldsDeclared(t, deployer.world.grid, dl.NodeDeploymentID, dl.NodeID, dl.Declared())
      ensures r == Ran(D.Deployed) ==>
                SeenDeclared(dl, |old(deployer.world.waits)|, old(deployer.world.grid), old(dl.NodeDeploymentID))
      ensures !r.Ran? ==>
              deployer.world.grid == old(deployer.world.grid) && dl.NodeDeploymentID == old(dl.NodeDeploymentID)
    {
      var news := GenerateStep(dl, objs);
      if news.None? { return NotGenerated; }
      var outcome := DeployRequested(dl, objs, news.value);
      r := Ran(outcome);
    }

    method Deploy(dl: UserDeployment, balance: bool, ghost objs: set<UserDeployment>) returns (r: DeployResult)
      requires Valid(deployer.world.grid) && Timed(deployer.world.faults) && networks.Valid()
      requires dl in objs
      modifies this`CurrentNodeDeployments, dl`Vms, dl`NodeDeploymentID, dl`ContractID, networks, deployer.world
      ensures fresh(networks.nets.Values - old(networks.nets.Values))
      ensures Valid(deployer.world.grid) && networks.Valid() && old(deployer.world.waits) <= deployer.world.waits
      ensures if r.Ran? then DeployStep(old(MemoryOf(objs)), MemoryOf(objs), dl)
              else IdleStep(old(MemoryOf(objs)), MemoryOf(objs), dl)
      ensures forall n :: networks.At(n) == old(networks.At(n))
      ensures r.Invalid? <==> !(balance && ValidDeclaration(checksum, dl.NetworkName, old(dl.Vms)))
      ensures !r.Invalid? ==>
                var a := Addressing(t, old(Subnet(dl.NetworkName, dl.NodeID)),
                                    UsedOn(old(networks.At(dl.NetworkName)).index, dl.NodeID), old(dl.Vms));
                dl.Vms == a.vms && (r.Ran? ==> a.ok)
      ensures r.Ran? && r.outcome.Deployed? && D.Faithful(deployer.lib) ==>
                HoldsDeclared(t, deployer.world.grid, dl.NodeDeploymentID, dl.NodeID, dl.Declared())
      ensures r == Ran(D.Deployed) ==>
                SeenDeclared(dl, |old(deployer.world.waits)|, old(deployer.world.grid), old(dl.NodeDeploymentID))
      ensures !r.Ran? ==>
              deployer.world.grid == old(deployer.world.grid) && dl.NodeDeploymentID == old(dl.NodeDeploymentID)
    {
      var valid := ValidateVMs(checksum, dl.NetworkName, dl.Vms);
      if !balance || !valid { return Invalid; }
      r := DeployValid(dl, objs);
    }

    // ----- Cancelling -----

    /** Deletes a contract from its node's list, shifting the rest of the list in place. */
    method Unlist(node: NodeId, id: ContractId)
      modifies this`CurrentNodeDeployments
      ensures CurrentNodeDeployments ==
              old(CurrentNodeDeployments)[node := RemoveFirst(On(old(CurrentNodeDeployments), node), id)]
    {
      var ids := On(CurrentNodeDeployments, node);
      var a := new ContractId[|ids|](i requires 0 <= i < |ids| => ids[i]);
      assert a[..|ids|] == ids;
      var m := Delete(a, |ids|, id);
      CurrentNodeDeployments := CurrentNodeDeployments[node := a[..m]];
    }

    method Cancel(dl: UserDeployment, balance: bool, ghost objs: set<UserDeployment>) returns (ok: bool)
      requires Valid(deployer.world.grid) && dl in objs
      modifies this`CurrentNodeDeployments, dl`NodeDeploymentID, dl`ContractID, deployer.world
      ensures Valid(deployer.world.grid)
      ensures if ok then CancelStep(old(MemoryOf(objs)), MemoryOf(objs), dl) else MemoryOf(objs) == old(MemoryOf(objs))
      ensures ok ==> dl.NodeID !in dl.NodeDeploymentID && dl.ContractID == 0
      ensures ok && Agrees(old(MemoryOf(objs))) ==> old(dl.ContractID) !in On(CurrentNodeDeployments, dl.NodeID)
      ensures deployer.world.grid.live ==
              if ok && old(dl.ContractID) != 0 then old(deployer.world.grid).live - {old(dl.ContractID)}
                  else old(deployer.world.grid).live
    {
      var valid := ValidateVMs(checksum, dl.NetworkName, dl.Vms);
      if !balance || !valid { return false; }
      ghost var before := MemoryOf(objs);
      ok := deployer.Cancel(dl.NodeID, dl.ContractID);
      if !ok { return; }
      dl.NodeDeploymentID := dl.NodeDeploymentID - {dl.NodeID};
      Unlist(dl.NodeID, dl.ContractID);
      dl.ContractID := 0;
      IsCancelStep(before, MemoryOf(objs), dl);
      if Agrees(before) { CancelKeeps(before, MemoryOf(objs), dl); }
    }

    // ----- Synchronising -----

    /** Forgets the contract when the chain no longer has it. */
    method SyncContract(dl: UserDeployment) returns (ok: bool)
      modifies dl`ContractID, deployer.world`clock
      ensures dl.ContractID == old(dl.ContractID)
           || (ok && dl.ContractID == 0 && old(dl.ContractID) !in deployer.world.grid.live)
      ensures ok && dl.ContractID != 0 ==> dl.ContractID in deployer.world.grid.live
    {
      if dl.ContractID == 0 { return true; }
      var valid := deployer.world.IsValidContract(dl.ContractID);
      if valid.None? { return false; }
      if !valid.value { dl.ContractID := 0; }
      ok := true;
    }

    /** Sorts what was read to the declared order and stores it on the object. */
    method MatchAndStore(dl: UserDeployment, ghost ws: seq<Workload>, r: Declaration) returns (ghost sorted: seq<VM>)
      requires r == ReadAll(t, ws, ws)
      modifies dl`Disks, dl`Zdbs, dl`Vms, dl`QSFS
      ensures Matched(t, old(dl.Declared()), ws, dl.Declared(), sorted)
      ensures RestoresDeclared(t, old(dl.Declared()), ws, dl.Declared())
    {
      var got;
      got, sorted := MatchRead(t, dl.Declared(), ws, r);
      ShowsRestored(t, dl.Declared(), ws, got, sorted);
      dl.Disks, dl.QSFS, dl.Zdbs, dl.Vms := got.disks, got.qsfs, got.zdbs, got.vms;
      assert dl.Declared() == got;
    }

    /** Drops the recorded host ids of a contract, or replaces them. */
    method ForgetHostIDs(name: string, node: NodeId, id: ContractId)
      requires networks.Valid()
      modifies networks, networks.nets.Values
      ensures networks.Valid() && fresh(networks.nets.Values - old(networks.nets.Values))
      ensures networks.At(name) ==
              View(old(networks.At(name)).subnets, WithoutIDs(old(networks.At(name)).index, node, id))
      ensures forall n :: n != name ==> networks.At(n) == old(networks.At(n))
    {
      var network := networks.GetNetwork(name);
      network.DeleteDeploymentHostIDs(node, id);
    }

    method RecordHostIDs(name: string, node: NodeId, id: ContractId, ids: seq<byte>)
      requires networks.Valid()
      modifies networks, networks.nets.Values
      ensures networks.Valid()
      ensures networks.At(name) ==
              View(old(networks.At(name)).subnets, WithIDs(old(networks.At(name)).index, node, id, ids))
      ensures forall n :: n != name ==> networks.At(n) == old(networks.At(n))
    {
      var network := networks.GetNetwork(name);
      network.SetDeploymentHostIDs(node, id, ids);
    }

    /** Reads what the node holds, and replaces the contract's host ids by those in use there. */
    method ReadAndRecord(name: string, node: NodeId, id: ContractId, ws: seq<Workload>)
      returns (read: Declaration, ok: bool)
      requires networks.Valid()
      modifies networks, networks.nets.Values
      ensures networks.Valid()
      ensures forall n :: n != name ==> networks.At(n) == old(networks.At(n))
      ensures networks.At(name) == AfterSync(t, old(networks.At(name)), node, id, ws)
      ensures ok <==> HostIDsIn(t, ws).Some?
      ensures ok ==> read == ReadAll(t, ws, ws)
    {
      ForgetHostIDs(name, node, id);
      var usedIPs;
      read, usedIPs := ReadWorkloads(t, ws);
      if usedIPs.None? { return read, false; }
      RecordHostIDs(name, node, id, usedIPs.value);
      ok := true;
    }

    /** Replaces the declaration by what the node holds. */
    method Load(dl: UserDeployment, ws: seq<Workload>) returns (ok: bool, ghost sorted: seq<VM>)
      requires networks.Valid()
      modifies networks, networks.nets.Values, dl`Disks, dl`Zdbs, dl`Vms, dl`QSFS
      ensures networks.Valid()
      ensures forall n :: n != dl.NetworkName ==> networks.At(n) == old(networks.At(n))
      ensures networks.At(dl.NetworkName) ==
              AfterSync(t, old(networks.At(dl.NetworkName)), dl.NodeID, dl.ContractID, ws)
      ensures ok <==> HostIDsIn(t, ws).Some?
      ensures !ok ==> dl.Declared() == old(dl.Declared())
      ensures ok ==> Matched(t, old(dl.Declared()), ws, dl.Declared(), sorted)
      ensures ok ==> RestoresDeclared(t, old(dl.Declared()), ws, dl.Declared())
    {
      sorted := [];
      var read;
      read, ok := ReadAndRecord(dl.NetworkName, dl.NodeID, dl.ContractID, ws);
      ghost var v := networks.At(dl.NetworkName);
      assert dl.Declared() == old(dl.Declared());
      if ok {
        sorted := MatchAndStore(dl, ws, read);
        assert networks.At(dl.NetworkName) == v;
      }
    }

    /** The workloads the node holds for the object; none when it tracks no contract there. */
    ghost function Remote(dl: UserDeployment): seq<Workload>
      reads dl`NodeDeploymentID, deployer.world`grid
    {
      var cur, store := dl.NodeDeploymentID, deployer.world.grid.store;
      if dl.NodeID in cur && (dl.NodeID, cur[dl.NodeID]) in store then store[(dl.NodeID, cur[dl.NodeID])].workloads
          else []
    }

    /** Checks the contract and fetches the object's workloads; an object without a contract is cleared and done. */
    method FetchRemote(dl: UserDeployment) returns (early: Option<SyncResult>, ws: seq<Workload>)
      requires networks.Valid()
      modifies dl`Disks, dl`Zdbs, dl`Vms, dl`QSFS, dl`ContractID, deployer.world`clock
      ensures networks.Valid() && forall n :: networks.At(n) == old(networks.At(n))
      ensures dl.ContractID == old(dl.ContractID) ||
              (dl.ContractID == 0 && old(dl.ContractID) !in deployer.world.grid.live)
      ensures early.None? ==> dl.ContractID != 0 && dl.ContractID in deployer.world.grid.live && ws == Remote(dl)
      ensures early.Some? ==> early.value.ContractUnknown? || early.value.NotFetched? || early.value.Nullified?
      ensures if early == Some(Nullified) then dl.ContractID == 0 && dl.Declared() == Declaration([], [], [], [])
              else dl.Declared() == old(dl.Declared())
    {
      ws := [];
      var ok := SyncContract(dl);
      if !ok { return Some(ContractUnknown), ws; }
      var fetched := deployer.GetDeployments(dl.NodeDeploymentID);
      if fetched.None? { return Some(SyncResult.NotFetched), ws; }
      if dl.NodeID in fetched.value { ws := fetched.value[dl.NodeID].workloads; }
      if dl.ContractID == 0 {
        dl.Nullify();
        return Some(Nullified), ws;
      }
      early := None;
    }

    /**
     * Synchronising: an object without a live contract is cleared; otherwise its declaration becomes
     * what the node holds, in declared order, and only its own host ids change. After a deployment
     * answered in any order this gives the declaration back.
     */
    method Sync(dl: UserDeployment) returns (r: SyncResult, ghost sorted: seq<VM>)
      requires networks.Valid()
      modifies networks, networks.nets.Values, deployer.world`clock
      modifies dl`Disks, dl`Zdbs, dl`Vms, dl`QSFS, dl`ContractID
      ensures networks.Valid()
      ensures dl.ContractID == old(dl.ContractID) ||
              (dl.ContractID == 0 && old(dl.ContractID) !in deployer.world.grid.live)
      ensures forall n :: n != dl.NetworkName || !(r.Synced? || r.Panicked?) ==> networks.At(n) == old(networks.At(n))
      ensures r.Nullified? ==> dl.ContractID == 0 && dl.Declared() == Declaration([], [], [], [])
      ensures r.ContractUnknown? || r.NotFetched? || r.Panicked? ==> dl.Declared() == old(dl.Declared())
      ensures r.Synced? || r.Panicked? ==>
                && dl.ContractID != 0 && dl.ContractID in deployer.world.grid.live
                && networks.At(dl.NetworkName) ==
                   AfterSync(t, old(networks.At(dl.NetworkName)), dl.NodeID, dl.ContractID, Remote(dl))
                && (r.Synced? <==> HostIDsIn(t, Remote(dl)).Some?)
      ensures r.Synced? ==>
                && Matched(t, old(dl.Declared()), Remote(dl), dl.Declared(), sorted)
                && RestoresDeclared(t, old(dl.Declared()), Remote(dl), dl.Declared())
    {
      sorted := [];
      var early, ws := FetchRemote(dl);
      if early.Some? { return early.value, sorted; }
      var ok;
      ok, sorted := Load(dl, ws);
      assert Remote(dl) == ws;
      r := if ok then Synced else Panicked;
    }
  }
}
