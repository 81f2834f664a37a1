/** Deploying a declaration, letting the node answer it, and synchronising. */
module Lifecycle {
  import opened Wrappers
  import opened Addresses
  import opened GridTypes
  import opened Workloads
  import opened Collecting
  import opened Matching
  import opened ReadBack
  import opened Restoring
  import opened NetworkState
  import opened GridWorld
  import opened DeploymentDeployer

  /** What a node makes of the workloads it holds: any results, in any order, but the same requests. */
  ghost predicate Behaves(node: seq<Workload> -> seq<Workload>) {
    forall ws :: multiset(WithoutResults(node(ws))) == multiset(WithoutResults(ws))
  }

  /** `returned` is what a node gives back that deployed everything: its answer to each workload, in any order. */
  ghost predicate DeployedAll(stored: seq<Workload>, answer: Answer, returned: seq<Workload>) {
    AnsweredBy(stored, answer) && multiset(returned) == multiset(Via(stored, answer))
  }

  const BARE := (w: Workload) => Some(w.(result := PENDING))

  lemma {:induction false} BareIsCollected(ws: seq<Workload>)
    ensures Collect(ws, BARE) == WithoutResults(ws)
    decreases |ws|
  {
    if ws != [] {
      var init := ws[..|ws| - 1];
      BareIsCollected(init);
      assert WithoutResults(ws) == WithoutResults(init) + [ws[|ws| - 1].(result := PENDING)];
    }
  }

  /** Deploying everything and returning it in any order is one of the things a node may do. */
  lemma DeployedAllIsAnswer(stored: seq<Workload>, answer: Answer, returned: seq<Workload>)
    requires DeployedAll(stored, answer, returned)
    requires forall w :: w in stored ==> answer[w.name] == w.(result := answer[w.name].result)
    ensures multiset(WithoutResults(returned)) == multiset(WithoutResults(stored))
  {
    CollectPermutes(returned, Via(stored, answer), BARE);
    BareIsCollected(returned);
    BareIsCollected(Via(stored, answer));
    forall i | 0 <= i < |stored| ensures WithoutResults(Via(stored, answer))[i] == WithoutResults(stored)[i] {
      assert stored[i] in stored;
    }
    assert WithoutResults(Via(stored, answer)) == WithoutResults(stored);
  }

  /** Whatever a node may give back that deployed everything, there is a node that does. */
  lemma AnyAnswerHasANode(stored: seq<Workload>, answer: Answer, returned: seq<Workload>)
    returns (node: seq<Workload> -> seq<Workload>)
    requires DeployedAll(stored, answer, returned)
    requires forall w :: w in stored ==> answer[w.name] == w.(result := answer[w.name].result)
    ensures Behaves(node) && node(stored) == returned
  {
    node := (ws: seq<Workload>) => if ws == stored then returned else ws;
    DeployedAllIsAnswer(stored, answer, returned);
  }

  /** A result a node can report for that data. */
  function Fitting(data: WorkloadData): ResultData {
    match data
    case ZMachine(_, _, _, _, planetary, _, _, _, _, _, _, _) => MachineResult(if planetary then "::" else "")
    case ZDB(_, _, _, _) => ZDBResult("", [], 0)
    case PublicIP(v4, v6) => PublicIPResult(if v4 then Some("") else None, if v6 then Some("") else None)
    case QuantumSafeFS(_, _) => QSFSResult("")
    case _ => NoResult
  }

  function Finished(w: Workload): Workload {
    w.(result := Status(StateOk, Fitting(w.data)))
  }

  /** The answers of a node that finishes everything it stores. */
  function AllFinished(ws: seq<Workload>): Answer {
    if ws == [] then map[] else AllFinished(ws[..|ws| - 1])[ws[|ws| - 1].name := Finished(ws[|ws| - 1])]
  }

  lemma {:induction false} AllFinishedAnswers(ws: seq<Workload>, w: Workload)
    requires UniqueNames(ws) && w in ws
    ensures w.name in AllFinished(ws) && AllFinished(ws)[w.name] == Finished(w)
    decreases |ws|
  {
    var init, last := ws[..|ws| - 1], ws[|ws| - 1];
    assert ws == init + [last];
    if w != last {
      AllFinishedAnswers(init, w);
      var i :| 0 <= i < |init| && init[i] == w;
      assert ws[i].name != ws[|ws| - 1].name;
    }
  }

  /**
   * Under distinct names a node that behaves can deploy everything it stores, and return it in any order:
   * the premise of the round trip can always be met.
   */
  lemma EveryOrderIsPossible(stored: seq<Workload>, returned: seq<Workload>)
    returns (node: seq<Workload> -> seq<Workload>)
    requires UniqueNames(stored) && forall w :: w in stored ==> w.name != ""
    requires multiset(returned) == multiset(Via(stored, AllFinished(stored)))
    ensures Behaves(node) && node(stored) == returned && DeployedAll(stored, AllFinished(stored), node(stored))
  {
    forall w | w in stored ensures w.name in AllFinished(stored) && AllFinished(stored)[w.name] == Finished(w) {
      AllFinishedAnswers(stored, w);
    }
    node := AnyAnswerHasANode(stored, AllFinished(stored), returned);
  }

  lemma ContentsFields(ws: seq<Workload>, us: seq<Workload>, i: nat)
    requires D.Contents(ws) == D.Contents(us) && i < |ws|
    ensures i < |us| && us[i].name == ws[i].name && us[i].description == ws[i].description && us[i].data == ws[i].data
  {
    assert |D.Contents(ws)| == |D.Contents(us)|;
    assert D.Contents(ws)[i] == D.Contents(us)[i];
  }

  /** A node's full answer to what it stores is one to the flattened declaration it was sent. */
  lemma StoredIsReturned(t: Texts, d: Declaration, stored: seq<Workload>, answer: Answer, returned: seq<Workload>)
    requires Flatten(t, d).Some? && D.Contents(stored) == D.Contents(Flatten(t, d).value)
    requires DeployedAll(stored, answer, returned)
    ensures Returned(t, d, answer, returned)
  {
    var flat := Flatten(t, d).value;
    assert |D.Contents(stored)| == |D.Contents(flat)|;
    forall i | 0 <= i < |flat|
      ensures stored[i].name == flat[i].name && flat[i].name != "" && flat[i].name in answer &&
              Answers(flat[i], answer[flat[i].name])
    {
      ContentsFields(flat, stored, i);
      assert stored[i] in stored;
    }
    forall w | w in flat ensures w.name != "" && w.name in answer && Answers(w, answer[w.name]) {
      var i :| 0 <= i < |flat| && flat[i] == w;
    }
    assert Via(stored, answer) == Via(flat, answer);
  }

  /** If the declaration can be restored and the node deployed all of it, the object holds it again. */
  ghost predicate RestoresSent(
      t: Texts, d: Declaration, stored: seq<Workload>, returned: seq<Workload>, got: Declaration)
  {
    Restorable(t, d) ==>
        forall answer :: DeployedAll(stored, answer, returned) ==> got == ObservedDeclaration(answer, d)
  }

  lemma Restored(t: Texts, d: Declaration, stored: seq<Workload>, returned: seq<Workload>, got: Declaration)
    requires Flatten(t, d).Some? && D.Contents(stored) == D.Contents(Flatten(t, d).value)
    requires RestoresDeclared(t, d, returned, got)
    ensures RestoresSent(t, d, stored, returned, got)
  {
    forall answer | Restorable(t, d) && DeployedAll(stored, answer, returned)
      ensures got == ObservedDeclaration(answer, d) {
      StoredIsReturned(t, d, stored, answer, returned);
    }
  }

  /** The declaration with the addresses a deployment assigns. */
  ghost function Addressed(p: DeploymentDeployer, dl: UserDeployment): Declaration
    reads dl, p.networks, p.networks.nets.Values
  {
    var used := UsedOn(p.networks.At(dl.NetworkName).index, dl.NodeID);
    Declaration(dl.Disks, dl.Zdbs, Addressing(p.t, p.Subnet(dl.NetworkName, dl.NodeID), used, dl.Vms).vms, dl.QSFS)
  }

  /** The workloads the object's node holds for it, if any. */
  ghost predicate IsHeld(g: Grid, dl: UserDeployment, ws: seq<Workload>)
    reads dl`NodeDeploymentID
  {
    && dl.NodeID in dl.NodeDeploymentID && (dl.NodeID, dl.NodeDeploymentID[dl.NodeID]) in g.store
    && g.store[(dl.NodeID, dl.NodeDeploymentID[dl.NodeID])].workloads == ws
  }

  /** The node deploys what it holds for the object, if it holds anything. */
  method Answer(world: World, dl: UserDeployment, node: seq<Workload> -> seq<Workload>, ghost held: seq<Workload>)
    requires Valid(world.grid) && Behaves(node)
    modifies world`grid
    ensures Valid(world.grid)
    ensures IsHeld(old(world.grid), dl, held) ==> IsHeld(world.grid, dl, node(held))
  {
    if dl.NodeID in dl.NodeDeploymentID && (dl.NodeID, dl.NodeDeploymentID[dl.NodeID]) in world.grid.store {
      var id := dl.NodeDeploymentID[dl.NodeID];
      world.NodeAnswers(dl.NodeID, id, node(world.grid.store[(dl.NodeID, id)].workloads));
    }
  }

  /** What the object's node was sent and now returns, after a successful deployment. */
  ghost predicate Provisioned(
      p: DeploymentDeployer, dl: UserDeployment, declared: Declaration, stored: seq<Workload>, returned: seq<Workload>)
    reads dl, p.deployer.world
  {
    && dl.Declared() == declared && IsHeld(p.deployer.world.grid, dl, returned)
    && Flatten(p.t, declared).Some? && D.Contents(stored) == D.Contents(Flatten(p.t, declared).value)
  }

  /** After a successful deployment the node holds what it was sent. */
  method DeployHeld(p: DeploymentDeployer, dl: UserDeployment, balance: bool, ghost objs: set<UserDeployment>)
    returns (deployed: DeployResult, ghost sent: seq<Workload>)
    requires Valid(p.deployer.world.grid) && Timed(p.deployer.world.faults) && p.networks.Valid() && dl in objs
    modifies p`CurrentNodeDeployments, dl`Vms, dl`NodeDeploymentID, dl`ContractID, p.networks, p.deployer.world
    ensures Valid(p.deployer.world.grid) && p.networks.Valid() &&
            fresh(p.networks.nets.Values - old(p.networks.nets.Values))
    ensures deployed == Ran(D.Deployed) && D.Faithful(p.deployer.lib) ==>
            Provisioned(p, dl, old(Addressed(p, dl)), sent, sent)
  {
    ghost var declared := Addressed(p, dl);
    deployed := p.Deploy(dl, balance, objs);
    sent := [];
    if deployed == Ran(D.Deployed) && D.Faithful(p.deployer.lib) {
      ghost var cur, g := dl.NodeDeploymentID, p.deployer.world.grid;
      assert dl.Declared() == declared;
      assert HoldsDeclared(p.t, g, cur, dl.NodeID, declared);
      sent := g.store[(dl.NodeID, cur[dl.NodeID])].workloads;
    }
  }

  /** Synchronising after the node has answered. */
  method SyncAnswered(
      p: DeploymentDeployer, dl: UserDeployment, ghost declared: Declaration, ghost stored: seq<Workload>,
      ghost returned: seq<Workload>)
    returns (synced: SyncResult)
    requires p.networks.Valid()
    modifies p.networks, p.networks.nets.Values, p.deployer.world`clock
    modifies dl`Disks, dl`Zdbs, dl`Vms, dl`QSFS, dl`ContractID
    ensures old(Provisioned(p, dl, declared, stored, returned)) && synced.Synced? ==>
              RestoresSent(p.t, declared, stored, returned, dl.Declared())
  {
    ghost var sorted, provisioned := [], Provisioned(p, dl, declared, stored, returned);
    ghost var remote, d := p.Remote(dl), dl.Declared();
    assert provisioned ==> remote == returned && d == declared;
    synced, sorted := p.Sync(dl);
    assert p.Remote(dl) == remote;
    if provisioned && synced.Synced? { Restored(p.t, declared, stored, returned, dl.Declared()); }
  }

  /**
   * The life of a declaration: it is deployed, the node deploys what it was sent and returns it in any
   * order, and it is synchronised. When all three succeed the object holds its declaration again, with
   * the addresses assigned to its machines and everything the node computed.
   */
  method DeployThenSync(
      p: DeploymentDeployer, dl: UserDeployment, balance: bool, node: seq<Workload> -> seq<Workload>,
      ghost objs: set<UserDeployment>)
    returns (deployed: DeployResult, synced: SyncResult, ghost stored: seq<Workload>)
    requires Valid(p.deployer.world.grid) && Timed(p.deployer.world.faults) && p.networks.Valid()
    requires dl in objs && Behaves(node)
    modifies p, dl, p.networks, p.networks.nets.Values, p.deployer.world
    ensures deployed == Ran(D.Deployed) && synced.Synced? && D.Faithful(p.deployer.lib) ==>
              RestoresSent(p.t, old(Addressed(p, dl)), stored, node(stored), dl.Declared())
  {
    ghost var declared := Addressed(p, dl);
    deployed, stored := DeployHeld(p, dl, balance, objs);
    ghost var held := Provisioned(p, dl, declared, stored, stored);
    Answer(p.deployer.world, dl, node, stored);
    assert held ==> Provisioned(p, dl, declared, stored, node(stored));
    synced := SyncAnswered(p, dl, declared, stored, node(stored));
  }

  // ----- Two deployments on one node -----

  /** Addressing over a known subnet is the assignment of host ids. */
  lemma AddressingAssigns(t: Texts, subnet: string, net: IPNet, used: set<byte>, vms: seq<VM>)
    requires t.parseCIDR(subnet) == Some(net)
    ensures Addressing(t, subnet, used, vms) == AssignHosts(t, net, used + Presets(t, net, vms), 2, vms)
  {
  }

  /**
   * Two objects on one node and network are deployed with no synchronisation in between. They share a
   * host id exactly when each has a machine without address.
   */
  method DeployBoth(
      p: DeploymentDeployer, a: UserDeployment, b: UserDeployment, balance: bool, ghost net: IPNet,
      ghost objs: set<UserDeployment>)
    returns (r: DeployResult, q: DeployResult)
    requires Valid(p.deployer.world.grid) && Timed(p.deployer.world.faults) && p.networks.Valid()
    requires a in objs && b in objs && a != b && a.NetworkName == b.NetworkName && a.NodeID == b.NodeID
    requires Lawful(p.t) && net.ones == 24 && p.t.parseCIDR(p.Subnet(a.NetworkName, a.NodeID)) == Some(net)
    modifies p, a, b, p.networks, p.deployer.world
    ensures r.Ran? && q.Ran? ==>
              (SharedHost(p.t, net, old(a.Vms), a.Vms, old(b.Vms), b.Vms)
               <==> Needy(p.t, net, old(a.Vms)) > 0 && Needy(p.t, net, old(b.Vms)) > 0)
  {
    ghost var subnet, used := p.Subnet(a.NetworkName, a.NodeID), UsedOn(p.networks.At(a.NetworkName).index, a.NodeID);
    ghost var first, second := a.Vms, b.Vms;
    r := p.Deploy(a, balance, objs);
    assert p.Subnet(b.NetworkName, b.NodeID) == subnet && UsedOn(p.networks.At(b.NetworkName).index, b.NodeID) == used;
    ghost var placed := a.Vms;
    q := p.Deploy(b, balance, objs);
    assert a.Vms == placed;
    if r.Ran? && q.Ran? {
      AddressingAssigns(p.t, subnet, net, used, first);
      AddressingAssigns(p.t, subnet, net, used, second);
      SuccessiveAssignmentsClash(p.t, net, used, first, second);
    }
  }
}
