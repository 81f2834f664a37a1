/** Updating a Kubernetes cluster from the grid: drop deleted contracts, fetch, rebuild. */
module K8sDeployer {
  import opened Wrappers
  import opened GridTypes
  import opened Slices
  import opened Cluster
  import opened ClusterRebuild
  import D = Deployer
  import W = GridWorld

  /** Whether a contract is deleted, as the chain says; None when it cannot be asked. */
  type ContractStates = ContractId -> Option<bool>

  predicate AllKnown(deleted: ContractStates, ids: map<NodeId, ContractId>) {
    forall n :: n in ids ==> deleted(ids[n]).Some?
  }

  function Remaining(deleted: ContractStates, ids: map<NodeId, ContractId>): map<NodeId, ContractId> {
    map n | n in ids && deleted(ids[n]) != Some(true) :: ids[n]
  }

  /** Drops the contracts the chain knows as deleted; nothing when one cannot be looked up. */
  method RemoveDeletedContracts(deleted: ContractStates, c: K8sCluster) returns (ok: bool)
    modifies c`NodeDeploymentID
    ensures ok <==> AllKnown(deleted, old(c.NodeDeploymentID))
    ensures c.NodeDeploymentID == if ok then Remaining(deleted, old(c.NodeDeploymentID)) else old(c.NodeDeploymentID)
  {
    var ids := c.NodeDeploymentID;
    var remaining: map<NodeId, ContractId> := map[];
    var nodes := ids.Keys;
    while nodes != {}
      invariant nodes <= ids.Keys
      invariant forall n :: n in ids && n !in nodes ==> deleted(ids[n]).Some?
      invariant remaining == map n | n in ids && n !in nodes && deleted(ids[n]) != Some(true) :: ids[n]
      decreases nodes
    {
      var node :| node in nodes;
      var state := deleted(ids[node]);
      if state.None? { return false; }
      if !state.value { remaining := remaining[node := ids[node]]; }
      nodes := nodes - {node};
    }
    c.NodeDeploymentID := remaining;
    return true;
  }

  datatype UpdateResult = NotAsked | NotFetched | Fetched(outcome: Outcome)

  lemma ContractsAreHeld(g: W.Grid, contracts: D.Contracts)
    requires W.Valid(g) && D.Held(g.store, contracts).Keys == contracts.Keys
    ensures ContractsOf(D.Held(g.store, contracts)) == contracts
  {
    var held := D.Held(g.store, contracts);
    forall n | n in contracts ensures n in held && held[n].contractID == contracts[n] {
      assert (n, contracts[n]) in g.store;
    }
  }

  /** The cluster's machines are exactly those of the nodes, each once unless the master is declared as a worker too. */
  ghost predicate IsRebuilt(o: Outside, log: seq<Entry>, master: K8sNode, declared: seq<string>, c: K8sCluster)
    reads c
  {
    && c.Master.Some? && c.Master.value.name == master.name
    && AllRemote(o, log, [c.Master.value] + c.Workers) && AllPresent(o, log, [c.Master.value] + c.Workers)
    && Surviving(declared, Index(log, ZMachineType).Keys) <= NamesOf(c.Workers)
    && (Distinct(NamesOf([c.Master.value] + c.Workers)) <==> master.name !in declared)
  }

  /**
   * The update from the grid. The tracked contracts are afterwards those not deleted, whatever else
   * fails, unless the chain could not be asked. A rebuild succeeds exactly when everything the nodes hold
   * parses and builds; if workload names are unique there and the master still is, the cluster then is
   * what the nodes hold.
   */
  method UpdateFromRemote(deployer: D.Deployer, deleted: ContractStates, o: Outside, c: K8sCluster)
    returns (r: UpdateResult, ghost log: seq<Entry>)
    requires W.Valid(deployer.world.grid)
    modifies c, deployer.world`clock
    ensures r.NotAsked? <==> !AllKnown(deleted, old(c.NodeDeploymentID))
    ensures !r.NotAsked? ==> c.NodeDeploymentID == Remaining(deleted, old(c.NodeDeploymentID))
    ensures !r.Fetched? ==> unchanged(c`Master) && unchanged(c`Workers) && c.Shared() == old(c.Shared())
    ensures r.NotAsked? ==> c.NodeDeploymentID == old(c.NodeDeploymentID)
    ensures r.Fetched? ==>
      && var current := D.Held(deployer.world.grid.store, c.NodeDeploymentID);
      && current.Keys == c.NodeDeploymentID.Keys
      && (r.outcome.Rebuilt? <==>
            && AllParse(current) && old(c.Master).Some?
            && Visits(current, log) && CanRebuild(o, TablesOf(o, log), old(c.Master).value, NamesOf(old(c.Workers))))
      && (AllMachinesParse(current) ==>
         exists order :: Visits(current, order) && c.Shared() == SettingsAfter(order, old(c.Shared())))
      && (!r.outcome.Rebuilt? ==> c.Workers == old(c.Workers))
    ensures r == Fetched(Rebuilt) && ClusterRebuild.UniqueNames(log) && IsThere(log, old(c.Master).value.name) ==>
              IsRebuilt(o, log, old(c.Master).value, NamesOf(old(c.Workers)), c)
  {
    log := [];
    var ok := RemoveDeletedContracts(deleted, c);
    if !ok { return NotAsked, log; }
    var fetched := deployer.GetDeployments(c.NodeDeploymentID);
    if fetched.None? { return NotFetched, log; }
    ghost var contracts, master, declared := c.NodeDeploymentID, c.Master, NamesOf(c.Workers);
    assert fetched.value == D.Held(deployer.world.grid.store, contracts);
    ContractsAreHeld(deployer.world.grid, contracts);
    var outcome;
    ghost var tail;
    outcome, log, tail := c.Rebuild(o, fetched.value);
    if outcome.Rebuilt? && ClusterRebuild.UniqueNames(log) && IsThere(log, master.value.name) {
      ClusterIsRebuilt(o, log, master.value, declared, c.Master, c.Workers, tail);
    }
    r := Fetched(outcome);
  }
}
