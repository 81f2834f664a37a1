/**
 * The remote side of a deployment: the chain's live contracts and the deployments nodes hold.
 * Every remote call is one step that succeeds or fails as the fault schedule says; the schedule is
 * arbitrary, so what is proved holds for every pattern of failures.
 */
module GridWorld {
  import opened Wrappers
  import opened GridTypes
  import opened DeploymentUtils
  import Waiting

  datatype Contract = Contract(node: NodeId, hash: Digest, publicIPs: nat)

  /** The writing calls, recorded whether they succeed or not. */
  datatype Call =
    | CreateContract(node: NodeId)
    | SendDeployment(node: NodeId)
    | CancelContract(node: NodeId)
    | UpdateContract(node: NodeId)
    | SendUpdate(node: NodeId)
  {
    predicate IsUpdate() { UpdateContract? || SendUpdate? }
  }

  type Store = map<(NodeId, ContractId), Deployment>

  datatype Grid = Grid(live: map<ContractId, Contract>, store: Store, nextID: ContractId, calls: seq<Call>)

  /**
   * Call number `t` fails if `fails(t)`. A failed call to a node may still have been applied there,
   * which is `applied(t)`; a failed call to the chain has no effect. Contract ids grow by gaps.
   */
  datatype Faults = Faults(
    fails: nat -> bool, applied: nat -> bool, gap: nat -> nat, start: nat -> int, polls: nat -> nat -> Waiting.Poll)

  ghost predicate Timed(f: Faults) {
    forall t: nat :: Waiting.Advancing(f.polls(t), f.start(t))
  }

  /** Contract ids come from below the counter, and a node files a deployment under its contract. */
  ghost predicate Valid(g: Grid) {
    && 0 < g.nextID
    && (forall id :: id in g.live ==> id < g.nextID)
    && (forall k :: k in g.store ==> g.store[k].contractID == k.1 && k.1 < g.nextID)
  }

  /** The workloads as they were before a node gave them results. */
  function WithoutResults(ws: seq<Workload>): seq<Workload> {
    seq(|ws|, i requires 0 <= i < |ws| => ws[i].(result := PENDING))
  }

  /** `after` is what a node may make of `before` on its own: results are its own, and so is the order. */
  ghost predicate IsAnswer(before: Deployment, after: Deployment) {
    && after.version == before.version && after.contractID == before.contractID
    && multiset(WithoutResults(after.workloads)) == multiset(WithoutResults(before.workloads))
  }

  /** A wait: the tick it was made at, whose deployment it watched, and the versions it expected. */
  datatype Awaited = Awaited(tick: nat, node: NodeId, id: ContractId, expected: Waiting.Expected)

  /**
   * The poll counted as many OK entries as workloads are expected, and none bad. Unless one of them is
   * listed twice as OK, every expected workload then is OK at its version.
   */
  ghost predicate IsFull(p: Waiting.Poll, expected: Waiting.Expected) {
    && p.changes.Some? && Waiting.Inspect(p.changes.value, expected) == Waiting.Counted(|expected|)
    && (Waiting.OkOnce(p.changes.value, expected) ==>
          forall name :: name in expected ==> Waiting.OkAt(p.changes.value, expected, name))
  }

  /** The wait made at this tick ended on a full poll. */
  ghost predicate EndsFull(f: Faults, tick: nat, expected: Waiting.Expected) {
    exists last: nat ::
      Waiting.GoesOnUntil(f.polls(tick), f.start(tick), expected, last) && IsFull(f.polls(tick)(last), expected)
  }

  /** The waits of one stretch of time. */
  datatype Log = Log(faults: Faults, waits: seq<Awaited>)

  /** One of the waits was for this deployment at these versions, and it ended on a full poll. */
  ghost predicate SeenOk(log: Log, node: NodeId, id: ContractId, expected: Waiting.Expected) {
    exists tick: nat :: Awaited(tick, node, id, expected) in log.waits && EndsFull(log.faults, tick, expected)
  }

  ghost predicate Extends(was: Log, log: Log) {
    log.faults == was.faults && forall w :: w in was.waits ==> w in log.waits
  }

  /** The poll that ends a wait is fixed by the polls alone. */
  lemma EndsOnce(f: Faults, tick: nat, expected: Waiting.Expected, outcome: Waiting.Outcome, last: nat)
    requires Waiting.GoesOnUntil(f.polls(tick), f.start(tick), expected, last)
    requires Waiting.EndsRightly(f.polls(tick), f.start(tick), expected, last, outcome)
    requires outcome.Stopped? ==> Waiting.GivesUp(f.polls(tick)(last), f.start(tick))
    ensures outcome.Ready? <==> EndsFull(f, tick, expected)
  {
    var polls := f.polls(tick);
    if outcome.Ready? {
      FullIsReliable(polls(last), expected);
      assert IsFull(polls(last), expected);
    } else {
      forall end: nat | Waiting.GoesOnUntil(polls, f.start(tick), expected, end)
        ensures !IsFull(polls(end), expected) {}
    }
  }

  lemma FullIsReliable(p: Waiting.Poll, expected: Waiting.Expected)
    requires p.changes.Some? && Waiting.Inspect(p.changes.value, expected) == Waiting.Counted(|expected|)
    ensures IsFull(p, expected)
  {
    Waiting.FullCountIsReliable(p.changes.value, expected);
  }

  class World {
    const faults: Faults
    var clock: nat
    var grid: Grid
    ghost var waits: seq<Awaited>

    constructor (faults: Faults)
      ensures this.faults == faults && grid == Grid(map[], map[], 1, []) && waits == [] && Valid(grid)
    {
      this.faults := faults;
      clock, grid, waits := 0, Grid(map[], map[], 1, []), [];
    }

    /** The waits made after the first `n`. */
    ghost function Since(n: nat): Log
      requires n <= |waits|
      reads this`waits
    {
      Log(faults, waits[n..])
    }

    method GetNodeClient(node: NodeId) returns (ok: bool)
      modifies this`clock
      ensures clock == old(clock) + 1 && ok == !faults.fails(old(clock))
    {
      ok := !faults.fails(clock);
      clock := clock + 1;
    }

    method CreateNodeContract(node: NodeId, hash: Digest, publicIPs: nat) returns (r: Option<ContractId>)
      requires Valid(grid)
      modifies this`clock, this`grid
      ensures Valid(grid) && grid.store == old(grid.store) && grid.calls == old(grid.calls) + [CreateContract(node)]
      ensures r.None? ==> grid.live == old(grid.live) && grid.nextID == old(grid.nextID)
      ensures r.Some? ==>
        && old(grid.nextID) <= r.value < grid.nextID
        && grid.live == old(grid.live)[r.value := Contract(node, hash, publicIPs)]
    {
      var id := grid.nextID + faults.gap(clock);
      grid := grid.(calls := grid.calls + [CreateContract(node)]);
      if faults.fails(clock) {
        r := None;
      } else {
        grid := grid.(live := grid.live[id := Contract(node, hash, publicIPs)], nextID := id + 1);
        r := Some(id);
      }
      clock := clock + 1;
    }

    /** Whether the contract is live; None when the chain cannot be asked. */
    method IsValidContract(id: ContractId) returns (valid: Option<bool>)
      modifies this`clock
      ensures valid.Some? ==> (valid.value <==> id in grid.live)
    {
      valid := if faults.fails(clock) then None else Some(id in grid.live);
      clock := clock + 1;
    }

    method EnsureContractCanceled(node: NodeId, id: ContractId) returns (ok: bool)
      requires Valid(grid)
      modifies this`clock, this`grid
      ensures Valid(grid) && grid.store == old(grid.store) && grid.nextID == old(grid.nextID)
      ensures grid.calls == old(grid.calls) + [CancelContract(node)]
      ensures grid.live == if ok then old(grid.live) - {id} else old(grid.live)
    {
      ok := !faults.fails(clock);
      grid := grid.(calls := grid.calls + [CancelContract(node)]);
      if ok { grid := grid.(live := grid.live - {id}); }
      clock := clock + 1;
    }

    /** The chain keeps the contract and replaces its hash. */
    method UpdateNodeContract(node: NodeId, id: ContractId, hash: Digest) returns (ok: bool)
      requires Valid(grid)
      modifies this`clock, this`grid
      ensures Valid(grid) && grid.store == old(grid.store) && grid.nextID == old(grid.nextID)
      ensures grid.calls == old(grid.calls) + [UpdateContract(node)]
      ensures ok ==> id in old(grid.live) && grid.live == old(grid.live)[id := old(grid.live)[id].(hash := hash)]
      ensures !ok ==> grid.live == old(grid.live)
    {
      ok := !faults.fails(clock) && id in grid.live;
      grid := grid.(calls := grid.calls + [UpdateContract(node)]);
      if ok { grid := grid.(live := grid.live[id := grid.live[id].(hash := hash)]); }
      clock := clock + 1;
    }

    method DeploymentDeploy(node: NodeId, dl: Deployment) returns (ok: bool)
      requires Valid(grid) && dl.contractID < grid.nextID
      modifies this`clock, this`grid
      ensures Valid(grid) && grid.live == old(grid.live) && grid.nextID == old(grid.nextID)
      ensures grid.calls == old(grid.calls) + [SendDeployment(node)]
      ensures grid.store == old(grid.store) || grid.store == old(grid.store)[(node, dl.contractID) := dl]
      ensures ok ==> grid.store == old(grid.store)[(node, dl.contractID) := dl]
    {
      ok := !faults.fails(clock);
      grid := grid.(calls := grid.calls + [SendDeployment(node)]);
      if ok || faults.applied(clock) { grid := grid.(store := grid.store[(node, dl.contractID) := dl]); }
      clock := clock + 1;
    }

    method DeploymentGet(node: NodeId, id: ContractId) returns (r: Option<Deployment>)
      modifies this`clock
      ensures clock == old(clock) + 1 && (r.Some? <==> !faults.fails(old(clock)) && (node, id) in grid.store)
      ensures r.Some? ==> r.value == grid.store[(node, id)]
    {
      r := if faults.fails(clock) || (node, id) !in grid.store then None else Some(grid.store[(node, id)]);
      clock := clock + 1;
    }

    method DeploymentUpdate(node: NodeId, dl: Deployment) returns (ok: bool)
      requires Valid(grid)
      modifies this`clock, this`grid
      ensures Valid(grid) && grid.live == old(grid.live) && grid.nextID == old(grid.nextID)
      ensures grid.calls == old(grid.calls) + [SendUpdate(node)]
      ensures grid.store == old(grid.store)
           || ((node, dl.contractID) in old(grid.store) && grid.store == old(grid.store)[(node, dl.contractID) := dl])
      ensures ok ==>
              (node, dl.contractID) in old(grid.store) && grid.store == old(grid.store)[(node, dl.contractID) := dl]
    {
      ok := !faults.fails(clock) && (node, dl.contractID) in grid.store;
      grid := grid.(calls := grid.calls + [SendUpdate(node)]);
      if ok || (faults.applied(clock) && (node, dl.contractID) in grid.store) {
        grid := grid.(store := grid.store[(node, dl.contractID) := dl]);
      }
      clock := clock + 1;
    }

    /** Polls the change list of a node's deployment until every expected workload is OK at its version. */
    method Wait(node: NodeId, id: ContractId, expected: Waiting.Expected) returns (ok: bool)
      requires Timed(faults)
      modifies this`clock, this`waits
      ensures waits == old(waits) + [Awaited(old(clock), node, id, expected)] && clock == old(clock) + 1
      ensures ok <==> EndsFull(faults, old(clock), expected)
    {
      var outcome, last := Waiting.Wait(faults.polls(clock), faults.start(clock), expected, 0);
      ok := outcome.Ready?;
      EndsOnce(faults, clock, expected, outcome, last);
      waits := waits + [Awaited(clock, node, id, expected)];
      clock := clock + 1;
    }

    /** A node deploys what it holds: workloads get results, and the list may come back in any order. */
    method NodeAnswers(node: NodeId, id: ContractId, ws: seq<Workload>)
      requires Valid(grid) && (node, id) in grid.store
      requires IsAnswer(grid.store[(node, id)], grid.store[(node, id)].(workloads := ws))
      modifies this`grid
      ensures Valid(grid)
      ensures grid == old(grid).(store := old(grid.store)[(node, id) := old(grid.store)[(node, id)].(workloads := ws)])
    {
      grid := grid.(store := grid.store[(node, id) := grid.store[(node, id)].(workloads := ws)]);
    }
  }
}
