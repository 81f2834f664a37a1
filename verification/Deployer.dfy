/**
 * The deploy protocol: creations, then updates, over a chain and nodes that may fail at any call,
 * followed by a compensating run when the first one fails.
 */
module Deployer {
  import opened Wrappers
  import opened GridTypes
  import opened DeploymentUtils
  import opened GridWorld
  import Admission

  type Contracts = map<NodeId, ContractId>
  type Deployments = map<NodeId, Deployment>

  /** A map of deployments whose workload versions a run writes in place. */
  class Batch {
    var dls: Deployments

    constructor (dls: Deployments)
      ensures this.dls == dls
    {
      this.dls := dls;
    }
  }

  datatype CreationStep =
    | NoClient | Unsigned | Invalid | NoHash | NoIPCount | NoContract
    | SendFailed | SendAndCancelFailed(id: ContractId) | NotReady

  datatype UpdateStep =
    | NoNewDigest | NoClient | NotFetched | NoOldDigest | NoOldHashes | NoNewHashes
    | Unsigned | Invalid | NoHash | ContractNotUpdated | NotSent | NotReady

  datatype Failure = CreationFailed(creation: CreationStep) | UpdateFailed(update: UpdateStep)

  // ----- What an update sends -----

  function NextVersion(v: uint32): uint32 {
    (v + 1) % 0x1_0000_0000
  }

  function Renumbered(
      w: Workload, next: uint32, oldHashes: map<string, Digest>, newHashes: map<string, Digest>,
      oldVersions: map<string, uint32>): Workload
    requires w.name in newHashes && oldHashes.Keys <= oldVersions.Keys
  {
    w.(version := if w.name !in oldHashes || newHashes[w.name] != oldHashes[w.name] then next else oldVersions[w.name])
  }

  /** The deployment an update sends: the next version, with versions carried over for equal workloads. */
  function Successor(lib: Library, oldDl: Deployment, dl: Deployment): Option<Deployment> {
    var oldHashes, newHashes := HashesOf(lib, oldDl.workloads), HashesOf(lib, dl.workloads);
    if oldHashes.None? || newHashes.None? then None
    else
      var next := NextVersion(oldDl.version);
      Some(Deployment(next, oldDl.contractID,
        seq(|dl.workloads|, i requires 0 <= i < |dl.workloads| =>
          NamesContain(dl.workloads, i);
          Renumbered(dl.workloads[i], next, oldHashes.value, newHashes.value, VersionsOf(oldDl.workloads)))))
  }

  lemma NamesContain(ws: seq<Workload>, i: nat)
    requires i < |ws|
    ensures ws[i].name in Names(ws)
  {
    assert ws[i] in ws;
  }

  ghost predicate AllHashed(declared: seq<Workload>, hashes: map<string, Digest>) {
    forall j :: 0 <= j < |declared| ==> declared[j].name in hashes
  }

  lemma HashedByName(declared: seq<Workload>, hashes: map<string, Digest>)
    requires hashes.Keys == Names(declared)
    ensures AllHashed(declared, hashes)
  {
    forall i | 0 <= i < |declared| ensures declared[i].name in hashes { NamesContain(declared, i); }
  }

  /** The workloads before `i` have their versions, the others are as declared; at the end all have them. */
  ghost predicate Halfway(
      declared: seq<Workload>, ws: seq<Workload>, i: nat, next: uint32, oldHashes: map<string, Digest>,
      newHashes: map<string, Digest>,
      oldVersions: map<string, uint32>)
    requires oldHashes.Keys <= oldVersions.Keys && AllHashed(declared, newHashes)
  {
    && |ws| == |declared| && i <= |ws|
    && (forall j :: 0 <= j < i ==> ws[j] == Renumbered(declared[j], next, oldHashes, newHashes, oldVersions))
    && (forall j :: i <= j < |ws| ==> ws[j] == declared[j])
  }

  lemma HalfwayStep(
      declared: seq<Workload>, ws: seq<Workload>, i: nat, next: uint32, oldHashes: map<string, Digest>,
      newHashes: map<string, Digest>,
      oldVersions: map<string, uint32>)
    requires oldHashes.Keys <= oldVersions.Keys && AllHashed(declared, newHashes)
    requires Halfway(declared, ws, i, next, oldHashes, newHashes, oldVersions) && i < |ws|
    ensures var w := Renumbered(ws[i], next, oldHashes, newHashes, oldVersions);
            && Halfway(declared, ws[i := w], i + 1, next, oldHashes, newHashes, oldVersions)
            && ws[i := w][..i + 1] == ws[..i] + [w]
  {
  }

  lemma VersionsLast(ws: seq<Workload>, w: Workload)
    ensures VersionsOf(ws + [w]) == VersionsOf(ws)[w.name := w.version]
  {
    assert (ws + [w])[..|ws|] == ws;
  }

  /** The workloads before `i` have their versions, which `versions` lists. */
  ghost predicate RenumberedUpTo(
      declared: seq<Workload>, ws: seq<Workload>, versions: map<string, uint32>, i: nat, next: uint32,
      oldHashes: map<string, Digest>, newHashes: map<string, Digest>, oldVersions: map<string, uint32>)
    requires oldHashes.Keys <= oldVersions.Keys && AllHashed(declared, newHashes)
  {
    Halfway(declared, ws, i, next, oldHashes, newHashes, oldVersions) && versions == VersionsOf(ws[..i])
  }

  lemma RenumberedOneMore(
      declared: seq<Workload>, ws: seq<Workload>, versions: map<string, uint32>, i: nat, next: uint32,
      oldHashes: map<string, Digest>, newHashes: map<string, Digest>, oldVersions: map<string, uint32>)
    requires oldHashes.Keys <= oldVersions.Keys && AllHashed(declared, newHashes) && i < |ws|
    requires RenumberedUpTo(declared, ws, versions, i, next, oldHashes, newHashes, oldVersions)
    ensures var w := Renumbered(ws[i], next, oldHashes, newHashes, oldVersions);
            RenumberedUpTo(declared, ws[i := w], versions[w.name := w.version], i + 1, next, oldHashes, newHashes,
                oldVersions)
  {
    var w := Renumbered(ws[i], next, oldHashes, newHashes, oldVersions);
    HalfwayStep(declared, ws, i, next, oldHashes, newHashes, oldVersions);
    VersionsLast(ws[..i], w);
  }

  /** What a workload list requests: versions and the nodes' results left aside. */
  function Contents(ws: seq<Workload>): seq<Workload> {
    seq(|ws|, i requires 0 <= i < |ws| => ws[i].(version := 0, result := PENDING))
  }

  /** An update never changes what is requested, only version numbers. */
  lemma SuccessorContents(lib: Library, oldDl: Deployment, dl: Deployment)
    requires Successor(lib, oldDl, dl).Some?
    ensures Contents(Successor(lib, oldDl, dl).value.workloads) == Contents(dl.workloads)
  {
  }

  predicate Unchanged(lib: Library, dl: Deployment, oldDl: Deployment) {
    && lib.digest(dl).Some? && lib.digest(dl) == lib.digest(oldDl)
    && SameNames(dl.workloads, oldDl.workloads)
  }

  /** What a successful visit of the update phase leaves on a node. */
  predicate Settled(lib: Library, before: Deployment, dl: Deployment, after: Deployment) {
    if Unchanged(lib, dl, before) then after == before else Successor(lib, before, dl) == Some(after)
  }

  predicate SameRequest(d: Deployment, e: Deployment) {
    d.version == e.version && d.contractID == e.contractID && Contents(d.workloads) == Contents(e.workloads)
  }

  /** The batch entries up to the versions written in place. */
  ghost predicate SameRequests(m: Deployments, n: Deployments) {
    m.Keys == n.Keys && forall k :: k in m ==> SameRequest(m[k], n[k])
  }

  /** A new deployment is awaited at version 0 throughout. */
  function FreshVersions(ws: seq<Workload>): map<string, uint32> {
    map w | w in ws :: w.name := 0
  }

  /** There was nothing to send, or the successor of the node's copy was awaited, and its wait ended on a full poll. */
  ghost predicate SeenUpdated(
      lib: Library, log: Log, node: NodeId, id: ContractId, before: Deployment, dl: Deployment)
  {
    || Unchanged(lib, dl, before)
    || (Successor(lib, before, dl).Some? &&
       SeenOk(log, node, id, VersionsOf(Successor(lib, before, dl).value.workloads)))
  }

  ghost predicate SeenCreations(log: Log, olds: Contracts, cur: Contracts, news: Deployments, nodes: set<NodeId>) {
    forall n :: n in nodes && n in news && n !in olds ==>
      n in cur && SeenOk(log, n, cur[n], FreshVersions(news[n].workloads))
  }

  ghost predicate SeenUpdates(lib: Library, log: Log, g: Grid, olds: Contracts, news: Deployments, nodes: set<NodeId>) {
    forall n :: n in nodes && n in news && n in olds ==>
      (n, olds[n]) in g.store && SeenUpdated(lib, log, n, olds[n], g.store[(n, olds[n])], news[n])
  }

  /** On every node of the request that was written to, a wait for what it was sent ended on a full poll. */
  ghost predicate SeenAll(lib: Library, log: Log, g: Grid, olds: Contracts, cur: Contracts, news: Deployments) {
    SeenCreations(log, olds, cur, news, news.Keys) && SeenUpdates(lib, log, g, olds, news, news.Keys)
  }

  /** The log from some point on grows, and contains every later one. */
  lemma LogsGrow(f: Faults, was: seq<Awaited>, now: seq<Awaited>, n: nat)
    requires n <= |was| && was <= now
    ensures Extends(Log(f, was[n..]), Log(f, now[n..]))
    ensures Extends(Log(f, now[|was|..]), Log(f, now[n..]))
  {
    forall w | w in was[n..] ensures w in now[n..] {
      var i :| n <= i < |was| && was[i] == w;
      assert now[n..][i - n] == w;
    }
    forall w | w in now[|was|..] ensures w in now[n..] {
      var i :| |was| <= i < |now| && now[i] == w;
      assert now[n..][i - n] == w;
    }
  }

  lemma SeenLonger(was: Log, log: Log, node: NodeId, id: ContractId, expected: map<string, uint32>)
    requires Extends(was, log) && SeenOk(was, node, id, expected)
    ensures SeenOk(log, node, id, expected)
  {
  }

  lemma CreationsLonger(
      was: Log, log: Log, olds: Contracts, cur: Contracts, now: Contracts, news: Deployments, nodes: set<NodeId>)
    requires Extends(was, log) && SeenCreations(was, olds, cur, news, nodes)
    requires forall n :: n in cur ==> n in now && now[n] == cur[n]
    ensures SeenCreations(log, olds, now, news, nodes)
  {
    forall n | n in nodes && n in news && n !in olds
      ensures n in now && SeenOk(log, n, now[n], FreshVersions(news[n].workloads)) {
      SeenLonger(was, log, n, cur[n], FreshVersions(news[n].workloads));
    }
  }

  lemma UpdatedLonger(
      lib: Library, was: Log, log: Log, node: NodeId, id: ContractId, before: Deployment, dl: Deployment)
    requires Extends(was, log) && SeenUpdated(lib, was, node, id, before, dl)
    ensures SeenUpdated(lib, log, node, id, before, dl)
  {
    if !Unchanged(lib, dl, before) {
      SeenLonger(was, log, node, id, VersionsOf(Successor(lib, before, dl).value.workloads));
    }
  }

  lemma UpdatesLonger(lib: Library, was: Log, log: Log, g: Grid, olds: Contracts, news: Deployments, nodes: set<NodeId>)
    requires Extends(was, log) && SeenUpdates(lib, was, g, olds, news, nodes)
    ensures SeenUpdates(lib, log, g, olds, news, nodes)
  {
    forall n | n in nodes && n in news && n in olds
      ensures (n, olds[n]) in g.store && SeenUpdated(lib, log, n, olds[n], g.store[(n, olds[n])], news[n])
    {
      UpdatedLonger(lib, was, log, n, olds[n], g.store[(n, olds[n])], news[n]);
    }
  }

  // ----- What the two phases may do to the grid -----

  ghost predicate OnlyCreations(before: seq<Call>, after: seq<Call>) {
    before <= after && forall i :: |before| <= i < |after| ==> !after[i].IsUpdate()
  }

  ghost predicate OnlyUpdates(before: seq<Call>, after: seq<Call>) {
    before <= after && forall i :: |before| <= i < |after| ==> after[i].IsUpdate()
  }

  /** Nothing stored is lost or altered; new entries belong to `nodes`. */
  ghost predicate StoreGrows(before: Store, after: Store, nodes: set<NodeId>) {
    && (forall k :: k in before ==> k in after && after[k] == before[k])
    && (forall k :: k in after && k !in before ==> k.0 in nodes)
  }

  /** The contract a creation leaves behind, if any: tracked, or orphaned by two failed calls. */
  ghost predicate Leaves(g: Grid, h: Grid, node: NodeId, id: ContractId) {
    && g.nextID <= id < h.nextID && id in h.live && h.live[id].node == node
    && h.live == g.live[id := h.live[id]]
  }

  ghost predicate Created(g: Grid, h: Grid, node: NodeId, dl: Deployment, tracked: Option<ContractId>,
      failed: Option<CreationStep>) {
    && Valid(h) && g.nextID <= h.nextID
    && OnlyCreations(g.calls, h.calls)
    && StoreGrows(g.store, h.store, {node})
    && (tracked.None? ==> failed.Some?)
    && match tracked
       case Some(id) =>
         && Leaves(g, h, node, id)
         && (failed.Some? ==> failed.value.NotReady?)
         && (node, id) in h.store && h.store[(node, id)] == dl.(contractID := id)
       case None =>
         if failed.Some? && failed.value.SendAndCancelFailed? then Leaves(g, h, node, failed.value.id)
         else h.live == g.live
  }

  /** Every created contract is tracked under its node, except an orphan; nothing older is touched. */
  ghost predicate Tracks(g: Grid, h: Grid, olds: Contracts, cur: Contracts, orphan: Option<ContractId>) {
    LedgerTracks(g.live, g.nextID, h.live, olds, cur, orphan)
  }

  type Ledger = map<ContractId, Contract>

  ghost predicate LedgerTracks(g: Ledger, next: ContractId, h: Ledger, olds: Contracts, cur: Contracts,
      orphan: Option<ContractId>) {
    && (forall n :: n in olds ==> n in cur && cur[n] == olds[n])
    && (forall n :: n in cur && n !in olds ==>
          && cur[n] in h && cur[n] !in g && next <= cur[n] && h[cur[n]].node == n)
    && (forall id :: id in g ==> id in h)
    && (forall id :: id in h && id !in g ==>
          || orphan == Some(id)
          || (h[id].node in cur && h[id].node !in olds && cur[h[id].node] == id))
    && (orphan.Some? ==> orphan.value in h && orphan.value !in g)
  }

  /** The state between two creations. */
  ghost predicate Creating(g: Grid, h: Grid, olds: Contracts, cur: Contracts, news: Deployments,
      orphan: Option<ContractId>) {
    && Valid(h) && g.nextID <= h.nextID
    && OnlyCreations(g.calls, h.calls)
    && StoreGrows(g.store, h.store, news.Keys - olds.Keys)
    && Tracks(g, h, olds, cur, orphan)
    && (forall id :: id in g.live ==> h.live[id] == g.live[id])
    && (forall n :: n in cur && n !in olds ==>
          n in news && (n, cur[n]) in h.store && h.store[(n, cur[n])] == news[n].(contractID := cur[n]))
    && (news.Keys <= olds.Keys ==> h == g && cur == olds)
  }

  /** A contract has been created for the node, and nothing else. */
  ghost predicate HasNewContract(g: Grid, c: Grid, node: NodeId, id: ContractId) {
    && Valid(c) && Leaves(g, c, node, id) && c.store == g.store && OnlyCreations(g.calls, c.calls)
  }

  /** The deployment was sent under the new contract. */
  lemma NewSent(g: Grid, c: Grid, h: Grid, node: NodeId, dl: Deployment, id: ContractId, failed: Option<CreationStep>)
    requires Valid(g) && HasNewContract(g, c, node, id) && Valid(h) && h.live == c.live && h.nextID == c.nextID
    requires h.calls == c.calls + [SendDeployment(node)] && h.store == c.store[(node, id) := dl.(contractID := id)]
    requires failed.Some? ==> failed.value.NotReady?
    ensures Created(g, h, node, dl, Some(id), failed)
  {
  }

  /** It was not, and the contract was cancelled or became an orphan. */
  lemma NewNotSent(g: Grid, c: Grid, h: Grid, k: Grid, node: NodeId, dl: Deployment, id: ContractId, cancelled: bool)
    requires Valid(g) && HasNewContract(g, c, node, id) && h.live == c.live && h.nextID == c.nextID
    requires h.calls == c.calls + [SendDeployment(node)]
    requires h.store == c.store || h.store == c.store[(node, id) := dl.(contractID := id)]
    requires Valid(k) && k.store == h.store && k.nextID == h.nextID && k.calls == h.calls + [CancelContract(node)]
    requires k.live == if cancelled then h.live - {id} else h.live
    ensures Created(g, k, node, dl, None, Some(if cancelled then SendFailed else SendAndCancelFailed(id)))
  {
    if cancelled { assert k.live == g.live; }
  }

  function OrphanOf(failed: Option<CreationStep>): Option<ContractId> {
    if failed.Some? && failed.value.SendAndCancelFailed? then Some(failed.value.id) else None
  }

  /** A new contract under a new node keeps the ledger exact. */
  lemma TracksOne(g: Ledger, next: ContractId, h: Ledger, olds: Contracts, cur: Contracts, node: NodeId,
      id: ContractId, c: Contract)
    requires LedgerTracks(g, next, h, olds, cur, None)
    requires node !in cur && id !in h && next <= id && c.node == node
    ensures LedgerTracks(g, next, h[id := c], olds, cur[node := id], None)
  {
  }

  /** A new contract that could not be cancelled either is the one orphan. */
  lemma TracksOrphan(
      g: Ledger, next: ContractId, h: Ledger, olds: Contracts, cur: Contracts, id: ContractId, c: Contract)
    requires LedgerTracks(g, next, h, olds, cur, None) && id !in h
    ensures LedgerTracks(g, next, h[id := c], olds, cur, Some(id))
  {
  }

  lemma TracksStep(
      g: Grid, h: Grid, k: Grid, olds: Contracts, cur: Contracts, node: NodeId, dl: Deployment,
      tracked: Option<ContractId>, failed: Option<CreationStep>)
    requires g.nextID <= h.nextID && Tracks(g, h, olds, cur, None)
    requires node !in cur && Valid(h) && Created(h, k, node, dl, tracked, failed)
    ensures Tracks(g, k, olds, if tracked.Some? then cur[node := tracked.value] else cur, OrphanOf(failed))
  {
    if tracked.Some? {
      TracksOne(g.live, g.nextID, h.live, olds, cur, node, tracked.value, k.live[tracked.value]);
    } else if failed.value.SendAndCancelFailed? {
      TracksOrphan(g.live, g.nextID, h.live, olds, cur, failed.value.id, k.live[failed.value.id]);
    }
  }

  /** The update phase passes over nodes outside the old map. */
  lemma PassOver(lib: Library, g: Grid, h: Grid, olds: Contracts, news: Deployments, left: set<NodeId>, node: NodeId)
    requires Untouched(g, h, left) && SettledAll(lib, g, h, olds, news, news.Keys - left) && node !in olds
    ensures Untouched(g, h, left - {node}) && SettledAll(lib, g, h, olds, news, news.Keys - (left - {node}))
  {
  }

  lemma CreatingStep(
      g: Grid, h: Grid, k: Grid, olds: Contracts, cur: Contracts, news: Deployments, node: NodeId,
      tracked: Option<ContractId>, failed: Option<CreationStep>)
    requires Valid(g) && Creating(g, h, olds, cur, news, None)
    requires node in news && node !in cur && Created(h, k, node, news[node], tracked, failed)
    ensures var next := if tracked.Some? then cur[node := tracked.value] else cur;
            Creating(g, k, olds, next, news, OrphanOf(failed))
  {
    TracksStep(g, h, k, olds, cur, node, news[node], tracked, failed);
    assert node in news.Keys - olds.Keys;
    assert !(news.Keys <= olds.Keys);
  }

  /** Contracts stay where they are; only their hashes may change. */
  ghost predicate SameContracts(g: Grid, h: Grid) {
    h.live.Keys == g.live.Keys && forall id :: id in g.live ==> h.live[id].node == g.live[id].node
  }

  /** The node's copy is there to be updated, and differs from the request. */
  ghost predicate Differs(lib: Library, g: Grid, node: NodeId, id: ContractId, dl: Deployment) {
    (node, id) in g.store && !Unchanged(lib, dl, g.store[(node, id)])
  }

  /** One visit of the update phase: it writes only to its node, and only if the copy there differs. */
  ghost predicate Updated(lib: Library, g: Grid, h: Grid, node: NodeId, id: ContractId, dl: Deployment, ok: bool) {
    && Valid(h) && h.nextID == g.nextID
    && OnlyUpdates(g.calls, h.calls)
    && SameContracts(g, h)
    && h.store.Keys == g.store.Keys
    && (forall k :: k in g.store && k != (node, id) ==> h.store[k] == g.store[k])
    && (forall i :: |g.calls| <= i < |h.calls| ==> h.calls[i].node == node)
    && (if Differs(lib, g, node, id, dl) then
          || h.store[(node, id)] == g.store[(node, id)]
          || Successor(lib, g.store[(node, id)], dl) == Some(h.store[(node, id)])
        else h == g)
    && (ok ==> (node, id) in g.store && Settled(lib, g.store[(node, id)], dl, h.store[(node, id)]))
  }

  ghost predicate NeedsUpdate(lib: Library, g: Grid, olds: Contracts, news: Deployments, n: NodeId) {
    n in olds && n in news && Differs(lib, g, n, olds[n], news[n])
  }

  /** What the update phase may have done to one stored deployment. */
  ghost predicate Touched(lib: Library, g: Grid, h: Grid, olds: Contracts, news: Deployments, k: (NodeId, ContractId))
    requires k in g.store && k in h.store
  {
    || h.store[k] == g.store[k]
    || (&& k.0 in olds && olds[k.0] == k.1 && NeedsUpdate(lib, g, olds, news, k.0)
        && Successor(lib, g.store[k], news[k.0]) == Some(h.store[k]))
  }

  /** The effect of the update phase, all of it or up to a failure. */
  ghost predicate UpdatedAll(lib: Library, g: Grid, h: Grid, olds: Contracts, news: Deployments) {
    && Valid(h) && h.nextID == g.nextID
    && OnlyUpdates(g.calls, h.calls)
    && SameContracts(g, h)
    && h.store.Keys == g.store.Keys
    && (forall k :: k in g.store ==> Touched(lib, g, h, olds, news, k))
    && (forall i :: |g.calls| <= i < |h.calls| ==> NeedsUpdate(lib, g, olds, news, h.calls[i].node))
    && ((forall n :: n in news ==> !NeedsUpdate(lib, g, olds, news, n)) ==> h == g)
  }

  ghost predicate SettledAll(lib: Library, g: Grid, h: Grid, olds: Contracts, news: Deployments, nodes: set<NodeId>) {
    forall n :: n in nodes && n in olds && n in news ==>
      && (n, olds[n]) in g.store && (n, olds[n]) in h.store
      && Settled(lib, g.store[(n, olds[n])], news[n], h.store[(n, olds[n])])
  }

  /** Nodes still to be visited hold what they held before. */
  ghost predicate Untouched(g: Grid, h: Grid, nodes: set<NodeId>) {
    forall k :: k in g.store && k.0 in nodes ==> k in h.store && h.store[k] == g.store[k]
  }

  lemma UpdatingStep(
      lib: Library, g: Grid, h: Grid, k: Grid, olds: Contracts, news: Deployments, left: set<NodeId>, node: NodeId,
      ok: bool)
    requires UpdatedAll(lib, g, h, olds, news) && Untouched(g, h, left)
    requires SettledAll(lib, g, h, olds, news, news.Keys - left)
    requires node in left && node in olds && node in news && Updated(lib, h, k, node, olds[node], news[node], ok)
    ensures UpdatedAll(lib, g, k, olds, news) && Untouched(g, k, left - {node})
    ensures ok ==> SettledAll(lib, g, k, olds, news, news.Keys - (left - {node}))
  {
    UpdatingStepAll(lib, g, h, k, olds, news, left, node, ok);
    if ok { UpdatingStepSettles(lib, g, h, k, olds, news, left, node); }
  }

  lemma UpdatingStepAll(
      lib: Library, g: Grid, h: Grid, k: Grid, olds: Contracts, news: Deployments, left: set<NodeId>, node: NodeId,
      ok: bool)
    requires UpdatedAll(lib, g, h, olds, news) && Untouched(g, h, left)
    requires node in left && node in olds && node in news && Updated(lib, h, k, node, olds[node], news[node], ok)
    ensures UpdatedAll(lib, g, k, olds, news) && Untouched(g, k, left - {node})
  {
    var key := (node, olds[node]);
    assert Differs(lib, h, node, olds[node], news[node]) <==> NeedsUpdate(lib, g, olds, news, node);
    forall x | x in g.store ensures Touched(lib, g, k, olds, news, x) {
      assert Touched(lib, g, h, olds, news, x);
      if x != key { assert k.store[x] == h.store[x]; }
    }
    forall i | |g.calls| <= i < |k.calls| ensures NeedsUpdate(lib, g, olds, news, k.calls[i].node) {
      if i < |h.calls| { assert k.calls[i] == h.calls[i]; }
    }
  }

  lemma UpdatingStepSettles(
      lib: Library, g: Grid, h: Grid, k: Grid, olds: Contracts, news: Deployments, left: set<NodeId>, node: NodeId)
    requires h.store.Keys == g.store.Keys && Untouched(g, h, left)
    requires SettledAll(lib, g, h, olds, news, news.Keys - left)
    requires node in left && node in olds && node in news && Updated(lib, h, k, node, olds[node], news[node], true)
    ensures SettledAll(lib, g, k, olds, news, news.Keys - (left - {node}))
  {
    forall n | n in news.Keys - (left - {node}) && n in olds
      ensures (n, olds[n]) in g.store && (n, olds[n]) in k.store
      ensures Settled(lib, g.store[(n, olds[n])], news[n], k.store[(n, olds[n])])
    {
      if n != node {
        assert n in news.Keys - left;
        assert k.store[(n, olds[n])] == h.store[(n, olds[n])];
      }
    }
  }

  // ----- One run, and what it guarantees -----

  function Orphan(failed: Option<Failure>): Option<ContractId> {
    if failed.Some? && failed.value.CreationFailed? then OrphanOf(Some(failed.value.creation)) else None
  }

  /** A run from `g` to `h`: creations up to `mid`, then updates unless a creation failed. */
  ghost predicate Run(
      lib: Library, g: Grid, mid: Grid, h: Grid, olds: Contracts, news: Deployments, cur: Contracts,
      failed: Option<Failure>)
  {
    && Creating(g, mid, olds, cur, news, Orphan(failed))
    && (if failed.Some? && failed.value.CreationFailed? then h == mid
        else cur.Keys == olds.Keys + news.Keys && UpdatedAll(lib, mid, h, olds, news))
    && (failed.None? ==> SettledAll(lib, mid, h, olds, news, news.Keys))
  }

  ghost predicate TracksNew(olds: Contracts, cur: Contracts, id: ContractId) {
    exists n :: n in cur && n !in olds && cur[n] == id
  }

  /**
   * Contract ledger, on every exit: the contracts created by the run are exactly those tracked for
   * nodes outside the old map, plus the one whose send and cancellation both failed, whose id is in
   * the error. Nothing older is cancelled, no contract is tracked twice, and old entries stay.
   */
  lemma LedgerIsExact(
      lib: Library, g: Grid, mid: Grid, h: Grid, olds: Contracts, news: Deployments, cur: Contracts,
      failed: Option<Failure>)
    requires Run(lib, g, mid, h, olds, news, cur, failed)
    ensures forall id :: id in h.live && id !in g.live <==> TracksNew(olds, cur, id) || Orphan(failed) == Some(id)
    ensures forall id :: id in g.live ==> id in h.live
    ensures forall n :: n in olds ==> n in cur && cur[n] == olds[n]
    ensures forall m, n :: m in cur && n in cur && m !in olds && n !in olds && cur[m] == cur[n] ==> m == n
    ensures failed.None? ==> cur.Keys == olds.Keys + news.Keys
  {
    forall id | id in h.live && id !in g.live ensures TracksNew(olds, cur, id) || Orphan(failed) == Some(id) {
      assert id in mid.live;
      var n := mid.live[id].node;
      assert Orphan(failed) == Some(id) || (n in cur && n !in olds && cur[n] == id);
    }
  }

  /**
   * Phase separation: no update call precedes a creation call; after a failed creation there is none
   * at all; and the first update call is only made once every new node has its contract.
   */
  lemma PhasesAreSeparate(
      lib: Library, g: Grid, mid: Grid, h: Grid, olds: Contracts, news: Deployments, cur: Contracts,
      failed: Option<Failure>)
    requires Run(lib, g, mid, h, olds, news, cur, failed)
    ensures g.calls <= h.calls
    ensures forall i, j :: |g.calls| <= i < j < |h.calls| && h.calls[i].IsUpdate() ==> h.calls[j].IsUpdate()
    ensures forall i :: |g.calls| <= i < |h.calls| && h.calls[i].IsUpdate() ==>
              && !(failed.Some? && failed.value.CreationFailed?)
              && cur.Keys == olds.Keys + news.Keys
              && NeedsUpdate(lib, mid, olds, news, h.calls[i].node)
  {
    forall i | |g.calls| <= i < |mid.calls| ensures !h.calls[i].IsUpdate() { assert h.calls[i] == mid.calls[i]; }
  }

  /** Skipping: when every request equals its node's copy, the run writes nothing at all. */
  lemma UnchangedIsSkipped(
      lib: Library, g: Grid, mid: Grid, h: Grid, olds: Contracts, news: Deployments, cur: Contracts,
      failed: Option<Failure>)
    requires Run(lib, g, mid, h, olds, news, cur, failed)
    requires forall n :: n in news ==>
             n in olds && (n, olds[n]) in g.store && Unchanged(lib, news[n], g.store[(n, olds[n])])
    ensures h == g && cur == olds
  {
    assert news.Keys <= olds.Keys;
  }

  /** What a successful run leaves: new nodes hold their request, old ones the settled form of theirs. */
  lemma SuccessDeploysAll(lib: Library, g: Grid, mid: Grid, h: Grid, olds: Contracts, news: Deployments,
      cur: Contracts, n: NodeId)
    requires Run(lib, g, mid, h, olds, news, cur, None)
    ensures n in news ==>
      && n in cur && (n, cur[n]) in h.store
      && (n !in olds ==> h.store[(n, cur[n])] == news[n].(contractID := cur[n]))
      && (n in olds ==> (n, cur[n]) in g.store && Settled(lib, g.store[(n, cur[n])], news[n], h.store[(n, cur[n])]))
  {
    if n in news && n !in olds {
      assert Touched(lib, mid, h, olds, news, (n, cur[n]));
    } else if n in news {
      assert (n, olds[n]) in mid.store;
    }
  }

  // ----- Compensation -----

  datatype Outcome =
    | Deployed | Rejected | Failed(failure: Failure)
    | NotFetched(failure: Failure) | NotReverted(failure: Failure, second: Failure)

  /** The first run, the old copies if they could be fetched before it, and the tick that took. */
  datatype FirstRun = FirstRun(
    fetched: Option<Deployments>, fetchedBy: nat, mid: Grid, grid: Grid, cur: Contracts, failed: Option<Failure>)

  /** Equal digests over equal names mean equal requests. */
  ghost predicate Faithful(lib: Library) {
    forall d, e :: Unchanged(lib, d, e) ==> Contents(d.workloads) == Contents(e.workloads)
  }

  /** The node's tracked contract holds what these workloads request. */
  ghost predicate Holds(g: Grid, cur: Contracts, n: NodeId, ws: seq<Workload>) {
    n in cur && (n, cur[n]) in g.store && Contents(g.store[(n, cur[n])].workloads) == Contents(ws)
  }

  /** After a successful run every node of the request holds what was requested. */
  lemma SuccessHolds(lib: Library, g: Grid, mid: Grid, h: Grid, olds: Contracts, news: Deployments, cur: Contracts,
      n: NodeId)
    requires Run(lib, g, mid, h, olds, news, cur, None)
    ensures n in news && Faithful(lib) ==> Holds(h, cur, n, news[n].workloads)
  {
    SuccessDeploysAll(lib, g, mid, h, olds, news, cur, n);
    if n in news && n in olds {
      var before := g.store[(n, cur[n])];
      if !Unchanged(lib, news[n], before) { SuccessorContents(lib, before, news[n]); }
    }
  }

  /** The copies the nodes of the old map hold. */
  ghost predicate IsSnapshot(g: Grid, olds: Contracts, snapshot: Deployments) {
    && snapshot.Keys == olds.Keys
    && forall n :: n in olds ==> (n, olds[n]) in g.store && snapshot[n] == g.store[(n, olds[n])]
  }

  /** Some of these contracts has no copy on its node. */
  ghost predicate NotAllHeld(g: Grid, contracts: Contracts) {
    exists n :: n in contracts && (n, contracts[n]) !in g.store
  }

  /** Some call between two ticks failed. */
  ghost predicate SomeFailed(f: Faults, from: nat, to: nat) {
    exists t: nat :: from <= t < to && f.fails(t)
  }

  /** The copies the nodes hold of these contracts. */
  ghost function Held(store: Store, contracts: Contracts): Deployments {
    map n | n in contracts && (n, contracts[n]) in store :: store[(n, contracts[n])]
  }

  /** Every node of the old map holds what it was originally requested. */
  ghost predicate Restored(g: Grid, k: Grid, olds: Contracts) {
    forall n :: n in olds ==>
      && (n, olds[n]) in g.store && (n, olds[n]) in k.store
      && Contents(k.store[(n, olds[n])].workloads) == Contents(g.store[(n, olds[n])].workloads)
  }

  /**
   * Compensation: after a run that failed anywhere, a successful run over the old copies creates
   * nothing, tracks the same contracts, and restores every node of the old map.
   */
  lemma RevertRestores(
      lib: Library, g: Grid, mid: Grid, h: Grid, olds: Contracts, news: Deployments, cur: Contracts,
      failed: Option<Failure>,
      snapshot: Deployments, mid': Grid, k: Grid, cur': Contracts)
    requires Run(lib, g, mid, h, olds, news, cur, failed) && IsSnapshot(g, olds, snapshot)
    requires Run(lib, h, mid', k, cur, snapshot, cur', None)
    ensures cur' == cur && mid' == h && k.live.Keys == h.live.Keys
    ensures Faithful(lib) ==> Restored(g, k, olds)
  {
    assert snapshot.Keys <= cur.Keys;
    forall n | n in olds && Faithful(lib)
      ensures (n, olds[n]) in g.store && (n, olds[n]) in k.store
      ensures Contents(k.store[(n, olds[n])].workloads) == Contents(g.store[(n, olds[n])].workloads)
    {
      SuccessDeploysAll(lib, h, mid', k, cur, snapshot, cur', n);
      var before := h.store[(n, olds[n])];
      if !Unchanged(lib, snapshot[n], before) { SuccessorContents(lib, before, snapshot[n]); }
    }
  }

  /** Every node of the old map holds what it was asked for before the runs, or what they ask for. */
  ghost predicate OldOrNew(g: Grid, k: Grid, olds: Contracts, news: Deployments) {
    forall n :: n in olds && (n, olds[n]) in g.store ==>
      && (n, olds[n]) in k.store
      && var held := Contents(k.store[(n, olds[n])].workloads);
         held == Contents(g.store[(n, olds[n])].workloads) || (n in news && held == Contents(news[n].workloads))
  }

  /** A run leaves nothing else on a node of the old map, whether it succeeds or not. */
  lemma RunLeavesOldOrNew(
      lib: Library, g: Grid, mid: Grid, h: Grid, olds: Contracts, news: Deployments, cur: Contracts,
      failed: Option<Failure>)
    requires Run(lib, g, mid, h, olds, news, cur, failed)
    ensures OldOrNew(g, h, olds, news)
  {
    forall n | n in olds && (n, olds[n]) in g.store
      ensures (n, olds[n]) in h.store
      ensures h.store[(n, olds[n])] == g.store[(n, olds[n])]
           || (n in news && Contents(h.store[(n, olds[n])].workloads) == Contents(news[n].workloads))
    {
      var key := (n, olds[n]);
      assert mid.store[key] == g.store[key];
      if h != mid {
        assert Touched(lib, mid, h, olds, news, key);
        if h.store[key] != g.store[key] { SuccessorContents(lib, mid.store[key], news[n]); }
      }
    }
  }

  /** Nor does a compensating run over the old copies, at whatever point either of them stopped. */
  lemma RevertLeavesOldOrNew(
      lib: Library, g: Grid, h: Grid, olds: Contracts, news: Deployments, cur: Contracts, snapshot: Deployments,
      mid': Grid,
      k: Grid, cur': Contracts, second: Option<Failure>)
    requires OldOrNew(g, h, olds, news) && IsSnapshot(g, olds, snapshot)
    requires forall n :: n in olds ==> n in cur && cur[n] == olds[n]
    requires Run(lib, h, mid', k, cur, snapshot, cur', second)
    ensures OldOrNew(g, k, olds, news)
  {
    RunLeavesOldOrNew(lib, h, mid', k, cur, snapshot, cur', second);
  }

  /** Old entries stay, and new ones hold contract ids the chain had not given out before. */
  ghost predicate Grown(g: Grid, h: Grid, olds: Contracts, cur: Contracts) {
    && g.nextID <= h.nextID
    && (forall n :: n in olds ==> n in cur && cur[n] == olds[n])
    && (forall n :: n in cur && n !in olds ==> g.nextID <= cur[n] < h.nextID)
  }

  lemma RunGrows(
      lib: Library, g: Grid, mid: Grid, h: Grid, olds: Contracts, news: Deployments, cur: Contracts,
      failed: Option<Failure>)
    requires Run(lib, g, mid, h, olds, news, cur, failed)
    ensures Grown(g, h, olds, cur)
  {
    assert Valid(mid);
  }

  /** The creation phase before the nodes in `left`. */
  ghost predicate CreatedUpTo(
      log: Log, g: Grid, h: Grid, olds: Contracts, cur: Contracts, news: Deployments, left: set<NodeId>)
  {
    && left <= news.Keys && Creating(g, h, olds, cur, news, None)
    && cur.Keys == olds.Keys + (news.Keys - left) && SeenCreations(log, olds, cur, news, news.Keys - left)
  }

  lemma CreationStarts(log: Log, g: Grid, olds: Contracts, news: Deployments)
    requires Valid(g)
    ensures CreatedUpTo(log, g, g, olds, olds, news, news.Keys)
  {
  }

  lemma OneLess(olds: set<NodeId>, news: set<NodeId>, left: set<NodeId>, node: NodeId)
    requires node in left && left <= news
    ensures olds + (news - left) + {node} == olds + (news - (left - {node}))
  {
  }

  /** A node of the old map needs no creation. */
  lemma CreatedOld(
      log: Log, g: Grid, h: Grid, olds: Contracts, cur: Contracts, news: Deployments, left: set<NodeId>, node: NodeId)
    requires CreatedUpTo(log, g, h, olds, cur, news, left) && node in left && node in olds
    ensures CreatedUpTo(log, g, h, olds, cur, news, left - {node})
  {
    OneLess(olds.Keys, news.Keys, left, node);
  }

  lemma SeenOneMore(
      was: Log, log: Log, olds: Contracts, before: Contracts, id: ContractId, news: Deployments, left: set<NodeId>,
      node: NodeId)
    requires SeenCreations(was, olds, before, news, news.Keys - left) && Extends(was, log) && node !in before
    requires node in news && SeenOk(log, node, id, FreshVersions(news[node].workloads))
    ensures SeenCreations(log, olds, before[node := id], news, news.Keys - (left - {node}))
  {
    CreationsLonger(was, log, olds, before, before[node := id], news, news.Keys - left);
  }

  lemma KeysAfter(
      olds: Contracts, before: Contracts, id: ContractId, news: set<NodeId>, left: set<NodeId>, node: NodeId)
    requires before.Keys == olds.Keys + (news - left) && node in left && left <= news && node !in olds
    ensures node !in before && before[node := id].Keys == olds.Keys + (news - (left - {node}))
  {
    OneLess(olds.Keys, news, left, node);
  }

  /** One more node is created, and was seen. */
  lemma CreatedNew(
      was: Log, log: Log, g: Grid, h: Grid, k: Grid, olds: Contracts, before: Contracts, id: ContractId,
      news: Deployments,
      left: set<NodeId>, node: NodeId)
    requires CreatedUpTo(was, g, h, olds, before, news, left) && node in left && node !in olds && Extends(was, log)
    requires Creating(g, k, olds, before[node := id], news, None) &&
             SeenOk(log, node, id, FreshVersions(news[node].workloads))
    ensures CreatedUpTo(log, g, k, olds, before[node := id], news, left - {node})
  {
    KeysAfter(olds, before, id, news.Keys, left, node);
    SeenOneMore(was, log, olds, before, id, news, left, node);
  }

  lemma CreationEnds(log: Log, g: Grid, h: Grid, olds: Contracts, cur: Contracts, news: Deployments)
    requires CreatedUpTo(log, g, h, olds, cur, news, {})
    ensures Creating(g, h, olds, cur, news, None)
    ensures cur.Keys == olds.Keys + news.Keys && SeenCreations(log, olds, cur, news, news.Keys)
  {
    assert news.Keys - {} == news.Keys;
  }

  /** The update phase before the nodes in `left`; `dls` is the batch with the versions written so far. */
  ghost predicate UpdatedUpTo(
      lib: Library, log: Log, g: Grid, h: Grid, olds: Contracts, news: Deployments, dls: Deployments, left: set<NodeId>)
  {
    && left <= news.Keys && UpdatedAll(lib, g, h, olds, news) && Untouched(g, h, left)
    && SettledAll(lib, g, h, olds, news, news.Keys - left) && SeenUpdates(lib, log, g, olds, news, news.Keys - left)
    && SameRequests(news, dls) && forall n :: n in left ==> dls[n] == news[n]
  }

  lemma StillSameRequests(news: Deployments, before: Deployments, after: Deployments, node: NodeId)
    requires SameRequests(news, before) && node in before && after.Keys == before.Keys
    requires SameRequest(after[node], before[node]) && forall n :: n in after && n != node ==> after[n] == before[n]
    ensures SameRequests(news, after)
  {
  }

  /** Creations leave the copies of the old map alone. */
  lemma SeenBefore(lib: Library, log: Log, g: Grid, mid: Grid, olds: Contracts, news: Deployments)
    requires StoreGrows(g.store, mid.store, news.Keys - olds.Keys)
    requires SeenUpdates(lib, log, mid, olds, news, news.Keys)
    ensures SeenUpdates(lib, log, g, olds, news, news.Keys)
  {
    forall n | n in news && n in olds
      ensures (n, olds[n]) in g.store && SeenUpdated(lib, log, n, olds[n], g.store[(n, olds[n])], news[n])
    {
      var k := (n, olds[n]);
      assert k in mid.store && k.0 !in news.Keys - olds.Keys;
    }
  }

  lemma RunStops(
      lib: Library, g: Grid, mid: Grid, olds: Contracts, news: Deployments, cur: Contracts, creation: CreationStep)
    requires Creating(g, mid, olds, cur, news, OrphanOf(Some(creation)))
    ensures Run(lib, g, mid, mid, olds, news, cur, Some(CreationFailed(creation)))
  {
  }

  lemma RunEnds(
      lib: Library, log: Log, g: Grid, mid: Grid, h: Grid, olds: Contracts, news: Deployments, cur: Contracts,
      update: Option<UpdateStep>)
    requires Creating(g, mid, olds, cur, news, None) && cur.Keys == olds.Keys + news.Keys
    requires UpdatedAll(lib, mid, h, olds, news) && SeenCreations(log, olds, cur, news, news.Keys)
    requires update.None? ==>
      SettledAll(lib, mid, h, olds, news, news.Keys) && SeenUpdates(lib, log, mid, olds, news, news.Keys)
    ensures Run(lib, g, mid, h, olds, news, cur, if update.Some? then Some(UpdateFailed(update.value)) else None)
    ensures update.None? ==> SeenAll(lib, log, g, olds, cur, news)
  {
    if update.None? { SeenBefore(lib, log, g, mid, olds, news); }
  }

  /** The chain is asked first, and the node only after it agreed; what the node stores changes only then. */
  ghost predicate SendsInOrder(g: Grid, h: Grid, node: NodeId) {
    || (h.calls == g.calls && h.store == g.store)
    || (h.calls == g.calls + [UpdateContract(node)] && h.store == g.store)
    || h.calls == g.calls + [UpdateContract(node), SendUpdate(node)]
  }

  /** A run over nodes that all have a contract creates none. */
  lemma NothingCreated(
      lib: Library, g: Grid, mid: Grid, h: Grid, olds: Contracts, news: Deployments, cur: Contracts,
      failed: Option<Failure>)
    requires Run(lib, g, mid, h, olds, news, cur, failed) && news.Keys <= olds.Keys
    ensures cur == olds && h.live.Keys == g.live.Keys && g.nextID <= h.nextID
  {
  }

  /** Nothing was sent: a failed visit of the update phase that changed nothing. */
  lemma NotUpdated(lib: Library, g: Grid, node: NodeId, id: ContractId, dl: Deployment)
    requires Valid(g)
    ensures Updated(lib, g, g, node, id, dl, false)
  {
  }

  /** The node already holds what is requested. */
  lemma AlreadyUpdated(lib: Library, log: Log, g: Grid, node: NodeId, id: ContractId, dl: Deployment)
    requires Valid(g) && (node, id) in g.store && Unchanged(lib, dl, g.store[(node, id)])
    ensures Updated(lib, g, g, node, id, dl, true) && SeenUpdated(lib, log, node, id, g.store[(node, id)], dl)
  {
  }

  /** The successor was sent to the node's copy. */
  ghost predicate Sent(g: Grid, h: Grid, node: NodeId, s: Deployment, ok: bool) {
    && Valid(h) && h.nextID == g.nextID && SameContracts(g, h)
    && SendsInOrder(g, h, node) && OnlyUpdates(g.calls, h.calls)
    && var key := (node, s.contractID);
       && (h.store == g.store || (key in g.store && h.store == g.store[key := s]))
       && (ok ==> key in g.store && h.store == g.store[key := s])
  }

  lemma SentIsUpdated(
      lib: Library, log: Log, g: Grid, h: Grid, node: NodeId, id: ContractId, dl: Deployment, s: Deployment, ok: bool)
    requires Valid(g) && Differs(lib, g, node, id, dl) && Successor(lib, g.store[(node, id)], dl) == Some(s)
    requires Sent(g, h, node, s, ok) && (ok ==> SeenOk(log, node, id, VersionsOf(s.workloads)))
    ensures Updated(lib, g, h, node, id, dl, ok)
    ensures ok ==> SeenUpdated(lib, log, node, id, g.store[(node, id)], dl)
  {
    assert s.contractID == g.store[(node, id)].contractID == id;
    assert forall i :: |g.calls| <= i < |h.calls| ==> h.calls[i].node == node;
  }

  /** One more node of the update phase was seen, or needed nothing. */
  lemma SeenOneUpdated(
      lib: Library, f: Faults, was: seq<Awaited>, now: seq<Awaited>, n: nat, g: Grid, olds: Contracts,
      news: Deployments,
      left: set<NodeId>, node: NodeId)
    requires n <= |was| && was <= now && node in left && node in olds && node in news && (node, olds[node]) in g.store
    requires SeenUpdates(lib, Log(f, was[n..]), g, olds, news, news.Keys - left)
    requires SeenUpdated(lib, Log(f, now[|was|..]), node, olds[node], g.store[(node, olds[node])], news[node])
    ensures SeenUpdates(lib, Log(f, now[n..]), g, olds, news, news.Keys - (left - {node}))
  {
    LogsGrow(f, was, now, n);
    UpdatesLonger(lib, Log(f, was[n..]), Log(f, now[n..]), g, olds, news, news.Keys - left);
    UpdatedLonger(lib, Log(f, now[|was|..]), Log(f, now[n..]), node, olds[node], g.store[(node, olds[node])],
        news[node]);
  }

  class Deployer {
    const lib: Library
    const proxy: Admission.Proxy
    const revertOnFailure: bool
    const world: World

    constructor (lib: Library, proxy: Admission.Proxy, revertOnFailure: bool, world: World)
      ensures this.lib == lib && this.proxy == proxy && this.revertOnFailure == revertOnFailure && this.world == world
    {
      this.lib, this.proxy, this.revertOnFailure, this.world := lib, proxy, revertOnFailure, world;
    }

    /** Sends a new deployment under its contract, waits for it, and cancels the contract if it could not be sent. */
    method SendNew(node: NodeId, dl: Deployment, id: ContractId, ghost g: Grid)
      returns (tracked: Option<ContractId>, failed: Option<CreationStep>)
      requires Valid(g) && HasNewContract(g, world.grid, node, id) && Timed(world.faults)
      modifies world
      ensures Created(g, world.grid, node, dl, tracked, failed)
      ensures old(world.waits) <= world.waits
      ensures failed.None? ==>
              tracked.Some? && SeenOk(world.Since(|old(world.waits)|), node, tracked.value, FreshVersions(dl.workloads))
    {
      ghost var c := world.grid;
      var sent := world.DeploymentDeploy(node, dl.(contractID := id));
      if !sent {
        ghost var h := world.grid;
        var cancelled := world.EnsureContractCanceled(node, id);
        NewNotSent(g, c, h, world.grid, node, dl, id, cancelled);
        return None, Some(if cancelled then SendFailed else SendAndCancelFailed(id));
      }
      var ok := world.Wait(node, id, FreshVersions(dl.workloads));
      failed := if ok then None else Some(CreationStep.NotReady);
      NewSent(g, c, world.grid, node, dl, id, failed);
      tracked := Some(id);
    }

    /** Creates one contract and sends its deployment; a contract whose send failed is cancelled. */
    method CreateOne(node: NodeId, dl: Deployment) returns (tracked: Option<ContractId>, failed: Option<CreationStep>)
      requires Valid(world.grid) && Timed(world.faults)
      modifies world
      ensures Created(old(world.grid), world.grid, node, dl, tracked, failed)
      ensures old(world.waits) <= world.waits
      ensures failed.None? ==>
              tracked.Some? && SeenOk(world.Since(|old(world.waits)|), node, tracked.value, FreshVersions(dl.workloads))
    {
      ghost var g := world.grid;
      var ok := world.GetNodeClient(node);
      if !ok { return None, Some(CreationStep.NoClient); }
      if !lib.canSign(dl) { return None, Some(CreationStep.Unsigned); }
      if !lib.valid(dl) { return None, Some(CreationStep.Invalid); }
      var hash := lib.challengeHash(dl);
      if hash.None? { return None, Some(CreationStep.NoHash); }
      var publicIPs := CountDeploymentPublicIPs(dl);
      if publicIPs.None? { return None, Some(NoIPCount); }
      var contract := world.CreateNodeContract(node, hash.value, publicIPs.value);
      if contract.None? { return None, Some(NoContract); }
      tracked, failed := SendNew(node, dl, contract.value, g);
    }

    /** The creation phase: every new node outside the old map, in any order, until one fails. */
    method CreateMissing(olds: Contracts, news: Deployments) returns (cur: Contracts, failed: Option<CreationStep>)
      requires Valid(world.grid) && Timed(world.faults)
      modifies world
      ensures Creating(old(world.grid), world.grid, olds, cur, news, OrphanOf(failed))
      ensures old(world.waits) <= world.waits
      ensures failed.None? ==>
                && cur.Keys == olds.Keys + news.Keys
                && SeenCreations(world.Since(|old(world.waits)|), olds, cur, news, news.Keys)
    {
      cur := olds;
      var nodes := news.Keys;
      ghost var g, n := world.grid, |world.waits|;
      CreationStarts(world.Since(n), g, olds, news);
      while nodes != {}
        invariant old(world.waits) <= world.waits
        invariant CreatedUpTo(world.Since(n), g, world.grid, olds, cur, news, nodes)
        decreases nodes
      {
        var node :| node in nodes;
        ghost var h, before, waits := world.grid, cur, world.waits;
        if node in olds {
          CreatedOld(world.Since(n), g, h, olds, cur, news, nodes, node);
        } else {
          var tracked;
          tracked, failed := CreateOne(node, news[node]);
          cur := if tracked.Some? then cur[node := tracked.value] else cur;
          CreatingStep(g, h, world.grid, olds, before, news, node, tracked, failed);
          if failed.Some? { return; }
          LogsGrow(world.faults, waits, world.waits, n);
          SeenLonger(world.Since(|waits|), world.Since(n), node, tracked.value, FreshVersions(news[node].workloads));
          CreatedNew(Log(world.faults, waits[n..]), world.Since(n), g, h, world.grid, olds, before, tracked.value, news,
              nodes, node);
        }
        nodes := nodes - {node};
      }
      CreationEnds(world.Since(n), g, world.grid, olds, cur, news);
      failed := None;
    }

    /** Gives every workload its version, and collects the versions by name for the wait that follows. */
    static method RenumberAll(
        declared: seq<Workload>, next: uint32, oldHashes: map<string, Digest>, newHashes: map<string, Digest>,
        oldVersions: map<string, uint32>)
      returns (ws: seq<Workload>, versions: map<string, uint32>)
      requires newHashes.Keys == Names(declared) && oldHashes.Keys <= oldVersions.Keys
      ensures AllHashed(declared, newHashes) && versions == VersionsOf(ws)
      ensures Halfway(declared, ws, |ws|, next, oldHashes, newHashes, oldVersions)
    {
      ws, versions := declared, map[];
      HashedByName(declared, newHashes);
      for idx := 0 to |ws|
        invariant |ws| == |declared| &&
                  RenumberedUpTo(declared, ws, versions, idx, next, oldHashes, newHashes, oldVersions)
      {
        var w := ws[idx];
        var version := next;
        if w.name in oldHashes && newHashes[w.name] == oldHashes[w.name] {
          version := oldVersions[w.name];
        }
        RenumberedOneMore(declared, ws, versions, idx, next, oldHashes, newHashes, oldVersions);
        ws := ws[idx := w.(version := version)];
        versions := versions[w.name := version];
      }
      assert ws[..|ws|] == ws;
    }

    /** Computes what the update sends, writing the versions into the batch. */
    method Renumber(batch: Batch, node: NodeId, oldDl: Deployment)
      returns (r: Result<Deployment, UpdateStep>, versions: map<string, uint32>)
      requires node in batch.dls
      modifies batch
      ensures var dl := old(batch.dls)[node];
              match Successor(lib, oldDl, dl)
              case None => r.Failure? && batch.dls == old(batch.dls)
              case Some(s) =>
                && r == Success(s) && versions == VersionsOf(s.workloads)
                && batch.dls == old(batch.dls)[node := dl.(workloads := s.workloads)]
    {
      versions := map[];
      var dl := batch.dls[node];
      var oldHashes := GetWorkloadHashes(lib, oldDl);
      if oldHashes.None? { return Failure(NoOldHashes), versions; }
      var newHashes := GetWorkloadHashes(lib, dl);
      if newHashes.None? { return Failure(NoNewHashes), versions; }
      var oldVersions := ConstructWorkloadVersions(oldDl);
      var next := NextVersion(oldDl.version);
      var ws;
      ws, versions := RenumberAll(dl.workloads, next, oldHashes.value, newHashes.value, oldVersions);
      assert ws == Successor(lib, oldDl, dl).value.workloads;
      batch.dls := batch.dls[node := dl.(workloads := ws)];
      r := Success(Deployment(next, oldDl.contractID, ws));
    }

    /** Records the new hash on the chain, then sends the deployment and waits for it. */
    method SendSuccessor(
        node: NodeId, dl: Deployment, versions: map<string, uint32>)
      returns (failed: Option<UpdateStep>)
      requires Valid(world.grid) && Timed(world.faults)
      modifies world
      ensures Sent(old(world.grid), world.grid, node, dl, failed.None?)
      ensures old(world.waits) <= world.waits
      ensures failed.None? ==> SeenOk(world.Since(|old(world.waits)|), node, dl.contractID, versions)
    {
      if !lib.canSign(dl) { return Some(UpdateStep.Unsigned); }
      if !lib.valid(dl) { return Some(UpdateStep.Invalid); }
      var hash := lib.challengeHash(dl);
      if hash.None? { return Some(UpdateStep.NoHash); }
      var ok := world.UpdateNodeContract(node, dl.contractID, hash.value);
      if !ok { return Some(ContractNotUpdated); }
      ok := world.DeploymentUpdate(node, dl);
      if !ok { return Some(NotSent); }
      ok := world.Wait(node, dl.contractID, versions);
      return if ok then None else Some(UpdateStep.NotReady);
    }

    /** Updates the deployment of one node, unless its copy has the same digest and the same names. */
    method UpdateOne(node: NodeId, id: ContractId, batch: Batch) returns (failed: Option<UpdateStep>)
      requires Valid(world.grid) && Timed(world.faults) && node in batch.dls
      modifies world, batch
      ensures Updated(lib, old(world.grid), world.grid, node, id, old(batch.dls)[node], failed.None?)
      ensures old(world.waits) <= world.waits
      ensures failed.None? ==>
                SeenUpdated(lib, world.Since(|old(world.waits)|), node, id, old(world.grid).store[(node, id)],
                    old(batch.dls)[node])
      ensures batch.dls.Keys == old(batch.dls).Keys && SameRequest(batch.dls[node], old(batch.dls)[node])
      ensures forall n :: n in batch.dls && n != node ==> batch.dls[n] == old(batch.dls)[n]
    {
      ghost var g, dl := world.grid, batch.dls[node];
      NotUpdated(lib, g, node, id, dl);
      var newDigest := lib.digest(batch.dls[node]);
      if newDigest.None? { return Some(NoNewDigest); }
      var ok := world.GetNodeClient(node);
      if !ok { return Some(UpdateStep.NoClient); }
      var fetched := world.DeploymentGet(node, id);
      if fetched.None? { return Some(UpdateStep.NotFetched); }
      var oldDl := fetched.value;
      var oldDigest := lib.digest(oldDl);
      if oldDigest.None? { return Some(NoOldDigest); }
      var sameNames := SameWorkloadsNames(batch.dls[node], oldDl);
      if oldDigest == newDigest && sameNames {
        AlreadyUpdated(lib, world.Since(|world.waits|), g, node, id, dl);
        return None;
      }
      assert Differs(lib, world.grid, node, id, batch.dls[node]);
      var renumbered, versions := Renumber(batch, node, oldDl);
      if renumbered.Failure? { return Some(renumbered.error); }
      SuccessorContents(lib, oldDl, dl);
      failed := SendSuccessor(node, renumbered.value, versions);
      SentIsUpdated(lib, world.Since(|old(world.waits)|), g, world.grid, node, id, dl, renumbered.value, failed.None?);
    }

    /** Visits one node of the update phase. */
    method UpdateNext(
        node: NodeId, olds: Contracts, batch: Batch, ghost g: Grid, ghost news: Deployments, ghost left: set<NodeId>,
        ghost n: nat)
      returns (failed: Option<UpdateStep>)
      requires Timed(world.faults) && node in left && n <= |world.waits|
      requires UpdatedUpTo(lib, world.Since(n), g, world.grid, olds, news, batch.dls, left)
      modifies world, batch
      ensures UpdatedAll(lib, g, world.grid, olds, news) && SameRequests(news, batch.dls)
      ensures old(world.waits) <= world.waits
      ensures failed.None? ==> UpdatedUpTo(lib, world.Since(n), g, world.grid, olds, news, batch.dls, left - {node})
    {
      if node in olds {
        ghost var h, before, waits := world.grid, batch.dls, world.waits;
        failed := UpdateOne(node, olds[node], batch);
        UpdatingStep(lib, g, h, world.grid, olds, news, left, node, failed.None?);
        StillSameRequests(news, before, batch.dls, node);
        if failed.None? {
          assert h.store[(node, olds[node])] == g.store[(node, olds[node])];
          SeenOneUpdated(lib, world.faults, waits, world.waits, n, g, olds, news, left, node);
        }
      } else {
        PassOver(lib, g, world.grid, olds, news, left, node);
        failed := None;
      }
    }

    /** The update phase: every new node inside the old map, in any order, until one fails. */
    method UpdateExisting(olds: Contracts, batch: Batch) returns (failed: Option<UpdateStep>)
      requires Valid(world.grid) && Timed(world.faults)
      modifies world, batch
      ensures UpdatedAll(lib, old(world.grid), world.grid, olds, old(batch.dls))
      ensures old(world.waits) <= world.waits
      ensures failed.None? ==>
                && SettledAll(lib, old(world.grid), world.grid, olds, old(batch.dls), old(batch.dls).Keys)
                && SeenUpdates(lib, world.Since(|old(world.waits)|), old(world.grid), olds, old(batch.dls),
                   old(batch.dls).Keys)
      ensures SameRequests(old(batch.dls), batch.dls)
    {
      var nodes := batch.dls.Keys;
      ghost var g, news, n := world.grid, batch.dls, |world.waits|;
      while nodes != {}
        invariant old(world.waits) <= world.waits
        invariant UpdatedUpTo(lib, world.Since(n), g, world.grid, olds, news, batch.dls, nodes)
        decreases nodes
      {
        var node :| node in nodes;
        failed := UpdateNext(node, olds, batch, g, news, nodes, n);
        if failed.Some? { return; }
        nodes := nodes - {node};
      }
      assert news.Keys - {} == news.Keys;
      failed := None;
    }

    /** One run: creations, then updates. The returned contracts always include the old ones. */
    method DeployOnce(olds: Contracts, batch: Batch) returns (cur: Contracts, failed: Option<Failure>, ghost mid: Grid)
      requires Valid(world.grid) && Timed(world.faults)
      modifies world, batch
      ensures Run(lib, old(world.grid), mid, world.grid, olds, old(batch.dls), cur, failed)
      ensures Valid(world.grid) && SameRequests(old(batch.dls), batch.dls)
      ensures old(world.waits) <= world.waits
      ensures failed.None? ==> SeenAll(lib, world.Since(|old(world.waits)|), old(world.grid), olds, cur, old(batch.dls))
    {
      var creation, update;
      cur, creation := CreateMissing(olds, batch.dls);
      mid := world.grid;
      ghost var n, waits := |old(world.waits)|, world.waits;
      if creation.Some? {
        RunStops(lib, old(world.grid), mid, olds, batch.dls, cur, creation.value);
        return cur, Some(CreationFailed(creation.value)), mid;
      }
      update := UpdateExisting(olds, batch);
      failed := if update.Some? then Some(UpdateFailed(update.value)) else None;
      LogsGrow(world.faults, waits, world.waits, n);
      CreationsLonger(Log(world.faults, waits[n..]), world.Since(n), olds, cur, cur, old(batch.dls),
          old(batch.dls).Keys);
      if update.None? {
        UpdatesLonger(lib, Log(world.faults, world.waits[|waits|..]), world.Since(n), mid, olds, old(batch.dls),
            old(batch.dls).Keys);
      }
      RunEnds(lib, world.Since(n), old(world.grid), mid, world.grid, olds, old(batch.dls), cur, update);
    }

    /** The copies of a map of contracts; None when one cannot be fetched: it is not there, or a call failed. */
    method GetDeployments(contracts: Contracts) returns (r: Option<Deployments>)
      modifies world`clock
      ensures r.Some? ==> IsSnapshot(world.grid, contracts, r.value)
      ensures r.None? ==> NotAllHeld(world.grid, contracts) || SomeFailed(world.faults, old(world.clock), world.clock)
    {
      var res: Deployments := map[];
      var nodes := contracts.Keys;
      while nodes != {}
        invariant nodes <= contracts.Keys && res.Keys == contracts.Keys - nodes
        invariant forall n :: n in res ==>
                  (n, contracts[n]) in world.grid.store && res[n] == world.grid.store[(n, contracts[n])]
        invariant old(world.clock) <= world.clock
        decreases nodes
      {
        var node :| node in nodes;
        var ok := world.GetNodeClient(node);
        if !ok { return None; }
        var dl := world.DeploymentGet(node, contracts[node]);
        if dl.None? { return None; }
        res := res[node := dl.value];
        nodes := nodes - {node};
      }
      return Some(res);
    }

    method Cancel(node: NodeId, id: ContractId) returns (ok: bool)
      requires Valid(world.grid)
      modifies world
      ensures Valid(world.grid) && world.grid.store == old(world.grid).store &&
              world.grid.nextID == old(world.grid).nextID
      ensures world.grid.live == if ok && id != 0 then old(world.grid).live - {id} else old(world.grid).live
    {
      if id == 0 { return true; }
      ok := world.EnsureContractCanceled(node, id);
    }

    /** The compensating run over the old copies, with the failure it answers. */
    method Compensate(
        olds: Contracts, before: Deployments, was: Contracts, failure: Failure, ghost g: Grid, ghost mid: Grid,
        ghost news: Deployments)
      returns (cur: Contracts, r: Outcome)
      requires Valid(world.grid) && Timed(world.faults) && IsSnapshot(g, olds, before)
      requires Run(lib, g, mid, world.grid, olds, news, was, Some(failure))
      modifies world
      ensures Valid(world.grid) && world.grid.live.Keys == old(world.grid).live.Keys && old(world.waits) <= world.waits
      ensures cur == was && old(world.grid).nextID <= world.grid.nextID
      ensures (r.NotReverted? && r.failure == failure)
           || (r == Failed(failure) && (Faithful(lib) ==> Restored(g, world.grid, olds)))
      ensures OldOrNew(g, world.grid, olds, news)
    {
      ghost var h := world.grid;
      assert before.Keys <= was.Keys;
      var again := new Batch(before);
      var second;
      ghost var mid2;
      cur, second, mid2 := DeployOnce(was, again);
      NothingCreated(lib, h, mid2, world.grid, was, before, cur, second);
      RunLeavesOldOrNew(lib, g, mid, h, olds, news, was, Some(failure));
      RevertLeavesOldOrNew(lib, g, h, olds, news, was, before, mid2, world.grid, cur, second);
      if second.Some? { return cur, NotReverted(failure, second.value); }
      RevertRestores(lib, g, mid, h, olds, news, was, Some(failure), before, mid2, world.grid, cur);
      r := Failed(failure);
    }

    /**
     * Deploys, and compensates when that fails. A rejected request changes nothing. Otherwise the
     * outcome is that of the first run, recorded in `first`; a successful compensation restores the
     * old nodes, creates nothing, and still reports the first failure.
     */
    method Deploy(olds: Contracts, batch: Batch) returns (cur: Contracts, r: Outcome, ghost first: FirstRun)
      requires Valid(world.grid) && Timed(world.faults)
      modifies world, batch
      ensures Valid(world.grid) && Grown(old(world.grid), world.grid, olds, cur)
      ensures match first.fetched
              case Some(snapshot) =>
                && IsSnapshot(old(world.grid), olds, snapshot)
                && (r.Rejected? <==> !Admission.Admissible(lib, proxy, snapshot, old(batch.dls)))
              case None =>
                && !r.Rejected?
                && (NotAllHeld(old(world.grid), olds) || SomeFailed(world.faults, old(world.clock), first.fetchedBy))
      ensures r.Rejected? ==> world.grid == old(world.grid) && cur == olds && batch.dls == old(batch.dls)
      ensures !r.Rejected? ==>
        && Run(lib, old(world.grid), first.mid, first.grid, olds, old(batch.dls), first.cur, first.failed)
        && cur == first.cur
      ensures r.Deployed? ==> first.failed.None? && world.grid == first.grid
      ensures old(world.waits) <= world.waits
      ensures r.Deployed? ==> SeenAll(lib, world.Since(|old(world.waits)|), old(world.grid), olds, cur, old(batch.dls))
      ensures r.Failed? ==>
        && first.failed == Some(r.failure)
        && (revertOnFailure ==>
              && world.grid.live.Keys == first.grid.live.Keys
              && (Faithful(lib) ==> Restored(old(world.grid), world.grid, olds)))
        && (!revertOnFailure ==> world.grid == first.grid)
      ensures r.NotFetched? ==> first.failed == Some(r.failure) && world.grid == first.grid
      ensures r.NotReverted? ==> first.failed == Some(r.failure) && world.grid.live.Keys == first.grid.live.Keys
      ensures (r.NotFetched? || r.NotReverted?) ==> revertOnFailure
      ensures OldOrNew(old(world.grid), world.grid, olds, old(batch.dls))
    {
      var fetched := GetDeployments(olds);
      first := FirstRun(fetched, world.clock, world.grid, world.grid, olds, None);
      if fetched.Some? {
        var admitted := Admission.Validate(lib, proxy, fetched.value, batch.dls);
        if !admitted { return olds, Rejected, first; }
      }
      var failed;
      ghost var mid;
      cur, failed, mid := DeployOnce(olds, batch);
      first := FirstRun(fetched, first.fetchedBy, mid, world.grid, cur, failed);
      RunGrows(lib, old(world.grid), mid, world.grid, olds, old(batch.dls), cur, failed);
      RunLeavesOldOrNew(lib, old(world.grid), mid, world.grid, olds, old(batch.dls), cur, failed);
      if failed.None? { return cur, Deployed, first; }
      if !revertOnFailure { return cur, Failed(failed.value), first; }
      if fetched.None? { return cur, Outcome.NotFetched(failed.value), first; }
      cur, r := Compensate(olds, fetched.value, cur, failed.value, old(world.grid), mid, old(batch.dls));
    }
  }
}
