/** What the client remembers about contracts: on each deployment object, and in one list per node. */
module LocalState {
  import opened Wrappers
  import opened GridTypes
  import opened Slices

  type Lists = map<NodeId, seq<ContractId>>

  /** An object's node, the contract it tracks on that node, and its own contract id, 0 for none. */
  datatype Local = Local(node: NodeId, owned: Option<ContractId>, id: ContractId)

  /** All objects of type `K`, the lists, and the next contract id of the chain. */
  datatype Memory<!K> = Memory(locals: map<K, Local>, lists: Lists, nextID: ContractId)

  function On(lists: Lists, node: NodeId): seq<ContractId> {
    if node in lists then lists[node] else []
  }

  /** A non-zero contract id is the one tracked on the object's node, and is listed there exactly once. */
  ghost predicate Consistent(l: Local, lists: Lists) {
    l.id != 0 ==> l.owned == Some(l.id) && Count(On(lists, l.node), l.id) == 1
  }

  /** Lists repeat nothing and hold only ids the chain has given out. */
  ghost predicate ListsSound(lists: Lists, nextID: ContractId) {
    forall n :: n in lists ==> Distinct(lists[n]) && forall i :: 0 <= i < |lists[n]| ==> lists[n][i] < nextID
  }

  /** Different objects track different contracts, all given out by the chain. */
  ghost predicate OwnersSound<K>(locals: map<K, Local>, nextID: ContractId) {
    && (forall k :: k in locals && locals[k].owned.Some? ==> locals[k].owned.value < nextID)
    && (forall j, k :: j in locals && k in locals && j != k && locals[j].owned.Some? ==>
       locals[j].owned != locals[k].owned)
  }

  ghost predicate Agrees<K>(s: Memory<K>) {
    && ListsSound(s.lists, s.nextID) && OwnersSound(s.locals, s.nextID)
    && forall k :: k in s.locals ==> Consistent(s.locals[k], s.lists)
  }

  // ----- What the two operations do to it -----

  function Recorded(l: Local, owned: Option<ContractId>): Local {
    Local(l.node, owned, if owned.Some? && owned.value != 0 then owned.value else l.id)
  }

  function Listing(lists: Lists, node: NodeId, owned: Option<ContractId>): Lists {
    if owned.Some? && owned.value != 0 && owned.value !in On(lists, node)
    then lists[node := On(lists, node) + [owned.value]] else lists
  }

  /** Deploying keeps a tracked contract, and tracks only a new one otherwise; what it tracks is recorded. */
  ghost predicate DeployStep<K>(s: Memory<K>, s': Memory<K>, k: K) {
    && k in s.locals && k in s'.locals && s.nextID <= s'.nextID
    && (s.locals[k].owned.Some? ==> s'.locals[k].owned == s.locals[k].owned)
    && (s.locals[k].owned.None? && s'.locals[k].owned.Some? ==> s.nextID <= s'.locals[k].owned.value < s'.nextID)
    && s'.locals == s.locals[k := Recorded(s.locals[k], s'.locals[k].owned)]
    && s'.lists == Listing(s.lists, s.locals[k].node, s'.locals[k].owned)
  }

  /** Cancelling forgets the contract on the object, in its own map and in the node's list. */
  ghost predicate CancelStep<K>(s: Memory<K>, s': Memory<K>, k: K) {
    && k in s.locals && s'.nextID == s.nextID
    && s'.locals == s.locals[k := Local(s.locals[k].node, None, 0)]
    && s'.lists == s.lists[s.locals[k].node := RemoveFirst(On(s.lists, s.locals[k].node), s.locals[k].id)]
  }

  /** A call that is refused, and the clearing of an object whose contract is gone. */
  ghost predicate IdleStep<K>(s: Memory<K>, s': Memory<K>, k: K) {
    && k in s.locals && s.nextID <= s'.nextID && s'.lists == s.lists
    && (s'.locals == s.locals || s'.locals == s.locals[k := s.locals[k].(id := 0)])
  }

  ghost predicate Next<K>(s: Memory<K>, s': Memory<K>, k: K) {
    DeployStep(s, s', k) || CancelStep(s, s', k) || IdleStep(s, s', k)
  }

  /** A call that changed one object at most as deploying may. */
  lemma IsDeployStep<K>(s: Memory<K>, s': Memory<K>, k: K)
    requires k in s.locals && s'.locals.Keys == s.locals.Keys && s.nextID <= s'.nextID
    requires forall j :: j in s.locals && j != k ==> s'.locals[j] == s.locals[j]
    requires s'.locals[k] == Recorded(s.locals[k], s'.locals[k].owned)
    requires s.locals[k].owned.Some? ==> s'.locals[k].owned == s.locals[k].owned
    requires s.locals[k].owned.None? && s'.locals[k].owned.Some? ==> s.nextID <= s'.locals[k].owned.value < s'.nextID
    requires s'.lists == Listing(s.lists, s.locals[k].node, s'.locals[k].owned)
    ensures DeployStep(s, s', k)
  {
  }

  lemma IsCancelStep<K>(s: Memory<K>, s': Memory<K>, k: K)
    requires k in s.locals && s'.locals.Keys == s.locals.Keys && s'.nextID == s.nextID
    requires forall j :: j in s.locals && j != k ==> s'.locals[j] == s.locals[j]
    requires s'.locals[k] == Local(s.locals[k].node, None, 0)
    requires s'.lists == s.lists[s.locals[k].node := RemoveFirst(On(s.lists, s.locals[k].node), s.locals[k].id)]
    ensures CancelStep(s, s', k)
  {
  }

  // ----- The invariant -----

  lemma {:induction false} UniqueCount(ids: seq<ContractId>, id: ContractId)
    requires Distinct(ids)
    ensures Count(ids, id) == if id in ids then 1 else 0
    decreases |ids|
  {
    if ids != [] {
      forall i, j | 0 <= i < j < |ids[1..]| ensures ids[1..][i] != ids[1..][j] { assert ids[i + 1] != ids[j + 1]; }
      UniqueCount(ids[1..], id);
    }
  }

  lemma ListingSound(lists: Lists, node: NodeId, owned: Option<ContractId>, nextID: ContractId)
    requires ListsSound(lists, nextID) && (owned.Some? ==> owned.value < nextID)
    ensures ListsSound(Listing(lists, node, owned), nextID)
    ensures owned.Some? && owned.value != 0 ==> owned.value in On(Listing(lists, node, owned), node)
    ensures forall n, id :: id in On(lists, n) ==> id in On(Listing(lists, node, owned), n)
  {
  }

  lemma ConsistentIfListed(l: Local, lists: Lists, nextID: ContractId)
    requires ListsSound(lists, nextID) && (l.id != 0 ==> l.owned == Some(l.id) && l.id in On(lists, l.node))
    ensures Consistent(l, lists)
  {
    if l.id != 0 { UniqueCount(On(lists, l.node), l.id); }
  }

  lemma ListedIfConsistent(l: Local, lists: Lists)
    requires Consistent(l, lists) && l.id != 0
    ensures l.owned == Some(l.id) && l.id in On(lists, l.node)
  {
  }

  lemma DeployKeeps<K>(s: Memory<K>, s': Memory<K>, k: K)
    requires Agrees(s) && DeployStep(s, s', k)
    ensures Agrees(s')
  {
    var node, owned := s.locals[k].node, s'.locals[k].owned;
    assert ListsSound(s.lists, s'.nextID);
    ListingSound(s.lists, node, owned, s'.nextID);
    forall j | j in s'.locals ensures Consistent(s'.locals[j], s'.lists) {
      if s.locals[j].id != 0 { ListedIfConsistent(s.locals[j], s.lists); }
      ConsistentIfListed(s'.locals[j], s'.lists, s'.nextID);
    }
  }

  lemma WithoutAt(ids: seq<ContractId>, i: nat)
    requires Distinct(ids) && i < |ids|
    ensures var r := ids[..i] + ids[i + 1..];
            Distinct(r) && forall x :: x in r <==> x in ids && x != ids[i]
  {
    var r := ids[..i] + ids[i + 1..];
    assert forall k :: 0 <= k < |r| ==> r[k] == if k < i then ids[k] else ids[k + 1];
    forall x | x in ids && x != ids[i] ensures x in r {
      var k :| 0 <= k < |ids| && ids[k] == x;
      assert r[if k < i then k else k - 1] == x;
    }
  }

  lemma RemovalSound(ids: seq<ContractId>, id: ContractId)
    requires Distinct(ids)
    ensures Distinct(RemoveFirst(ids, id)) && id !in RemoveFirst(ids, id)
    ensures forall x :: x in RemoveFirst(ids, id) <==> x in ids && x != id
  {
    if id in ids {
      var i :| 0 <= i < |ids| && ids[i] == id;
      assert id !in ids[..i];
      RemoveFirstAt(ids, i);
      WithoutAt(ids, i);
    }
  }

  lemma CancelKeeps<K>(s: Memory<K>, s': Memory<K>, k: K)
    requires Agrees(s) && CancelStep(s, s', k)
    ensures Agrees(s')
    ensures s.locals[k].id !in On(s'.lists, s.locals[k].node)
  {
    var node, id := s.locals[k].node, s.locals[k].id;
    RemovalSound(On(s.lists, node), id);
    forall n | n in s'.lists
      ensures Distinct(s'.lists[n]) && forall i :: 0 <= i < |s'.lists[n]| ==> s'.lists[n][i] < s'.nextID
    {
      if n == node {
        forall i | 0 <= i < |s'.lists[n]| ensures s'.lists[n][i] < s'.nextID {
          assert s'.lists[n][i] in s'.lists[n] && s'.lists[n][i] in On(s.lists, node);
        }
      }
    }
    forall j | j in s'.locals ensures Consistent(s'.locals[j], s'.lists) {
      if j != k && s.locals[j].id != 0 {
        ListedIfConsistent(s.locals[j], s.lists);
        if id != 0 { ListedIfConsistent(s.locals[k], s.lists); }
      }
      ConsistentIfListed(s'.locals[j], s'.lists, s'.nextID);
    }
  }

  lemma IdleKeeps<K>(s: Memory<K>, s': Memory<K>, k: K)
    requires Agrees(s) && IdleStep(s, s', k)
    ensures Agrees(s')
  {
  }

  lemma NextKeeps<K>(s: Memory<K>, s': Memory<K>, k: K)
    requires Agrees(s) && Next(s, s', k)
    ensures Agrees(s')
  {
    if DeployStep(s, s', k) {
      DeployKeeps(s, s', k);
    } else if CancelStep(s, s', k) {
      CancelKeeps(s, s', k);
    } else {
      IdleKeeps(s, s', k);
    }
  }

  ghost predicate Steps<K>(s: Memory<K>, s': Memory<K>) {
    exists k :: k in s.locals && Next(s, s', k)
  }

  /** A run: every state follows from the one before by a call on one of the objects. */
  ghost predicate IsRun<K>(run: seq<Memory<K>>) {
    forall i :: 0 <= i < |run| - 1 ==> Steps(run[i], run[i + 1])
  }

  /** Local state agrees over every run that starts agreeing. */
  lemma {:induction false} AgreesOverRuns<K>(run: seq<Memory<K>>, n: nat)
    requires n < |run| && IsRun(run) && Agrees(run[0])
    ensures Agrees(run[n])
    decreases n
  {
    if n > 0 {
      AgreesOverRuns(run, n - 1);
      assert Steps(run[n - 1], run[n - 1 + 1]);
      var k :| k in run[n - 1].locals && Next(run[n - 1], run[n], k);
      NextKeeps(run[n - 1], run[n], k);
    }
  }
}
