/** A user's deployment object, and the sort that restores its declared order after reading it back. */
module Matching {
  import opened Wrappers
  import opened GridTypes
  import opened Workloads
  import opened Slices

  class UserDeployment {
    const Name: string
    const NodeID: NodeId
    const NetworkName: string
    var Disks: seq<Disk>
    var Zdbs: seq<Zdb>
    var Vms: seq<VM>
    var QSFS: seq<Qsfs>
    var NodeDeploymentID: map<NodeId, ContractId>
    var ContractID: ContractId

    constructor (
        name: string, node: NodeId, network: string, disks: seq<Disk>, zdbs: seq<Zdb>, vms: seq<VM>, qsfs: seq<Qsfs>)
      ensures Name == name && NodeID == node && NetworkName == network
      ensures Disks == disks && Zdbs == zdbs && Vms == vms && QSFS == qsfs
      ensures NodeDeploymentID == map[] && ContractID == 0
    {
      Name, NodeID, NetworkName := name, node, network;
      Disks, Zdbs, Vms, QSFS := disks, zdbs, vms, qsfs;
      NodeDeploymentID, ContractID := map[], 0;
    }

    function Declared(): Declaration
      reads `Disks, `Zdbs, `Vms, `QSFS
    {
      Declaration(Disks, Zdbs, Vms, QSFS)
    }

    method Nullify()
      modifies this`Vms, this`QSFS, this`Disks, this`Zdbs, this`ContractID
      ensures Declared() == Declaration([], [], [], []) && ContractID == 0
    {
      Vms, QSFS, Disks, Zdbs := [], [], [], [];
      ContractID := 0;
    }
  }

  /** The four declared lists. */
  datatype Declaration = Declaration(disks: seq<Disk>, zdbs: seq<Zdb>, vms: seq<VM>, qsfs: seq<Qsfs>) {
    function Size(): nat { |disks| + |qsfs| + |zdbs| + |vms| }
  }

  type Ranks = map<string, int>

  // ----- Ranks by name -----

  /** Names in order of declaration. */
  function NamesInOrder<T>(xs: seq<T>, name: T -> string): seq<string> {
    seq(|xs|, i requires 0 <= i < |xs| => name(xs[i]))
  }

  /** The ranks after recording a list of names: position minus `l`, later ones overwriting. */
  function RankNames(ranks: Ranks, names: seq<string>, l: nat): Ranks {
    if names == [] then ranks
    else RankNames(ranks, names[..|names| - 1], l)[names[|names| - 1] := |names| - 1 - l]
  }

  function Rank(ranks: Ranks, name: string): int {
    if name in ranks then ranks[name] else 0
  }

  method RecordNames(ranks: Ranks, names: seq<string>, l: nat) returns (r: Ranks)
    ensures r == RankNames(ranks, names, l)
  {
    r := ranks;
    for idx := 0 to |names|
      invariant r == RankNames(ranks, names[..idx], l)
    {
      assert names[..idx + 1][..idx] == names[..idx];
      r := r[names[idx] := idx - l];
    }
    assert names[..|names|] == names;
  }

  ghost predicate Apart(names: seq<string>, others: seq<string>) {
    forall n :: n in names ==> n !in others
  }

  /** Recorded names get their position; names of other lists keep what they had. */
  lemma {:induction false} RanksArePositions(ranks: Ranks, names: seq<string>, l: nat)
    requires Distinct(names)
    ensures forall i :: 0 <= i < |names| ==>
            names[i] in RankNames(ranks, names, l) && RankNames(ranks, names, l)[names[i]] == i - l
    ensures forall n :: n !in names ==>
              (n in RankNames(ranks, names, l) <==> n in ranks) &&
                  (n in ranks ==> RankNames(ranks, names, l)[n] == ranks[n])
    decreases |names|
  {
    if names != [] {
      var init := names[..|names| - 1];
      assert names == init + [names[|names| - 1]];
      RanksArePositions(ranks, init, l);
    }
  }

  const DISK_NAME := (d: Disk) => d.name
  const ZDB_NAME := (z: Zdb) => z.name
  const VM_NAME := (v: VM) => v.name
  const QSFS_NAME := (q: Qsfs) => q.name

  /** The rank of every declared name, list by list in the order the lists are recorded. */
  function DeclaredRanks(d: Declaration): Ranks {
    var l := d.Size();
    var r1 := RankNames(map[], NamesInOrder(d.disks, DISK_NAME), l);
    var r2 := RankNames(r1, NamesInOrder(d.qsfs, QSFS_NAME), l);
    var r3 := RankNames(r2, NamesInOrder(d.zdbs, ZDB_NAME), l);
    RankNames(r3, NamesInOrder(d.vms, VM_NAME), l)
  }

  /** Names are distinct within and across the four lists. */
  ghost predicate DistinctNames(d: Declaration) {
    var disks, qsfs, zdbs, vms :=
      NamesInOrder(d.disks, DISK_NAME), NamesInOrder(d.qsfs, QSFS_NAME), NamesInOrder(d.zdbs, ZDB_NAME),
          NamesInOrder(d.vms, VM_NAME);
    && Distinct(disks) && Distinct(qsfs) && Distinct(zdbs) && Distinct(vms)
    && Apart(disks, qsfs) && Apart(disks, zdbs) && Apart(disks, vms)
    && Apart(qsfs, zdbs) && Apart(qsfs, vms) && Apart(zdbs, vms)
  }

  /** A list is ranked by position: negative in declared order, zero for names it does not know. */
  ghost predicate RankedByPosition(ranks: Ranks, names: seq<string>, l: nat) {
    && |names| <= l
    && forall i :: 0 <= i < |names| ==> Rank(ranks, names[i]) == i - l
  }

  lemma DeclaredRanksArePositions(d: Declaration)
    requires DistinctNames(d)
    ensures RankedByPosition(DeclaredRanks(d), NamesInOrder(d.disks, DISK_NAME), d.Size())
    ensures RankedByPosition(DeclaredRanks(d), NamesInOrder(d.qsfs, QSFS_NAME), d.Size())
    ensures RankedByPosition(DeclaredRanks(d), NamesInOrder(d.zdbs, ZDB_NAME), d.Size())
    ensures RankedByPosition(DeclaredRanks(d), NamesInOrder(d.vms, VM_NAME), d.Size())
    ensures forall n :: n in DeclaredRanks(d) <==>
              || n in NamesInOrder(d.disks, DISK_NAME) || n in NamesInOrder(d.qsfs, QSFS_NAME)
              || n in NamesInOrder(d.zdbs, ZDB_NAME) || n in NamesInOrder(d.vms, VM_NAME)
  {
    var l := d.Size();
    var disks, qsfs, zdbs, vms :=
      NamesInOrder(d.disks, DISK_NAME), NamesInOrder(d.qsfs, QSFS_NAME), NamesInOrder(d.zdbs, ZDB_NAME),
          NamesInOrder(d.vms, VM_NAME);
    var r1 := RankNames(map[], disks, l);
    var r2 := RankNames(r1, qsfs, l);
    var r3 := RankNames(r2, zdbs, l);
    RanksArePositions(map[], disks, l);
    RanksArePositions(r1, qsfs, l);
    RanksArePositions(r2, zdbs, l);
    RanksArePositions(r3, vms, l);
  }

  function ByName<T>(ranks: Ranks, name: T -> string): T -> int {
    (x: T) => Rank(ranks, name(x))
  }

  /**
   * A sorted list holds its known elements first, in declared order, and the unknown ones after: this
   * is all that is promised when some elements were not declared.
   */
  lemma SortedMeansDeclaredOrder<T(!new)>(xs: seq<T>, name: T -> string, ranks: Ranks, declared: seq<string>,
      l: nat, i: nat, j: nat)
    requires SortedBy(xs, ByName(ranks, name)) && RankedByPosition(ranks, declared, l)
    requires forall x :: x in xs && name(x) in ranks ==> name(x) in declared
    requires i < j < |xs| && name(xs[j]) in ranks
    ensures name(xs[i]) in ranks
    ensures exists m, n :: 0 <= m <= n < |declared| && declared[m] == name(xs[i]) && declared[n] == name(xs[j])
  {
    assert ByName(ranks, name)(xs[i]) <= ByName(ranks, name)(xs[j]);
    var n :| 0 <= n < |declared| && declared[n] == name(xs[j]);
    assert Rank(ranks, declared[n]) == n - l < 0;
    assert name(xs[i]) in ranks;
    assert xs[i] in xs;
    var m :| 0 <= m < |declared| && declared[m] == name(xs[i]);
    assert Rank(ranks, declared[m]) == m - l;
    assert declared[m] == name(xs[i]) && declared[n] == name(xs[j]);
  }

  /** Any permutation of the declared list sorts to exactly that list. */
  lemma PermutationSortsToDeclared<T(!new)>(xs: seq<T>, declared: seq<T>, name: T -> string, ranks: Ranks, l: nat)
    requires multiset(xs) == multiset(declared) && SortedBy(xs, ByName(ranks, name))
    requires RankedByPosition(ranks, NamesInOrder(declared, name), l)
    ensures xs == declared
  {
    var names := NamesInOrder(declared, name);
    forall i, j | 0 <= i < j < |declared| ensures ByName(ranks, name)(declared[i]) < ByName(ranks, name)(declared[j]) {
      assert Rank(ranks, names[i]) == i - l && Rank(ranks, names[j]) == j - l;
    }
    SortedPermutationIsUnique(xs, declared, ByName(ranks, name));
  }

  // ----- One machine -----

  const ZLOG_OUTPUT := (z: Zlog) => z.output
  const MOUNT_DISK := (m: Mount) => m.diskName

  /** Log outputs and mounted disks share one rank map. */
  function PartRanks(vm: VM): Ranks {
    var l := |vm.zlogs| + |vm.mounts|;
    RankNames(RankNames(map[], NamesInOrder(vm.zlogs, ZLOG_OUTPUT), l), NamesInOrder(vm.mounts, MOUNT_DISK), l)
  }

  ghost predicate DistinctParts(vm: VM) {
    var outputs, disks := NamesInOrder(vm.zlogs, ZLOG_OUTPUT), NamesInOrder(vm.mounts, MOUNT_DISK);
    Distinct(outputs) && Distinct(disks) && Apart(outputs, disks)
  }

  /** `r` is `vm` with its logs and mounts sorted by the declared machine's ranks, and its checksum. */
  ghost predicate Loaded(r: VM, vm: VM, declared: VM) {
    && r == vm.(zlogs := r.zlogs, mounts := r.mounts, flistChecksum := declared.flistChecksum)
    && multiset(r.zlogs) == multiset(vm.zlogs) && multiset(r.mounts) == multiset(vm.mounts)
    && SortedBy(r.zlogs, ByName(PartRanks(declared), ZLOG_OUTPUT))
    && SortedBy(r.mounts, ByName(PartRanks(declared), MOUNT_DISK))
  }

  method SortSeq<T(0,!new)>(xs: seq<T>, rank: T -> int) returns (r: seq<T>)
    ensures multiset(r) == multiset(xs) && SortedBy(r, rank)
  {
    var a := new T[|xs|](i requires 0 <= i < |xs| => xs[i]);
    assert a[..] == xs;
    SortSlice(a, rank);
    r := a[..];
  }

  method LoadFromVM(vm: VM, declared: VM) returns (r: VM)
    ensures Loaded(r, vm, declared)
  {
    var l := |declared.zlogs| + |declared.mounts|;
    var ranks := RecordNames(map[], NamesInOrder(declared.zlogs, ZLOG_OUTPUT), l);
    ranks := RecordNames(ranks, NamesInOrder(declared.mounts, MOUNT_DISK), l);
    var zlogs := SortSeq(vm.zlogs, ByName(ranks, ZLOG_OUTPUT));
    var mounts := SortSeq(vm.mounts, ByName(ranks, MOUNT_DISK));
    r := vm.(zlogs := zlogs, mounts := mounts, flistChecksum := declared.flistChecksum);
  }

  /** Loading restores the declared logs, mounts and checksum of a machine read back from any order. */
  lemma LoadingRestores(r: VM, vm: VM, declared: VM)
    requires Loaded(r, vm, declared) && DistinctParts(declared)
    requires multiset(vm.zlogs) == multiset(declared.zlogs) && multiset(vm.mounts) == multiset(declared.mounts)
    ensures r == vm.(zlogs := declared.zlogs, mounts := declared.mounts, flistChecksum := declared.flistChecksum)
  {
    var l := |declared.zlogs| + |declared.mounts|;
    var outputs, disks := NamesInOrder(declared.zlogs, ZLOG_OUTPUT), NamesInOrder(declared.mounts, MOUNT_DISK);
    RanksArePositions(map[], outputs, l);
    RanksArePositions(RankNames(map[], outputs, l), disks, l);
    PermutationSortsToDeclared(r.zlogs, declared.zlogs, ZLOG_OUTPUT, PartRanks(declared), l);
    PermutationSortsToDeclared(r.mounts, declared.mounts, MOUNT_DISK, PartRanks(declared), l);
  }

  // ----- The four lists -----

  /** The last declared machine of a name. */
  function Find(vms: seq<VM>, name: string): Option<VM> {
    if vms == [] then None
    else if vms[|vms| - 1].name == name then Some(vms[|vms| - 1])
    else Find(vms[..|vms| - 1], name)
  }

  lemma {:induction false} FindsOwn(vms: seq<VM>, i: nat)
    requires i < |vms| && Distinct(NamesInOrder(vms, VM_NAME))
    ensures Find(vms, vms[i].name) == Some(vms[i])
    decreases |vms|
  {
    if i < |vms| - 1 {
      var init, names := vms[..|vms| - 1], NamesInOrder(vms, VM_NAME);
      assert names[i] != names[|vms| - 1];
      forall m, n | 0 <= m < n < |init| ensures NamesInOrder(init, VM_NAME)[m] != NamesInOrder(init, VM_NAME)[n] {
        assert names[m] != names[n];
      }
      FindsOwn(init, i);
    }
  }

  /** The machines after loading: each known one from its declaration. */
  ghost predicate LoadedAll(r: seq<VM>, sorted: seq<VM>, declared: seq<VM>) {
    && |r| == |sorted|
    && forall i :: 0 <= i < |r| ==>
         match Find(declared, sorted[i].name)
         case None => r[i] == sorted[i]
         case Some(d) => Loaded(r[i], sorted[i], d)
  }

  method LoadMachines(vms: array<VM>, declared: seq<VM>)
    modifies vms
    ensures LoadedAll(vms[..], old(vms[..]), declared)
  {
    var vmMap: map<string, VM> := map[];
    for idx := 0 to |declared|
      invariant forall name :: (if name in vmMap then Some(vmMap[name]) else None) == Find(declared[..idx], name)
      modifies {}
    {
      assert declared[..idx + 1][..idx] == declared[..idx];
      vmMap := vmMap[declared[idx].name := declared[idx]];
    }
    assert declared[..|declared|] == declared;
    ghost var sorted := vms[..];
    for idx := 0 to vms.Length
      invariant forall i :: idx <= i < vms.Length ==> vms[i] == sorted[i]
      invariant LoadedAll(vms[..idx], sorted[..idx], declared)
    {
      assert vms[idx] == sorted[idx];
      if vms[idx].name in vmMap {
        var loaded := LoadFromVM(vms[idx], vmMap[vms[idx].name]);
        vms[idx] := loaded;
      }
      assert vms[..idx + 1][..idx] == vms[..idx];
    }
    assert vms[..vms.Length] == vms[..] && sorted[..vms.Length] == sorted;
  }

  /** `Match`: sorts the four slices in place by declared rank, then loads the machines. */
  method Match(dl: Declaration, disks: array<Disk>, qsfs: array<Qsfs>, zdbs: array<Zdb>, vms: array<VM>)
    returns (ghost sorted: seq<VM>)
    modifies disks, qsfs, zdbs, vms
    ensures multiset(disks[..]) == multiset(old(disks[..])) && SortedBy(disks[..], ByName(DeclaredRanks(dl), DISK_NAME))
    ensures multiset(qsfs[..]) == multiset(old(qsfs[..])) && SortedBy(qsfs[..], ByName(DeclaredRanks(dl), QSFS_NAME))
    ensures multiset(zdbs[..]) == multiset(old(zdbs[..])) && SortedBy(zdbs[..], ByName(DeclaredRanks(dl), ZDB_NAME))
    ensures multiset(sorted) == multiset(old(vms[..])) && SortedBy(sorted, ByName(DeclaredRanks(dl), VM_NAME))
    ensures LoadedAll(vms[..], sorted, dl.vms)
  {
    var l := |dl.disks| + |dl.qsfs| + |dl.zdbs| + |dl.vms|;
    var names := RecordNames(map[], NamesInOrder(dl.disks, DISK_NAME), l);
    names := RecordNames(names, NamesInOrder(dl.qsfs, QSFS_NAME), l);
    names := RecordNames(names, NamesInOrder(dl.zdbs, ZDB_NAME), l);
    names := RecordNames(names, NamesInOrder(dl.vms, VM_NAME), l);
    SortSlice(disks, ByName(names, DISK_NAME));
    SortSlice(qsfs, ByName(names, QSFS_NAME));
    SortSlice(zdbs, ByName(names, ZDB_NAME));
    SortSlice(vms, ByName(names, VM_NAME));
    sorted := vms[..];
    LoadMachines(vms, dl.vms);
  }
}
