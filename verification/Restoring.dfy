/**
 * Declaring, flattening, deploying and reading back gives the declaration again, with the computed
 * fields the nodes answered, whatever order the workloads come back in.
 */
module Restoring {
  import opened Wrappers
  import opened GridTypes
  import opened Units
  import opened Workloads
  import opened Slices
  import opened Collecting
  import opened Matching
  import opened ReadBack
  import opened Reading
  import opened RoundTrip

  /** What a declaration must satisfy to survive the round trip. */
  ghost predicate Restorable(t: Texts, d: Declaration) {
    && DistinctNames(d)
    && (forall k :: k in d.disks ==> SizeFits(k.sizeGB, GIGABYTE))
    && (forall z :: z in d.zdbs ==> SizeFits(z.size, GIGABYTE))
    && (forall q :: q in d.qsfs ==> QsfsKept(q))
    && (forall vm :: vm in d.vms ==> VMKept(t, vm) && OwnLogs(vm) && DistinctParts(vm))
  }

  /** `ws` is what the node holds after deploying `d`: its answers, in any order. */
  ghost predicate Returned(t: Texts, d: Declaration, answer: Answer, ws: seq<Workload>) {
    && Flatten(t, d).Some?
    && AnsweredBy(Flatten(t, d).value, answer)
    && multiset(ws) == multiset(Via(Flatten(t, d).value, answer))
  }

  /** The declaration with every computed field the node answered. */
  function ObservedDeclaration(answer: Answer, d: Declaration): Declaration {
    Declaration(d.disks, ObservedZdbs(answer, d.zdbs), ObservedAll(answer, d.vms), ObservedQsfses(answer, d.qsfs))
  }

  // ----- One segment of the flat list per reader -----

  lemma FourParts<T>(
      a: seq<Workload>, b: seq<Workload>, c: seq<Workload>, d: seq<Workload>, answer: Answer, ws: seq<Workload>,
      f: Workload -> Option<T>)
    requires multiset(ws) == multiset(Via(a + b + c + d, answer))
    ensures multiset(Collect(ws, f))
         == multiset(Collect(Via(a, answer), f)) + multiset(Collect(Via(b, answer), f))
          + multiset(Collect(Via(c, answer), f)) + multiset(Collect(Via(d, answer), f))
  {
    CollectPermutes(ws, Via(a + b + c + d, answer), f);
    ReadConcat(a + b + c, d, answer, f);
    ReadConcat(a + b, c, answer, f);
    ReadConcat(a, b, answer, f);
  }

  lemma PartsAnswered(t: Texts, d: Declaration, answer: Answer)
    requires Flatten(t, d).Some? && AnsweredBy(Flatten(t, d).value, answer)
    ensures AnsweredBy(DiskWorkloads(d.disks), answer) && AnsweredBy(ZdbWorkloads(d.zdbs), answer)
    ensures AnsweredBy(AllVMWorkloads(t, d.vms), answer)
    ensures QsfsWorkloads(d.qsfs).Some? && AnsweredBy(QsfsWorkloads(d.qsfs).value, answer)
    ensures forall w :: w in AllVMWorkloads(t, d.vms) ==> w in Flatten(t, d).value
  {
    var a, b, c, q := DiskWorkloads(d.disks), ZdbWorkloads(d.zdbs), AllVMWorkloads(t, d.vms),
        QsfsWorkloads(d.qsfs).value;
    assert forall w :: w in a || w in b || w in c || w in q ==> w in a + b + c + q;
  }

  /** The four segments of the flat list hold data of different kinds. */
  ghost predicate Segments(t: Texts, d: Declaration) {
    && (forall w :: w in DiskWorkloads(d.disks) ==> w.data.ZMount?)
    && (forall w :: w in ZdbWorkloads(d.zdbs) ==> w.data.ZDB?)
    && (forall w :: w in AllVMWorkloads(t, d.vms) ==> w.data.PublicIP? || w.data.ZLogs? || w.data.ZMachine?)
    && (QsfsWorkloads(d.qsfs).Some? ==> forall w :: w in QsfsWorkloads(d.qsfs).value ==> w.data.QuantumSafeFS?)
  }

  lemma SegmentsHold(t: Texts, d: Declaration, answer: Answer)
    requires Restorable(t, d) && Flatten(t, d).Some? && AnsweredBy(Flatten(t, d).value, answer)
    ensures Segments(t, d)
  {
    PartsAnswered(t, d, answer);
    DisksReadBack(d.disks, answer);
    ZdbsReadBack(d.zdbs, answer);
    forall w | w in QsfsWorkloads(d.qsfs).value ensures w.data.QuantumSafeFS? { QsfsKinds(d.qsfs, w); }
    forall w | w in AllVMWorkloads(t, d.vms) ensures w.data.PublicIP? || w.data.ZLogs? || w.data.ZMachine? {
      MachinePartsAre(t, d.vms, w);
    }
  }

  lemma OthersAreNoDisk(t: Texts, d: Declaration, answer: Answer)
    requires Restorable(t, d) && Flatten(t, d).Some? && AnsweredBy(Flatten(t, d).value, answer)
    ensures Collect(Via(ZdbWorkloads(d.zdbs), answer), OkDisk) == []
    ensures Collect(Via(AllVMWorkloads(t, d.vms), answer), OkDisk) == []
    ensures Collect(Via(QsfsWorkloads(d.qsfs).value, answer), OkDisk) == []
  {
    PartsAnswered(t, d, answer);
    SegmentsHold(t, d, answer);
    ReadNothing(ZdbWorkloads(d.zdbs), answer, OkDisk);
    ReadNothing(AllVMWorkloads(t, d.vms), answer, OkDisk);
    ReadNothing(QsfsWorkloads(d.qsfs).value, answer, OkDisk);
  }

  lemma DisksReturn(t: Texts, d: Declaration, answer: Answer, ws: seq<Workload>)
    requires Restorable(t, d) && Returned(t, d, answer, ws)
    ensures multiset(Collect(ws, OkDisk)) == multiset(d.disks)
  {
    PartsAnswered(t, d, answer);
    OthersAreNoDisk(t, d, answer);
    DisksReadBack(d.disks, answer);
    FourParts(DiskWorkloads(d.disks), ZdbWorkloads(d.zdbs), AllVMWorkloads(t, d.vms), QsfsWorkloads(d.qsfs).value,
        answer, ws, OkDisk);
  }

  lemma OthersAreNoZdb(t: Texts, d: Declaration, answer: Answer)
    requires Restorable(t, d) && Flatten(t, d).Some? && AnsweredBy(Flatten(t, d).value, answer)
    ensures Collect(Via(DiskWorkloads(d.disks), answer), OkZdb) == []
    ensures Collect(Via(AllVMWorkloads(t, d.vms), answer), OkZdb) == []
    ensures Collect(Via(QsfsWorkloads(d.qsfs).value, answer), OkZdb) == []
  {
    PartsAnswered(t, d, answer);
    SegmentsHold(t, d, answer);
    ReadNothing(DiskWorkloads(d.disks), answer, OkZdb);
    ReadNothing(AllVMWorkloads(t, d.vms), answer, OkZdb);
    ReadNothing(QsfsWorkloads(d.qsfs).value, answer, OkZdb);
  }

  lemma ZdbsReturn(t: Texts, d: Declaration, answer: Answer, ws: seq<Workload>)
    requires Restorable(t, d) && Returned(t, d, answer, ws)
    ensures multiset(Collect(ws, OkZdb)) == multiset(ObservedZdbs(answer, d.zdbs))
  {
    PartsAnswered(t, d, answer);
    OthersAreNoZdb(t, d, answer);
    ZdbsReadBack(d.zdbs, answer);
    FourParts(DiskWorkloads(d.disks), ZdbWorkloads(d.zdbs), AllVMWorkloads(t, d.vms), QsfsWorkloads(d.qsfs).value,
        answer, ws, OkZdb);
  }

  lemma OthersAreNoQsfs(t: Texts, d: Declaration, answer: Answer)
    requires Restorable(t, d) && Flatten(t, d).Some? && AnsweredBy(Flatten(t, d).value, answer)
    ensures Collect(Via(DiskWorkloads(d.disks), answer), OkQsfs) == []
    ensures Collect(Via(ZdbWorkloads(d.zdbs), answer), OkQsfs) == []
    ensures Collect(Via(AllVMWorkloads(t, d.vms), answer), OkQsfs) == []
  {
    PartsAnswered(t, d, answer);
    SegmentsHold(t, d, answer);
    ReadNothing(DiskWorkloads(d.disks), answer, OkQsfs);
    ReadNothing(ZdbWorkloads(d.zdbs), answer, OkQsfs);
    ReadNothing(AllVMWorkloads(t, d.vms), answer, OkQsfs);
  }

  lemma QsfsesReturn(t: Texts, d: Declaration, answer: Answer, ws: seq<Workload>)
    requires Restorable(t, d) && Returned(t, d, answer, ws)
    ensures multiset(Collect(ws, OkQsfs)) == multiset(ObservedQsfses(answer, d.qsfs))
  {
    PartsAnswered(t, d, answer);
    OthersAreNoQsfs(t, d, answer);
    QsfsesReadBack(d.qsfs, answer);
    FourParts(DiskWorkloads(d.disks), ZdbWorkloads(d.zdbs), AllVMWorkloads(t, d.vms), QsfsWorkloads(d.qsfs).value,
        answer, ws, OkQsfs);
  }

  lemma OthersAreNoMachines(t: Texts, d: Declaration, answer: Answer, ws: seq<Workload>)
    requires Restorable(t, d) && Flatten(t, d).Some? && AnsweredBy(Flatten(t, d).value, answer)
    ensures Collect(Via(DiskWorkloads(d.disks), answer), VMReader(t, ws)) == []
    ensures Collect(Via(ZdbWorkloads(d.zdbs), answer), VMReader(t, ws)) == []
    ensures Collect(Via(QsfsWorkloads(d.qsfs).value, answer), VMReader(t, ws)) == []
  {
    PartsAnswered(t, d, answer);
    SegmentsHold(t, d, answer);
    ReadNothing(DiskWorkloads(d.disks), answer, VMReader(t, ws));
    ReadNothing(ZdbWorkloads(d.zdbs), answer, VMReader(t, ws));
    ReadNothing(QsfsWorkloads(d.qsfs).value, answer, VMReader(t, ws));
  }

  lemma MachinesReturn(t: Texts, d: Declaration, answer: Answer, ws: seq<Workload>)
    requires Restorable(t, d) && Returned(t, d, answer, ws)
    ensures multiset(Collect(ws, VMReader(t, ws))) == multiset(RawAll(answer, ws, d.vms))
  {
    PartsAnswered(t, d, answer);
    OthersAreNoMachines(t, d, answer, ws);
    MachinesReadBack(t, Flatten(t, d).value, answer, ws, d.vms);
    FourParts(DiskWorkloads(d.disks), ZdbWorkloads(d.zdbs), AllVMWorkloads(t, d.vms), QsfsWorkloads(d.qsfs).value,
        answer, ws,
              VMReader(t, ws));
  }

  /** Only the machines' segment holds logs. */
  lemma OnlyMachinesLog(t: Texts, d: Declaration, answer: Answer, name: string)
    requires Restorable(t, d) && Flatten(t, d).Some? && AnsweredBy(Flatten(t, d).value, answer)
    ensures Collect(Via(DiskWorkloads(d.disks), answer), ZlogReader(name)) == []
    ensures Collect(Via(ZdbWorkloads(d.zdbs), answer), ZlogReader(name)) == []
    ensures Collect(Via(QsfsWorkloads(d.qsfs).value, answer), ZlogReader(name)) == []
  {
    PartsAnswered(t, d, answer);
    SegmentsHold(t, d, answer);
    ReadNothing(DiskWorkloads(d.disks), answer, ZlogReader(name));
    ReadNothing(ZdbWorkloads(d.zdbs), answer, ZlogReader(name));
    ReadNothing(QsfsWorkloads(d.qsfs).value, answer, ZlogReader(name));
  }

  /** A machine gets all its logs back, and no one else's. */
  lemma LogsReturn(t: Texts, d: Declaration, answer: Answer, ws: seq<Workload>, i: nat)
    requires Restorable(t, d) && Returned(t, d, answer, ws) && i < |d.vms|
    ensures multiset(ZlogsFrom(ws, d.vms[i].name)) == multiset(d.vms[i].zlogs)
  {
    var name := d.vms[i].name;
    PartsAnswered(t, d, answer);
    OnlyMachinesLog(t, d, answer, name);
    FindsOwn(d.vms, i);
    LogsOfMachines(t, d.vms, answer, name);
    FourParts(DiskWorkloads(d.disks), ZdbWorkloads(d.zdbs), AllVMWorkloads(t, d.vms), QsfsWorkloads(d.qsfs).value,
        answer, ws,
              ZlogReader(name));
    ZlogsAreCollected(ws, name);
  }

  // ----- Sorting and loading -----

  /** `got` is what matching makes of the lists read from `ws`; the machines were sorted to `sorted` before loading. */
  ghost predicate Matched(t: Texts, d: Declaration, ws: seq<Workload>, got: Declaration, sorted: seq<VM>) {
    var ranks := DeclaredRanks(d);
    && multiset(got.disks) == multiset(Collect(ws, OkDisk)) && SortedBy(got.disks, ByName(ranks, DISK_NAME))
    && multiset(got.qsfs) == multiset(Collect(ws, OkQsfs)) && SortedBy(got.qsfs, ByName(ranks, QSFS_NAME))
    && multiset(got.zdbs) == multiset(Collect(ws, OkZdb)) && SortedBy(got.zdbs, ByName(ranks, ZDB_NAME))
    && multiset(sorted) == multiset(Collect(ws, VMReader(t, ws))) && SortedBy(sorted, ByName(ranks, VM_NAME))
    && LoadedAll(got.vms, sorted, d.vms)
  }

  /** Matching the lists read from `ws`, in place, gives a match. */
  method MatchRead(t: Texts, d: Declaration, ghost ws: seq<Workload>, r: Declaration)
    returns (got: Declaration, ghost sorted: seq<VM>)
    requires r == ReadAll(t, ws, ws)
    ensures Matched(t, d, ws, got, sorted)
    ensures |got.disks| == |r.disks| && |got.zdbs| == |r.zdbs| && |got.vms| == |r.vms| && |got.qsfs| == |r.qsfs|
  {
    var disks := new Disk[|r.disks|](i requires 0 <= i < |r.disks| => r.disks[i]);
    var qsfs := new Qsfs[|r.qsfs|](i requires 0 <= i < |r.qsfs| => r.qsfs[i]);
    var zdbs := new Zdb[|r.zdbs|](i requires 0 <= i < |r.zdbs| => r.zdbs[i]);
    var vms := new VM[|r.vms|](i requires 0 <= i < |r.vms| => r.vms[i]);
    assert disks[..] == r.disks && qsfs[..] == r.qsfs && zdbs[..] == r.zdbs && vms[..] == r.vms;
    sorted := Match(d, disks, qsfs, zdbs, vms);
    got := Declaration(disks[..], zdbs[..], vms[..], qsfs[..]);
  }

  /** Loading the sorted machines gives each its declared logs, mounts and checksum back. */
  lemma LoadedAreObserved(t: Texts, d: Declaration, answer: Answer, ws: seq<Workload>, vms: seq<VM>, i: nat)
    requires Restorable(t, d) && Returned(t, d, answer, ws) && i < |d.vms|
    requires LoadedAll(vms, RawAll(answer, ws, d.vms), d.vms)
    ensures |vms| == |d.vms| && vms[i] == Observed(answer, d.vms[i])
  {
    FindsOwn(d.vms, i);
    LogsReturn(t, d, answer, ws, i);
    assert RawAll(answer, ws, d.vms)[i] == Raw(answer, ws, d.vms[i]);
    LoadingRestores(vms[i], Raw(answer, ws, d.vms[i]), d.vms[i]);
  }

  lemma LoadedAllObserved(t: Texts, d: Declaration, answer: Answer, ws: seq<Workload>, vms: seq<VM>)
    requires Restorable(t, d) && Returned(t, d, answer, ws) && LoadedAll(vms, RawAll(answer, ws, d.vms), d.vms)
    ensures vms == ObservedAll(answer, d.vms)
  {
    forall i | 0 <= i < |d.vms| ensures vms[i] == Observed(answer, d.vms[i]) {
      LoadedAreObserved(t, d, answer, ws, vms, i);
    }
  }

  lemma ZdbsSortBack(d: Declaration, answer: Answer, got: seq<Zdb>)
    requires DistinctNames(d) && multiset(got) == multiset(ObservedZdbs(answer, d.zdbs))
    requires SortedBy(got, ByName(DeclaredRanks(d), ZDB_NAME))
    ensures got == ObservedZdbs(answer, d.zdbs)
  {
    DeclaredRanksArePositions(d);
    assert NamesInOrder(ObservedZdbs(answer, d.zdbs), ZDB_NAME) == NamesInOrder(d.zdbs, ZDB_NAME);
    PermutationSortsToDeclared(got, ObservedZdbs(answer, d.zdbs), ZDB_NAME, DeclaredRanks(d), d.Size());
  }

  lemma QsfsesSortBack(d: Declaration, answer: Answer, got: seq<Qsfs>)
    requires DistinctNames(d) && multiset(got) == multiset(ObservedQsfses(answer, d.qsfs))
    requires SortedBy(got, ByName(DeclaredRanks(d), QSFS_NAME))
    ensures got == ObservedQsfses(answer, d.qsfs)
  {
    DeclaredRanksArePositions(d);
    assert NamesInOrder(ObservedQsfses(answer, d.qsfs), QSFS_NAME) == NamesInOrder(d.qsfs, QSFS_NAME);
    PermutationSortsToDeclared(got, ObservedQsfses(answer, d.qsfs), QSFS_NAME, DeclaredRanks(d), d.Size());
  }

  lemma MachinesSortBack(d: Declaration, answer: Answer, ws: seq<Workload>, sorted: seq<VM>)
    requires DistinctNames(d) && multiset(sorted) == multiset(RawAll(answer, ws, d.vms))
    requires SortedBy(sorted, ByName(DeclaredRanks(d), VM_NAME))
    ensures sorted == RawAll(answer, ws, d.vms)
  {
    DeclaredRanksArePositions(d);
    assert NamesInOrder(RawAll(answer, ws, d.vms), VM_NAME) == NamesInOrder(d.vms, VM_NAME);
    PermutationSortsToDeclared(sorted, RawAll(answer, ws, d.vms), VM_NAME, DeclaredRanks(d), d.Size());
  }

  lemma DisksRestored(t: Texts, d: Declaration, answer: Answer, ws: seq<Workload>, got: Declaration, sorted: seq<VM>)
    requires Restorable(t, d) && Returned(t, d, answer, ws) && Matched(t, d, ws, got, sorted)
    ensures got.disks == d.disks
  {
    DeclaredRanksArePositions(d);
    DisksReturn(t, d, answer, ws);
    PermutationSortsToDeclared(got.disks, d.disks, DISK_NAME, DeclaredRanks(d), d.Size());
  }

  lemma MachinesRestored(t: Texts, d: Declaration, answer: Answer, ws: seq<Workload>, got: Declaration, sorted: seq<VM>)
    requires Restorable(t, d) && Returned(t, d, answer, ws) && Matched(t, d, ws, got, sorted)
    ensures got.vms == ObservedAll(answer, d.vms)
  {
    MachinesReturn(t, d, answer, ws);
    MachinesSortBack(d, answer, ws, sorted);
    LoadedAllObserved(t, d, answer, ws, got.vms);
  }

  /**
   * The round trip: whatever order the workloads come back in, what is matched from them is the
   * declaration, in its declared order, with the computed fields the node answered.
   */
  lemma DeclarationIsRestored(t: Texts, d: Declaration, answer: Answer, ws: seq<Workload>, got: Declaration,
      sorted: seq<VM>)
    requires Restorable(t, d) && Returned(t, d, answer, ws) && Matched(t, d, ws, got, sorted)
    ensures got == ObservedDeclaration(answer, d)
  {
    DisksRestored(t, d, answer, ws, got, sorted);
    ZdbsReturn(t, d, answer, ws);
    ZdbsSortBack(d, answer, got.zdbs);
    QsfsesReturn(t, d, answer, ws);
    QsfsesSortBack(d, answer, got.qsfs);
    MachinesRestored(t, d, answer, ws, got, sorted);
  }
}
