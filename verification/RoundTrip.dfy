/** The round trip: what a declaration looks like after being printed, answered, shuffled and read back. */
module RoundTrip {
  import opened Wrappers
  import opened GridTypes
  import opened Slices
  import opened Workloads
  import opened Collecting
  import opened Matching
  import opened ReadBack

  // ----- Machines -----

  ghost predicate OwnLogs(vm: VM) {
    forall z :: z in vm.zlogs ==> z.zmachine == vm.name
  }

  /** The public addresses the node answered for a machine. */
  function IPsOf(answer: Answer, vm: VM): (r: ResultData)
    ensures r.PublicIPResult?
  {
    var w := At(answer, PublicIPName(vm));
    if PublicIPName(vm) != "" && w.result.data.PublicIPResult? then w.result.data else PublicIPResult(None, None)
  }

  function MachineResultOf(answer: Answer, vm: VM): (r: ResultData)
    ensures r.MachineResult?
  {
    var w := At(answer, vm.name);
    if w.result.data.MachineResult? then w.result.data else MachineResult("")
  }

  /** The declared machine with the addresses the node answered. */
  function Observed(answer: Answer, vm: VM): VM {
    ObservedVM(vm, IPsOf(answer, vm), MachineResultOf(answer, vm))
  }

  /** The same before its checksum is restored, and with its logs in the order the node returned them. */
  function Raw(answer: Answer, ws: seq<Workload>, vm: VM): VM {
    Observed(answer, vm).(flistChecksum := "", zlogs := ZlogsFrom(ws, vm.name))
  }

  function ObservedAll(answer: Answer, vms: seq<VM>): seq<VM> {
    seq(|vms|, i requires 0 <= i < |vms| => Observed(answer, vms[i]))
  }

  function RawAll(answer: Answer, ws: seq<Workload>, vms: seq<VM>): seq<VM> {
    seq(|vms|, i requires 0 <= i < |vms| => Raw(answer, ws, vms[i]))
  }

  lemma {:induction false} ZlogWorkloadsAre(t: Texts, zs: seq<Zlog>)
    ensures |ZlogWorkloads(t, zs)| == |zs|
    ensures forall i :: 0 <= i < |zs| ==> ZlogWorkloads(t, zs)[i] == ZlogWorkload(t, zs[i])
    decreases |zs|
  {
    if zs != [] { ZlogWorkloadsAre(t, zs[..|zs| - 1]); }
  }

  /** The workloads of a machine before the machine itself: its public IP and its logs. */
  function Extras(t: Texts, vm: VM): seq<Workload> {
    PublicIPWorkloads(vm) + ZlogWorkloads(t, vm.zlogs)
  }

  lemma ExtrasAreNoMachines(t: Texts, vm: VM, w: Workload)
    requires w in Extras(t, vm)
    ensures w.data.PublicIP? || (w.data.ZLogs? && Zlog(w.data.zmachine, w.data.output) in vm.zlogs)
  {
    ZlogWorkloadsAre(t, vm.zlogs);
    if w in ZlogWorkloads(t, vm.zlogs) {
      var i :| 0 <= i < |vm.zlogs| && ZlogWorkloads(t, vm.zlogs)[i] == w;
      assert vm.zlogs[i] in vm.zlogs;
    }
  }

  /** A machine's public addresses are found by name among whatever the node returned. */
  lemma AddressesAreFound(t: Texts, flat: seq<Workload>, answer: Answer, ws: seq<Workload>, vm: VM)
    requires AnsweredBy(flat, answer) && multiset(ws) == multiset(Via(flat, answer))
    requires forall w :: w in VMWorkloads(t, vm) ==> w in flat
    ensures PublicIPsOf(ws, PublicIPName(vm)) == IPsOf(answer, vm)
    ensures (IPsOf(answer, vm).ipv4.Some? <==> vm.publicIP) && (IPsOf(answer, vm).ipv6.Some? <==> vm.publicIP6)
  {
    assert MachineWorkload(t, vm) in VMWorkloads(t, vm);
    GetFindsAnswer(flat, answer, ws, MachineWorkload(t, vm));
    if PublicIPName(vm) != "" {
      var r := PublicIPWorkloads(vm)[0];
      assert r in VMWorkloads(t, vm);
      GetFindsAnswer(flat, answer, ws, r);
    }
  }

  /** The node's copy of a machine is read back, but for its checksum and the order of its logs. */
  lemma MachineIsRead(t: Texts, flat: seq<Workload>, answer: Answer, ws: seq<Workload>, vm: VM)
    requires AnsweredBy(flat, answer) && multiset(ws) == multiset(Via(flat, answer))
    requires (forall w :: w in VMWorkloads(t, vm) ==> w in flat) && VMKept(t, vm)
    ensures OkVM(t, ws, At(answer, vm.name)) == Some(Raw(answer, ws, vm))
  {
    assert MachineWorkload(t, vm) in VMWorkloads(t, vm);
    AddressesAreFound(t, flat, answer, ws, vm);
    VMRoundTrip(t, vm, answer[vm.name], ws);
  }

  lemma ExtrasAreSkipped(t: Texts, answer: Answer, ws: seq<Workload>, vm: VM)
    requires AnsweredBy(Extras(t, vm), answer)
    ensures Collect(Via(Extras(t, vm), answer), VMReader(t, ws)) == []
  {
    forall w | w in Extras(t, vm) ensures VMReader(t, ws)(At(answer, w.name)).None? {
      ExtrasAreNoMachines(t, vm, w);
      assert OkVM(t, ws, At(answer, w.name)).None?;
    }
    ReadNothing(Extras(t, vm), answer, VMReader(t, ws));
  }

  lemma MachineReadsBack(t: Texts, flat: seq<Workload>, answer: Answer, ws: seq<Workload>, vm: VM)
    requires AnsweredBy(flat, answer) && multiset(ws) == multiset(Via(flat, answer))
    requires (forall w :: w in VMWorkloads(t, vm) ==> w in flat) && VMKept(t, vm)
    ensures Collect(Via(VMWorkloads(t, vm), answer), VMReader(t, ws)) == [Raw(answer, ws, vm)]
  {
    var m, read := MachineWorkload(t, vm), VMReader(t, ws);
    assert AnsweredBy(Extras(t, vm), answer) by {
      forall w | w in Extras(t, vm) ensures w in flat { assert w in VMWorkloads(t, vm); }
    }
    ReadConcat(Extras(t, vm), [m], answer, read);
    ExtrasAreSkipped(t, answer, ws, vm);
    ReadSingle(m, answer, read);
    MachineIsRead(t, flat, answer, ws, vm);
    assert ReadOne(At(answer, m.name), read) == [Raw(answer, ws, vm)];
  }

  lemma RawAllLast(answer: Answer, ws: seq<Workload>, vms: seq<VM>)
    requires vms != []
    ensures RawAll(answer, ws, vms) == RawAll(answer, ws, vms[..|vms| - 1]) + [Raw(answer, ws, vms[|vms| - 1])]
  {
  }

  lemma {:induction false} MachinesReadBack(t: Texts, flat: seq<Workload>, answer: Answer, ws: seq<Workload>,
      vms: seq<VM>)
    requires AnsweredBy(flat, answer) && multiset(ws) == multiset(Via(flat, answer))
    requires (forall w :: w in AllVMWorkloads(t, vms) ==> w in flat) && (forall vm :: vm in vms ==> VMKept(t, vm))
    ensures Collect(Via(AllVMWorkloads(t, vms), answer), VMReader(t, ws)) == RawAll(answer, ws, vms)
    decreases |vms|
  {
    if vms != [] {
      var init, vm := vms[..|vms| - 1], vms[|vms| - 1];
      MachinesReadBack(t, flat, answer, ws, init);
      MachineReadsBack(t, flat, answer, ws, vm);
      ReadConcat(AllVMWorkloads(t, init), VMWorkloads(t, vm), answer, VMReader(t, ws));
      RawAllLast(answer, ws, vms);
    }
  }

  // ----- Logs -----

  ghost predicate AllOwnedBy(zs: seq<Zlog>, name: string) {
    forall z :: z in zs ==> z.zmachine == name
  }

  lemma {:induction false} LogsOfList(t: Texts, zs: seq<Zlog>, answer: Answer, owner: string, name: string)
    requires AnsweredBy(ZlogWorkloads(t, zs), answer) && AllOwnedBy(zs, owner)
    ensures Collect(Via(ZlogWorkloads(t, zs), answer), ZlogReader(name)) == if owner == name then zs else []
    decreases |zs|
  {
    if zs != [] {
      var init, z := zs[..|zs| - 1], zs[|zs| - 1];
      var w, read := ZlogWorkload(t, z), ZlogReader(name);
      assert w in ZlogWorkloads(t, zs) && z in zs;
      assert zs == init + [z];
      LogsOfList(t, init, answer, owner, name);
      ReadConcat(ZlogWorkloads(t, init), [w], answer, read);
      ReadSingle(w, answer, read);
      assert ReadOne(At(answer, w.name), read) == if owner == name then [z] else [];
    }
  }

  /** Neither the public address nor the machine itself is read as a log. */
  lemma NoLogsElsewhere(t: Texts, vm: VM, answer: Answer, name: string)
    requires AnsweredBy(VMWorkloads(t, vm), answer)
    ensures Collect(Via(PublicIPWorkloads(vm), answer), ZlogReader(name)) == []
    ensures Collect(Via([MachineWorkload(t, vm)], answer), ZlogReader(name)) == []
  {
    var read := ZlogReader(name);
    forall w | w in PublicIPWorkloads(vm) ensures read(At(answer, w.name)).None? { assert w in VMWorkloads(t, vm); }
    ReadNothing(PublicIPWorkloads(vm), answer, read);
    forall w | w in [MachineWorkload(t, vm)] ensures read(At(answer, w.name)).None? { assert w in VMWorkloads(t, vm); }
    ReadNothing([MachineWorkload(t, vm)], answer, read);
  }

  lemma LogsAnswered(t: Texts, vm: VM, answer: Answer)
    requires AnsweredBy(VMWorkloads(t, vm), answer)
    ensures AnsweredBy(ZlogWorkloads(t, vm.zlogs), answer)
  {
    assert forall w :: w in ZlogWorkloads(t, vm.zlogs) ==> w in VMWorkloads(t, vm);
  }

  lemma ReadThree<T>(a: seq<Workload>, b: seq<Workload>, c: seq<Workload>, answer: Answer, f: Workload -> Option<T>)
    requires Collect(Via(a, answer), f) == [] && Collect(Via(c, answer), f) == []
    ensures Collect(Via(a + b + c, answer), f) == Collect(Via(b, answer), f)
  {
    ReadConcat(a + b, c, answer, f);
    ReadConcat(a, b, answer, f);
  }

  /** Of one machine's workloads, the reader for a name takes all logs if it is that machine, else none. */
  lemma LogsOfMachine(t: Texts, vm: VM, answer: Answer, name: string)
    requires AnsweredBy(VMWorkloads(t, vm), answer) && OwnLogs(vm)
    ensures Collect(Via(VMWorkloads(t, vm), answer), ZlogReader(name)) == if vm.name == name then vm.zlogs else []
  {
    LogsAnswered(t, vm, answer);
    LogsOfList(t, vm.zlogs, answer, vm.name, name);
    NoLogsElsewhere(t, vm, answer, name);
    ReadThree(PublicIPWorkloads(vm), ZlogWorkloads(t, vm.zlogs), [MachineWorkload(t, vm)], answer, ZlogReader(name));
  }

  lemma DistinctInit(init: seq<VM>, vm: VM)
    requires Distinct(NamesInOrder(init + [vm], VM_NAME))
    ensures Distinct(NamesInOrder(init, VM_NAME)) && Find(init, vm.name).None?
  {
    var all, names := init + [vm], NamesInOrder(init + [vm], VM_NAME);
    forall i, j | 0 <= i < j < |init| ensures NamesInOrder(init, VM_NAME)[i] != NamesInOrder(init, VM_NAME)[j] {
      assert names[i] != names[j];
    }
    forall i | 0 <= i < |init| ensures init[i].name != vm.name { assert names[i] != names[|init|]; }
    FindNone(init, vm.name);
  }

  lemma {:induction false} FindNone(vms: seq<VM>, name: string)
    requires forall i :: 0 <= i < |vms| ==> vms[i].name != name
    ensures Find(vms, name).None?
    decreases |vms|
  {
    if vms != [] { FindNone(vms[..|vms| - 1], name); }
  }

  function LogsFound(vms: seq<VM>, name: string): seq<Zlog> {
    if Find(vms, name).Some? then Find(vms, name).value.zlogs else []
  }

  lemma LogsFoundLast(init: seq<VM>, vm: VM, name: string)
    requires Distinct(NamesInOrder(init + [vm], VM_NAME))
    ensures LogsFound(init + [vm], name) == LogsFound(init, name) + if vm.name == name then vm.zlogs else []
  {
    DistinctInit(init, vm);
    assert (init + [vm])[..|init|] == init;
  }

  /** The reader for a name takes exactly the logs of the machine of that name, in their declared order. */
  lemma {:induction false} LogsOfMachines(t: Texts, vms: seq<VM>, answer: Answer, name: string)
    requires AnsweredBy(AllVMWorkloads(t, vms), answer) && (forall vm :: vm in vms ==> OwnLogs(vm))
    requires Distinct(NamesInOrder(vms, VM_NAME))
    ensures Collect(Via(AllVMWorkloads(t, vms), answer), ZlogReader(name)) == LogsFound(vms, name)
    decreases |vms|
  {
    if vms != [] {
      var init, vm := vms[..|vms| - 1], vms[|vms| - 1];
      assert vms == init + [vm];
      DistinctInit(init, vm);
      LogsOfMachines(t, init, answer, name);
      LogsOfMachine(t, vm, answer, name);
      ReadConcat(AllVMWorkloads(t, init), VMWorkloads(t, vm), answer, ZlogReader(name));
      LogsFoundLast(init, vm, name);
    }
  }

  lemma {:induction false} MachinePartsAre(t: Texts, vms: seq<VM>, w: Workload)
    requires w in AllVMWorkloads(t, vms)
    ensures w.data.PublicIP? || w.data.ZLogs? || w.data.ZMachine?
    decreases |vms|
  {
    var init, vm := vms[..|vms| - 1], vms[|vms| - 1];
    if w in AllVMWorkloads(t, init) {
      MachinePartsAre(t, init, w);
    } else if w in Extras(t, vm) {
      ExtrasAreNoMachines(t, vm, w);
    }
  }
}
