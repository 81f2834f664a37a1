/** Reading a node's workloads back into the four lists, with the host ids its machines use. */
module Reading {
  import opened Wrappers
  import opened Addresses
  import opened GridTypes
  import opened Workloads
  import opened Collecting
  import opened Matching
  import opened ReadBack

  // ----- Host ids of what is read back -----

  /** The host id of one machine; None if its address is not an IPv4 one. */
  function HostIDOf(t: Texts, vm: VM): Option<byte> {
    var ip := t.parseIP(vm.ip);
    if ip.None? || !ip.value.V4? then None else Some(ip.value.addr.d)
  }

  /** The host id of each machine; None if one of them has no IPv4 address, on which the source panics. */
  function HostIDsOf(t: Texts, vms: seq<VM>): Option<seq<byte>> {
    if vms == [] then Some([])
    else
      var init, id := HostIDsOf(t, vms[..|vms| - 1]), HostIDOf(t, vms[|vms| - 1]);
      if init.None? || id.None? then None else Some(init.value + [id.value])
  }

  /** The host ids of the running machines among a node's workloads. */
  function HostIDsIn(t: Texts, ws: seq<Workload>): Option<seq<byte>> {
    HostIDsOf(t, Collect(ws, VMReader(t, ws)))
  }

  lemma {:induction false} HostIDsStayUndefined(t: Texts, vms: seq<VM>, more: seq<VM>)
    requires HostIDsOf(t, vms).None?
    ensures HostIDsOf(t, vms + more).None?
    decreases |more|
  {
    if more == [] {
      assert vms + more == vms;
    } else {
      assert (vms + more)[..|vms + more| - 1] == vms + more[..|more| - 1];
      HostIDsStayUndefined(t, vms, more[..|more| - 1]);
    }
  }

  lemma HostIDsLast(t: Texts, vms: seq<VM>, vm: VM)
    ensures HostIDsOf(t, vms + [vm]) ==
            if HostIDsOf(t, vms).None? || HostIDOf(t, vm).None? then None
            else Some(HostIDsOf(t, vms).value + [HostIDOf(t, vm).value])
  {
    assert (vms + [vm])[..|vms|] == vms;
  }

  /** The four lists read from part of a node's workloads `ws`. */
  function ReadAll(t: Texts, ws: seq<Workload>, part: seq<Workload>): Declaration {
    Declaration(Collect(part, OkDisk), Collect(part, OkZdb), Collect(part, VMReader(t, ws)), Collect(part, OkQsfs))
  }

  /** What one more workload adds: its type decides which list it may go to. */
  function Plus(t: Texts, ws: seq<Workload>, r: Declaration, w: Workload): Declaration {
    Declaration(r.disks + ReadOne(w, OkDisk), r.zdbs + ReadOne(w, OkZdb), r.vms + ReadOne(w, VMReader(t, ws)),
        r.qsfs + ReadOne(w, OkQsfs))
  }

  lemma ReadOneMore(t: Texts, ws: seq<Workload>, i: nat)
    requires i < |ws|
    ensures ReadAll(t, ws, ws[..i + 1]) == Plus(t, ws, ReadAll(t, ws, ws[..i]), ws[i])
  {
    assert ws[..i + 1][..i] == ws[..i];
  }

  /** Adds one workload to the lists; those that failed or do not parse are left out. */
  method ReadWorkload(
      t: Texts, ws: seq<Workload>, r: Declaration, w: Workload)
    returns (r': Declaration, vm: Option<VM>)
    ensures r' == Plus(t, ws, r, w) && vm == OkVM(t, ws, w)
    ensures r'.vms == if vm.Some? then r.vms + [vm.value] else r.vms
  {
    r', vm := r, None;
    if !w.result.state.IsOkay() { return; }
    match w.data.Type() {
      case ZMachineType =>
        vm := VMFrom(t, w, ws);
        if vm.Some? { r' := r.(vms := r.vms + [vm.value]); }
      case ZDBType =>
        var zdb := ZdbFrom(w);
        if zdb.Some? { r' := r.(zdbs := r.zdbs + [zdb.value]); }
      case QuantumSafeFSType =>
        var q := QsfsFrom(w);
        if q.Some? { r' := r.(qsfs := r.qsfs + [q.value]); }
      case ZMountType =>
        var disk := DiskFrom(w);
        if disk.Some? { r' := r.(disks := r.disks + [disk.value]); }
      case _ =>
    }
  }

  /** Reads every workload in its turn; a machine that cannot be addressed stops the run. */
  method ReadWorkloads(t: Texts, ws: seq<Workload>) returns (r: Declaration, ids: Option<seq<byte>>)
    ensures ids == HostIDsIn(t, ws)
    ensures ids.Some? ==> r == ReadAll(t, ws, ws)
  {
    r := Declaration([], [], [], []);
    var usedIPs: seq<byte> := [];
    for i := 0 to |ws|
      invariant r == ReadAll(t, ws, ws[..i])
      invariant HostIDsOf(t, r.vms) == Some(usedIPs)
    {
      ReadOneMore(t, ws, i);
      ghost var vms := r.vms;
      var vm;
      r, vm := ReadWorkload(t, ws, r, ws[i]);
      if vm.Some? {
        HostIDsLast(t, vms, vm.value);
        var id := HostIDOf(t, vm.value);
        if id.None? {
          RestIsUndefined(t, ws, i + 1);
          return r, None;
        }
        usedIPs := usedIPs + [id.value];
      }
    }
    assert ws[..|ws|] == ws;
    ids := Some(usedIPs);
  }

  lemma RestIsUndefined(t: Texts, ws: seq<Workload>, i: nat)
    requires i <= |ws| && HostIDsOf(t, Collect(ws[..i], VMReader(t, ws))).None?
    ensures HostIDsOf(t, Collect(ws, VMReader(t, ws))).None?
  {
    assert ws == ws[..i] + ws[i..];
    CollectConcat(ws[..i], ws[i..], VMReader(t, ws));
    HostIDsStayUndefined(t, Collect(ws[..i], VMReader(t, ws)), Collect(ws[i..], VMReader(t, ws)));
  }
}
