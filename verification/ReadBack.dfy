/**
 * Printing a declaration to one workload list, and reading it back from whatever permutation of that
 * list a node returns.
 */
module ReadBack {
  import opened Wrappers
  import opened GridTypes
  import opened Units
  import opened Workloads
  import opened Matching
  import opened Collecting

  // ----- Printing -----

  function DiskWorkloads(ds: seq<Disk>): seq<Workload> {
    if ds == [] then [] else DiskWorkloads(ds[..|ds| - 1]) + [DiskWorkload(ds[|ds| - 1])]
  }

  function ZdbWorkloads(zs: seq<Zdb>): seq<Workload> {
    if zs == [] then [] else ZdbWorkloads(zs[..|zs| - 1]) + [ZdbWorkload(zs[|zs| - 1])]
  }

  function AllVMWorkloads(t: Texts, vms: seq<VM>): seq<Workload> {
    if vms == [] then [] else AllVMWorkloads(t, vms[..|vms| - 1]) + VMWorkloads(t, vms[|vms| - 1])
  }

  function QsfsWorkloads(qs: seq<Qsfs>): Option<seq<Workload>> {
    if qs == [] then Some([])
    else
      var init, w := QsfsWorkloads(qs[..|qs| - 1]), QsfsWorkload(qs[|qs| - 1]);
      if init.None? || w.None? then None else Some(init.value + [w.value])
  }

  /** Disks, then zdbs, then machines, then file systems; None when a file system's key is not hex. */
  function Flatten(t: Texts, d: Declaration): Option<seq<Workload>> {
    var qs := QsfsWorkloads(d.qsfs);
    if qs.None? then None
    else Some(DiskWorkloads(d.disks) + ZdbWorkloads(d.zdbs) + AllVMWorkloads(t, d.vms) + qs.value)
  }

  method AppendDisks(ws: seq<Workload>, ds: seq<Disk>) returns (r: seq<Workload>)
    ensures r == ws + DiskWorkloads(ds)
  {
    r := ws;
    for i := 0 to |ds|
      invariant r == ws + DiskWorkloads(ds[..i])
    {
      assert ds[..i + 1][..i] == ds[..i];
      r := r + [DiskWorkload(ds[i])];
    }
    assert ds[..|ds|] == ds;
  }

  method AppendZdbs(ws: seq<Workload>, zs: seq<Zdb>) returns (r: seq<Workload>)
    ensures r == ws + ZdbWorkloads(zs)
  {
    r := ws;
    for i := 0 to |zs|
      invariant r == ws + ZdbWorkloads(zs[..i])
    {
      assert zs[..i + 1][..i] == zs[..i];
      r := r + [ZdbWorkload(zs[i])];
    }
    assert zs[..|zs|] == zs;
  }

  lemma OneMoreVM(t: Texts, vms: seq<VM>, i: nat)
    requires i < |vms|
    ensures AllVMWorkloads(t, vms[..i + 1]) == AllVMWorkloads(t, vms[..i]) + VMWorkloads(t, vms[i])
  {
    assert vms[..i + 1][..i] == vms[..i];
  }

  method AppendVMs(t: Texts, ws: seq<Workload>, vms: seq<VM>) returns (r: seq<Workload>)
    ensures r == ws + AllVMWorkloads(t, vms)
  {
    r := ws;
    for i := 0 to |vms|
      invariant r == ws + AllVMWorkloads(t, vms[..i])
    {
      var vmWorkloads := PrintVM(t, vms[i]);
      OneMoreVM(t, vms, i);
      Assoc(ws, AllVMWorkloads(t, vms[..i]), vmWorkloads);
      r := r + vmWorkloads;
    }
    assert vms[..|vms|] == vms;
  }

  method AppendQsfses(ws: seq<Workload>, qs: seq<Qsfs>) returns (r: Option<seq<Workload>>)
    ensures r == if QsfsWorkloads(qs).Some? then Some(ws + QsfsWorkloads(qs).value) else None
  {
    var all := ws;
    for i := 0 to |qs|
      invariant QsfsWorkloads(qs[..i]).Some? && all == ws + QsfsWorkloads(qs[..i]).value
    {
      assert qs[..i + 1][..i] == qs[..i];
      var w := QsfsWorkload(qs[i]);
      if w.None? {
        QsfsStaysUnprinted(qs, i + 1);
        return None;
      }
      all := all + [w.value];
    }
    assert qs[..|qs|] == qs;
    return Some(all);
  }

  method Print(t: Texts, d: Declaration) returns (r: Option<seq<Workload>>)
    ensures r == Flatten(t, d)
  {
    var disks := AppendDisks([], d.disks);
    assert disks == DiskWorkloads(d.disks);
    var zdbs := AppendZdbs(disks, d.zdbs);
    var vms := AppendVMs(t, zdbs, d.vms);
    r := AppendQsfses(vms, d.qsfs);
  }

  lemma {:induction false} QsfsStaysUnprinted(qs: seq<Qsfs>, i: nat)
    requires i <= |qs| && QsfsWorkloads(qs[..i]).None?
    ensures QsfsWorkloads(qs).None?
    decreases |qs| - i
  {
    if i == |qs| {
      assert qs[..i] == qs;
    } else {
      assert qs[..i + 1][..i] == qs[..i];
      QsfsStaysUnprinted(qs, i + 1);
    }
  }

  // ----- Reading -----

  function OkDisk(w: Workload): Option<Disk> {
    if w.result.state.IsOkay() then DiskFrom(w) else None
  }

  function OkZdb(w: Workload): Option<Zdb> {
    if w.result.state.IsOkay() then ZdbFrom(w) else None
  }

  function OkQsfs(w: Workload): Option<Qsfs> {
    if w.result.state.IsOkay() then QsfsFrom(w) else None
  }

  function OkVM(t: Texts, ws: seq<Workload>, w: Workload): Option<VM> {
    if w.result.state.IsOkay() then VMFrom(t, w, ws) else None
  }

  function VMReader(t: Texts, ws: seq<Workload>): Workload -> Option<VM> {
    (w: Workload) => OkVM(t, ws, w)
  }

  function ZlogReader(name: string): Workload -> Option<Zlog> {
    (w: Workload) => ZlogFrom(w, name)
  }

  lemma {:induction false} ZlogsAreCollected(ws: seq<Workload>, name: string)
    ensures ZlogsFrom(ws, name) == Collect(ws, ZlogReader(name))
    decreases |ws|
  {
    if ws != [] { ZlogsAreCollected(ws[..|ws| - 1], name); }
  }

  // ----- The node's answer -----

  /** The node's copy of each workload, by name. */
  type Answer = map<string, Workload>

  function At(answer: Answer, name: string): Workload {
    if name in answer then answer[name] else Request("", "", WorkloadData.Unreadable(ZMountType))
  }

  function Via(flat: seq<Workload>, answer: Answer): seq<Workload> {
    seq(|flat|, i requires 0 <= i < |flat| => At(answer, flat[i].name))
  }

  /** Every requested workload has a name, and the node answers it successfully. */
  ghost predicate AnsweredBy(flat: seq<Workload>, answer: Answer) {
    forall w :: w in flat ==> w.name != "" && w.name in answer && Answers(w, answer[w.name])
  }

  lemma ViaConcat(s: seq<Workload>, u: seq<Workload>, answer: Answer)
    ensures Via(s + u, answer) == Via(s, answer) + Via(u, answer)
  {
  }

  lemma ReadConcat<T>(s: seq<Workload>, u: seq<Workload>, answer: Answer, f: Workload -> Option<T>)
    ensures Collect(Via(s + u, answer), f) == Collect(Via(s, answer), f) + Collect(Via(u, answer), f)
  {
    ViaConcat(s, u, answer);
    CollectConcat(Via(s, answer), Via(u, answer), f);
  }

  lemma ReadNothing<T>(s: seq<Workload>, answer: Answer, f: Workload -> Option<T>)
    requires forall w :: w in s ==> f(At(answer, w.name)).None?
    ensures Collect(Via(s, answer), f) == []
  {
    var all := Via(s, answer);
    forall w | w in all ensures f(w).None? {
      var i :| 0 <= i < |s| && all[i] == w;
      assert s[i] in s;
    }
    CollectNothing(all, f);
  }

  lemma ReadSingle<T>(w: Workload, answer: Answer, f: Workload -> Option<T>)
    ensures Collect(Via([w], answer), f) == ReadOne(At(answer, w.name), f)
  {
    assert Via([w], answer) == [At(answer, w.name)];
    CollectOne(At(answer, w.name), f);
  }

  /** A returned workload is the answer to its name. */
  lemma ReturnedIsAnswer(flat: seq<Workload>, answer: Answer, ws: seq<Workload>, w: Workload)
    requires AnsweredBy(flat, answer) && multiset(ws) == multiset(Via(flat, answer)) && w in ws
    ensures w.name != "" && w.name in answer && answer[w.name] == w
  {
    assert w in multiset(ws) && w in multiset(Via(flat, answer)) && w in Via(flat, answer);
    var i :| 0 <= i < |flat| && Via(flat, answer)[i] == w;
    assert flat[i] in flat;
  }

  /** Looking up a requested name in what is returned finds the answer; the empty name finds nothing. */
  lemma GetFindsAnswer(flat: seq<Workload>, answer: Answer, ws: seq<Workload>, r: Workload)
    requires AnsweredBy(flat, answer) && multiset(ws) == multiset(Via(flat, answer)) && r in flat
    ensures Get(ws, r.name) == Some(answer[r.name]) && Get(ws, "") == None
  {
    var i :| 0 <= i < |flat| && flat[i] == r;
    assert Via(flat, answer)[i] == answer[r.name];
    assert answer[r.name] in multiset(Via(flat, answer)) && answer[r.name] in multiset(ws) && answer[r.name] in ws;
    var g := Get(ws, r.name);
    if g.Some? { ReturnedIsAnswer(flat, answer, ws, g.value); }
    var e := Get(ws, "");
    if e.Some? { ReturnedIsAnswer(flat, answer, ws, e.value); }
  }

  // ----- What each list reads back to -----

  lemma {:induction false} DisksReadBack(ds: seq<Disk>, answer: Answer)
    requires AnsweredBy(DiskWorkloads(ds), answer) && forall d :: d in ds ==> SizeFits(d.sizeGB, GIGABYTE)
    ensures Collect(Via(DiskWorkloads(ds), answer), OkDisk) == ds
    ensures forall w :: w in DiskWorkloads(ds) ==> w.data.ZMount?
    decreases |ds|
  {
    if ds != [] {
      var init, d := ds[..|ds| - 1], ds[|ds| - 1];
      var w := DiskWorkload(d);
      assert ds == init + [d] && w in DiskWorkloads(ds);
      DisksReadBack(init, answer);
      DiskRoundTrip(d);
      ReadConcat(DiskWorkloads(init), [w], answer, OkDisk);
      ReadSingle(w, answer, OkDisk);
    }
  }

  /** The declared zdb with what the node computed for it. */
  function ZdbObserved(answer: Answer, z: Zdb): (r: Zdb)
    ensures r.name == z.name
  {
    var data := At(answer, z.name).result.data;
    if data.ZDBResult? then ObservedZdb(z, data) else z
  }

  function ObservedZdbs(answer: Answer, zs: seq<Zdb>): seq<Zdb> {
    seq(|zs|, i requires 0 <= i < |zs| => ZdbObserved(answer, zs[i]))
  }

  /** Appending one zdb appends what is read from it. */
  lemma OneMoreZdb(init: seq<Workload>, read: seq<Zdb>, z: Zdb, answer: Answer)
    requires Collect(Via(init, answer), OkZdb) == read && SizeFits(z.size, GIGABYTE)
    requires z.name in answer && Answers(ZdbWorkload(z), answer[z.name])
    ensures Collect(Via(init + [ZdbWorkload(z)], answer), OkZdb) == read + [ZdbObserved(answer, z)]
  {
    ZdbRoundTrip(z, answer[z.name]);
    ReadConcat(init, [ZdbWorkload(z)], answer, OkZdb);
    ReadSingle(ZdbWorkload(z), answer, OkZdb);
  }

  lemma ObservedZdbsLast(answer: Answer, zs: seq<Zdb>)
    requires zs != []
    ensures ObservedZdbs(answer, zs) == ObservedZdbs(answer, zs[..|zs| - 1]) + [ZdbObserved(answer, zs[|zs| - 1])]
  {
  }

  lemma {:induction false} ZdbsReadBack(zs: seq<Zdb>, answer: Answer)
    requires AnsweredBy(ZdbWorkloads(zs), answer) && forall z :: z in zs ==> SizeFits(z.size, GIGABYTE)
    ensures Collect(Via(ZdbWorkloads(zs), answer), OkZdb) == ObservedZdbs(answer, zs)
    ensures forall w :: w in ZdbWorkloads(zs) ==> w.data.ZDB?
    decreases |zs|
  {
    if zs != [] {
      var init, z := zs[..|zs| - 1], zs[|zs| - 1];
      assert z in zs && ZdbWorkload(z) in ZdbWorkloads(zs);
      ZdbsReadBack(init, answer);
      OneMoreZdb(ZdbWorkloads(init), ObservedZdbs(answer, init), z, answer);
      ObservedZdbsLast(answer, zs);
    }
  }

  /** The declared file system with the endpoint the node answered. */
  function QsfsObserved(answer: Answer, q: Qsfs): (r: Qsfs)
    ensures r.name == q.name
  {
    var data := At(answer, q.name).result.data;
    if data.QSFSResult? then ObservedQsfs(q, data) else q
  }

  function ObservedQsfses(answer: Answer, qs: seq<Qsfs>): seq<Qsfs> {
    seq(|qs|, i requires 0 <= i < |qs| => QsfsObserved(answer, qs[i]))
  }

  lemma QsfsIsRead(q: Qsfs, answer: Answer)
    requires QsfsWorkload(q).Some? && q.name in answer && Answers(QsfsWorkload(q).value, answer[q.name]) && QsfsKept(q)
    ensures ReadOne(At(answer, q.name), OkQsfs) == [QsfsObserved(answer, q)]
  {
    QsfsRoundTrip(q, answer[q.name]);
  }

  lemma ObservedQsfsesLast(answer: Answer, qs: seq<Qsfs>)
    requires qs != []
    ensures ObservedQsfses(answer, qs) == ObservedQsfses(answer, qs[..|qs| - 1]) + [QsfsObserved(answer, qs[|qs| - 1])]
  {
  }

  lemma {:induction false} QsfsKinds(qs: seq<Qsfs>, w: Workload)
    requires QsfsWorkloads(qs).Some? && w in QsfsWorkloads(qs).value
    ensures w.data.QuantumSafeFS?
    decreases |qs|
  {
    var init, last := QsfsWorkloads(qs[..|qs| - 1]).value, QsfsWorkload(qs[|qs| - 1]).value;
    assert w in init + [last];
    if w in init { QsfsKinds(qs[..|qs| - 1], w); }
  }

  /** Appending one file system appends what is read from it. */
  lemma OneMoreQsfs(init: seq<Workload>, read: seq<Qsfs>, q: Qsfs, answer: Answer)
    requires Collect(Via(init, answer), OkQsfs) == read && QsfsKept(q)
    requires QsfsWorkload(q).Some? && q.name in answer && Answers(QsfsWorkload(q).value, answer[q.name])
    ensures Collect(Via(init + [QsfsWorkload(q).value], answer), OkQsfs) == read + [QsfsObserved(answer, q)]
  {
    QsfsIsRead(q, answer);
    ReadConcat(init, [QsfsWorkload(q).value], answer, OkQsfs);
    ReadSingle(QsfsWorkload(q).value, answer, OkQsfs);
  }

  lemma {:induction false} QsfsesReadBack(qs: seq<Qsfs>, answer: Answer)
    requires QsfsWorkloads(qs).Some? && AnsweredBy(QsfsWorkloads(qs).value, answer) &&
             forall q :: q in qs ==> QsfsKept(q)
    ensures Collect(Via(QsfsWorkloads(qs).value, answer), OkQsfs) == ObservedQsfses(answer, qs)
    decreases |qs|
  {
    if qs != [] {
      var init, q := qs[..|qs| - 1], qs[|qs| - 1];
      assert q in qs && QsfsWorkload(q).value in QsfsWorkloads(qs).value;
      QsfsesReadBack(init, answer);
      OneMoreQsfs(QsfsWorkloads(init).value, ObservedQsfses(answer, init), q, answer);
      ObservedQsfsesLast(answer, qs);
    }
  }
}
