/** Helpers over a deployment's workload list: counts, hashes, versions, names, capacity. */
module DeploymentUtils {
  import opened Wrappers
  import opened GridTypes

  type Digest = string

  datatype Units = Units(cru: uint64, mru: uint64, sru: uint64, hru: uint64)

  function Add64(x: uint64, y: uint64): uint64 { (x + y) % 0x1_0000_0000_0000_0000 }
  function Sub64(x: uint64, y: uint64): uint64 { (x - y) % 0x1_0000_0000_0000_0000 }

  function AddUnits(a: Units, b: Units): Units {
    Units(Add64(a.cru, b.cru), Add64(a.mru, b.mru), Add64(a.sru, b.sru), Add64(a.hru, b.hru))
  }

  /** What the grid library computes about workloads and deployments. */
  datatype Library = Library(
    canSign: Deployment -> bool,
    valid: Deployment -> bool,
    challengeHash: Deployment -> Option<Digest>,
    digest: Deployment -> Option<Digest>,
    workloadDigest: Workload -> Option<Digest>,
    capacity: Workload -> Option<Units>)

  // ----- Public IPs -----

  /** The reserved IPv4 addresses; None when a public-IP workload cannot be read. */
  function PublicIPs(ws: seq<Workload>): Option<nat> {
    if ws == [] then Some(0)
    else
      var w := ws[|ws| - 1];
      match PublicIPs(ws[..|ws| - 1])
      case None => None
      case Some(n) =>
        if w.data.Type() != PublicIPType then Some(n)
        else if !w.data.PublicIP? then None
        else Some(n + if w.data.v4 then 1 else 0)
  }

  method CountDeploymentPublicIPs(dl: Deployment) returns (r: Option<nat>)
    ensures r == PublicIPs(dl.workloads)
  {
    var ws, res := dl.workloads, 0;
    for i := 0 to |ws|
      invariant PublicIPs(ws[..i]) == Some(res)
    {
      assert ws[..i + 1][..i] == ws[..i];
      if ws[i].data.Type() == PublicIPType {
        if !ws[i].data.PublicIP? {
          PublicIPsStayUnread(ws, i + 1);
          return None;
        }
        if ws[i].data.v4 { res := res + 1; }
      }
    }
    assert ws[..|ws|] == ws;
    return Some(res);
  }

  lemma {:induction false} PublicIPsStayUnread(ws: seq<Workload>, i: nat)
    requires i <= |ws| && PublicIPs(ws[..i]).None?
    ensures PublicIPs(ws).None?
    decreases |ws| - i
  {
    if i == |ws| {
      assert ws[..i] == ws;
    } else {
      assert ws[..i + 1][..i] == ws[..i];
      PublicIPsStayUnread(ws, i + 1);
    }
  }

  // ----- Capacity -----

  function TotalCapacity(lib: Library, ws: seq<Workload>): Option<Units> {
    if ws == [] then Some(Units(0, 0, 0, 0))
    else
      match TotalCapacity(lib, ws[..|ws| - 1])
      case None => None
      case Some(u) =>
        match lib.capacity(ws[|ws| - 1])
        case None => None
        case Some(c) => Some(AddUnits(u, c))
  }

  lemma {:induction false} CapacityStaysUnread(lib: Library, ws: seq<Workload>, i: nat)
    requires i <= |ws| && TotalCapacity(lib, ws[..i]).None?
    ensures TotalCapacity(lib, ws).None?
    decreases |ws| - i
  {
    if i == |ws| {
      assert ws[..i] == ws;
    } else {
      assert ws[..i + 1][..i] == ws[..i];
      CapacityStaysUnread(lib, ws, i + 1);
    }
  }

  method Capacity(lib: Library, dl: Deployment) returns (r: Option<Units>)
    ensures r == TotalCapacity(lib, dl.workloads)
  {
    var ws, res := dl.workloads, Units(0, 0, 0, 0);
    for i := 0 to |ws|
      invariant TotalCapacity(lib, ws[..i]) == Some(res)
    {
      assert ws[..i + 1][..i] == ws[..i];
      var wlCap := lib.capacity(ws[i]);
      if wlCap.None? {
        CapacityStaysUnread(lib, ws, i + 1);
        return None;
      }
      res := AddUnits(res, wlCap.value);
    }
    assert ws[..|ws|] == ws;
    return Some(res);
  }

  predicate HasWorkload(dl: Deployment, kind: WorkloadType) {
    exists w :: w in dl.workloads && w.data.Type() == kind
  }

  // ----- Hashes and versions by name -----

  /** Workload digests by name, the last workload of a name winning; None when one cannot be hashed. */
  function HashesOf(lib: Library, ws: seq<Workload>): (r: Option<map<string, Digest>>)
    ensures r.Some? ==> r.value.Keys == Names(ws)
  {
    if ws == [] then Some(map[])
    else
      assert ws == ws[..|ws| - 1] + [ws[|ws| - 1]];
      match HashesOf(lib, ws[..|ws| - 1])
      case None => None
      case Some(m) =>
        match lib.workloadDigest(ws[|ws| - 1])
        case None => None
        case Some(h) => Some(m[ws[|ws| - 1].name := h])
  }

  lemma {:induction false} HashesStayUnread(lib: Library, ws: seq<Workload>, i: nat)
    requires i <= |ws| && HashesOf(lib, ws[..i]).None?
    ensures HashesOf(lib, ws).None?
    decreases |ws| - i
  {
    if i == |ws| {
      assert ws[..i] == ws;
    } else {
      assert ws[..i + 1][..i] == ws[..i];
      HashesStayUnread(lib, ws, i + 1);
    }
  }

  method GetWorkloadHashes(lib: Library, dl: Deployment) returns (r: Option<map<string, Digest>>)
    ensures r == HashesOf(lib, dl.workloads)
  {
    var ws := dl.workloads;
    var hashes := map[];
    for i := 0 to |ws|
      invariant HashesOf(lib, ws[..i]) == Some(hashes)
    {
      assert ws[..i + 1][..i] == ws[..i];
      var hash := lib.workloadDigest(ws[i]);
      if hash.None? {
        HashesStayUnread(lib, ws, i + 1);
        return None;
      }
      hashes := hashes[ws[i].name := hash.value];
    }
    assert ws[..|ws|] == ws;
    return Some(hashes);
  }

  function VersionsOf(ws: seq<Workload>): (r: map<string, uint32>)
    ensures r.Keys == Names(ws)
  {
    if ws == [] then map[]
    else
      assert ws == ws[..|ws| - 1] + [ws[|ws| - 1]];
      VersionsOf(ws[..|ws| - 1])[ws[|ws| - 1].name := ws[|ws| - 1].version]
  }

  method ConstructWorkloadVersions(dl: Deployment) returns (versions: map<string, uint32>)
    ensures versions == VersionsOf(dl.workloads)
  {
    var ws := dl.workloads;
    versions := map[];
    for i := 0 to |ws|
      invariant versions == VersionsOf(ws[..i])
    {
      assert ws[..i + 1][..i] == ws[..i];
      versions := versions[ws[i].name := ws[i].version];
    }
    assert ws[..|ws|] == ws;
  }

  /** With unique names the maps record each workload's own digest and version. */
  lemma {:induction false} ByNameIsOwn(lib: Library, ws: seq<Workload>, i: nat)
    requires UniqueNames(ws) && i < |ws|
    ensures VersionsOf(ws)[ws[i].name] == ws[i].version
    ensures HashesOf(lib, ws).Some? ==> lib.workloadDigest(ws[i]) == Some(HashesOf(lib, ws).value[ws[i].name])
    decreases |ws|
  {
    var init := ws[..|ws| - 1];
    if i < |ws| - 1 {
      assert init[i] == ws[i];
      ByNameIsOwn(lib, init, i);
      assert ws[i].name != ws[|ws| - 1].name;
    }
  }

  // ----- Names -----

  /** The comparison as the program makes it: equal lengths, and every name of the second in the first. */
  predicate SameNames(d1: seq<Workload>, d2: seq<Workload>) {
    |d1| == |d2| && forall w :: w in d2 ==> w.name in Names(d1)
  }

  method SameWorkloadsNames(d1: Deployment, d2: Deployment) returns (same: bool)
    ensures same <==> SameNames(d1.workloads, d2.workloads)
  {
    if |d1.workloads| != |d2.workloads| { return false; }
    var names: set<string> := {};
    for i := 0 to |d1.workloads|
      invariant names == Names(d1.workloads[..i])
    {
      assert d1.workloads[..i + 1] == d1.workloads[..i] + [d1.workloads[i]];
      names := names + {d1.workloads[i].name};
    }
    assert d1.workloads[..|d1.workloads|] == d1.workloads;
    for i := 0 to |d2.workloads|
      invariant forall w :: w in d2.workloads[..i] ==> w.name in names
    {
      if d2.workloads[i].name !in names { return false; }
    }
    return true;
  }

  lemma NamesAppend(init: seq<Workload>, w: Workload)
    ensures Names(init + [w]) == Names(init) + {w.name}
  {
    assert w in init + [w];
    forall x | x in init ensures x in init + [w] {}
  }

  lemma UniqueAppend(init: seq<Workload>, w: Workload)
    ensures UniqueNames(init + [w]) <==> UniqueNames(init) && w.name !in Names(init)
  {
    var ws := init + [w];
    if UniqueNames(ws) {
      forall i, j | 0 <= i < j < |init| ensures init[i].name != init[j].name { assert ws[i].name != ws[j].name; }
      forall i | 0 <= i < |init| ensures init[i].name != w.name { assert ws[i].name != ws[|init|].name; }
    }
    forall i | 0 <= i < |init| && w.name !in Names(init) ensures init[i].name != w.name { assert init[i] in init; }
  }

  lemma {:induction false} NamesCount(ws: seq<Workload>)
    ensures |Names(ws)| <= |ws|
    ensures UniqueNames(ws) <==> |Names(ws)| == |ws|
  {
    if ws != [] {
      var init, w := ws[..|ws| - 1], ws[|ws| - 1];
      assert ws == init + [w];
      NamesCount(init);
      NamesAppend(init, w);
      UniqueAppend(init, w);
    } else {
      assert Names(ws) == {};
    }
  }

  lemma {:induction false} SameSizeSubset<T>(s: set<T>, t: set<T>)
    requires s <= t && |s| >= |t|
    ensures s == t
  {
    if s != {} {
      var x :| x in s;
      SameSizeSubset(s - {x}, t - {x});
    }
  }

  /**
   * When the second list has unique names, the one-sided comparison means equal name sets (and then
   * the first list has unique names as well): the pigeonhole argument the program relies on.
   */
  lemma SameNamesIsEquality(d1: seq<Workload>, d2: seq<Workload>)
    requires UniqueNames(d2)
    ensures SameNames(d1, d2) <==> |d1| == |d2| && Names(d1) == Names(d2)
    ensures SameNames(d1, d2) ==> UniqueNames(d1)
  {
    NamesCount(d1);
    NamesCount(d2);
    if SameNames(d1, d2) {
      assert Names(d2) <= Names(d1);
      SameSizeSubset(Names(d2), Names(d1));
    }
    if Names(d1) == Names(d2) {
      forall w | w in d2 ensures w.name in Names(d1) { assert w.name in Names(d2); }
    }
  }
}
