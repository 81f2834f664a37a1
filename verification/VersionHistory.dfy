/** Deployment and workload versions over a run of updates of one node. */
module VersionHistory {
  import opened Wrappers
  import opened GridTypes
  import opened DeploymentUtils
  import opened GridWorld
  import opened Deployer

  /** The node turned the request into the copy it holds afterwards. */
  ghost predicate IsUpdate(lib: Library, before: Deployment, dl: Deployment, after: Deployment) {
    Successor(lib, before, dl).Some? && Successor(lib, before, dl).value == after
  }

  /**
   * `copies[i]` is what the `i`-th update left on the node, `bases[i]` is what the node had made of it
   * when the next one came, and that one requested `requests[i]`.
   */
  datatype History = History(copies: seq<Deployment>, bases: seq<Deployment>, requests: seq<Deployment>) {
    predicate Aligned() {
      |copies| == |requests| + 1 && |bases| == |requests|
    }
  }

  ghost predicate IsStep(lib: Library, h: History, i: nat)
    requires h.Aligned() && 0 < i < |h.copies|
  {
    && IsAnswer(h.copies[i - 1], h.bases[i - 1])
    && IsUpdate(lib, h.bases[i - 1], h.requests[i - 1], h.copies[i])
  }

  ghost predicate IsHistory(lib: Library, h: History) {
    && h.Aligned()
    && (forall i :: 0 <= i < |h.copies| ==> UniqueNames(h.copies[i].workloads))
    && (forall i :: 0 < i < |h.copies| ==> IsStep(lib, h, i))
  }

  // ----- What a node's answer keeps -----

  /** Every answered workload is one of the copy, with its version. */
  lemma AnswerFrom(before: Deployment, after: Deployment, j: nat) returns (i: nat)
    requires IsAnswer(before, after) && j < |after.workloads|
    ensures i < |before.workloads|
    ensures before.workloads[i].name == after.workloads[j].name &&
            before.workloads[i].version == after.workloads[j].version
  {
    var was, now := WithoutResults(before.workloads), WithoutResults(after.workloads);
    assert now[j] in multiset(now) && now[j] in multiset(was) && now[j] in was;
    i :| 0 <= i < |was| && was[i] == now[j];
  }

  lemma NamesWithoutResults(ws: seq<Workload>)
    ensures Names(WithoutResults(ws)) == Names(ws)
  {
    var bare := WithoutResults(ws);
    forall w | w in ws ensures w.name in Names(bare) {
      var i :| 0 <= i < |ws| && ws[i] == w;
      assert bare[i] in bare;
    }
    forall w | w in bare ensures w.name in Names(ws) {
      var i :| 0 <= i < |bare| && bare[i] == w;
      assert ws[i] in ws;
    }
  }

  lemma AnswerKeepsNames(before: Deployment, after: Deployment)
    requires IsAnswer(before, after) && UniqueNames(before.workloads)
    ensures UniqueNames(after.workloads) && Names(after.workloads) == Names(before.workloads)
  {
    var was, now := WithoutResults(before.workloads), WithoutResults(after.workloads);
    assert |now| == |multiset(now)| == |multiset(was)| == |was|;
    assert forall w :: w in now <==> w in multiset(now);
    assert forall w :: w in was <==> w in multiset(was);
    assert Names(now) == Names(was);
    NamesWithoutResults(before.workloads);
    NamesWithoutResults(after.workloads);
    NamesCount(before.workloads);
    NamesCount(after.workloads);
  }

  // ----- Which version a workload carries -----

  /** In an update of `before` by `dl` the workload is new, or its digest differs from that of the copy. */
  predicate Changed(lib: Library, before: Deployment, dl: Deployment, name: string)
    requires Successor(lib, before, dl).Some? && name in Names(dl.workloads)
  {
    var was, now := HashesOf(lib, before.workloads).value, HashesOf(lib, dl.workloads).value;
    name !in was || now[name] != was[name]
  }

  ghost predicate ChangedAt(lib: Library, h: History, i: nat, name: string)
    requires IsHistory(lib, h) && 0 < i < |h.copies|
  {
    assert IsStep(lib, h, i);
    name in Names(h.requests[i - 1].workloads) && Changed(lib, h.bases[i - 1], h.requests[i - 1], name)
  }

  /** A changed workload gets the new version; any other keeps that of its copy. */
  lemma OneUpdate(lib: Library, before: Deployment, dl: Deployment, j: nat) returns (i: nat)
    requires Successor(lib, before, dl).Some? && j < |dl.workloads| && UniqueNames(before.workloads)
    ensures dl.workloads[j].name in Names(dl.workloads)
    ensures var w, after := dl.workloads[j], Successor(lib, before, dl).value;
            && after.workloads[j].name == w.name
            && (if Changed(lib, before, dl, w.name) then after.workloads[j].version == after.version
                else i < |before.workloads| && before.workloads[i].name == w.name
                     && after.workloads[j].version == before.workloads[i].version)
  {
    var w := dl.workloads[j];
    NamesContain(dl.workloads, j);
    i := 0;
    if !Changed(lib, before, dl, w.name) {
      i :| 0 <= i < |before.workloads| && before.workloads[i].name == w.name;
      ByNameIsOwn(lib, before.workloads, i);
    }
  }

  /** Each update that is sent raises the deployment's version by exactly one, in 32-bit arithmetic. */
  lemma {:induction false} VersionCountsUpdates(lib: Library, h: History, k: nat)
    requires IsHistory(lib, h) && k < |h.copies|
    ensures h.copies[k].version == (h.copies[0].version + k) % 0x1_0000_0000
  {
    if k > 0 {
      VersionCountsUpdates(lib, h, k - 1);
      assert IsStep(lib, h, k);
      assert h.copies[k].version == NextVersion(h.copies[k - 1].version);
    }
  }

  /**
   * `last` is the last update up to the `k`-th in which the named workload changed, and `version` is
   * the deployment's version then; with no such update, `version` is the workload's initial one.
   */
  ghost predicate LastChange(lib: Library, h: History, k: nat, name: string, version: uint32, last: nat)
    requires IsHistory(lib, h) && k < |h.copies|
  {
    && last <= k
    && (forall i :: last < i <= k ==> !ChangedAt(lib, h, i, name))
    && (if last > 0 then ChangedAt(lib, h, last, name) && version == h.copies[last].version
        else exists w :: w in h.copies[0].workloads && w.name == name && w.version == version)
  }

  lemma StepBack(lib: Library, h: History, k: nat, j: nat) returns (i: nat)
    requires IsHistory(lib, h) && 0 < k < |h.copies| && j < |h.copies[k].workloads|
    ensures var w := h.copies[k].workloads[j];
            if ChangedAt(lib, h, k, w.name) then w.version == h.copies[k].version
            else i < |h.copies[k - 1].workloads|
                 && h.copies[k - 1].workloads[i].name == w.name && h.copies[k - 1].workloads[i].version == w.version
  {
    assert IsStep(lib, h, k);
    AnswerKeepsNames(h.copies[k - 1], h.bases[k - 1]);
    i := OneUpdate(lib, h.bases[k - 1], h.requests[k - 1], j);
    if !ChangedAt(lib, h, k, h.copies[k].workloads[j].name) { i := AnswerFrom(h.copies[k - 1], h.bases[k - 1], i); }
  }

  /** An update that did not change the workload leaves its last change where it was. */
  lemma SameLastChange(lib: Library, h: History, k: nat, name: string, version: uint32, last: nat)
    requires IsHistory(lib, h) && 0 < k < |h.copies| && !ChangedAt(lib, h, k, name)
    requires LastChange(lib, h, k - 1, name, version, last)
    ensures LastChange(lib, h, k, name, version, last)
  {
  }

  lemma NoChangeYet(lib: Library, h: History, j: nat)
    requires IsHistory(lib, h) && j < |h.copies[0].workloads|
    ensures LastChange(lib, h, 0, h.copies[0].workloads[j].name, h.copies[0].workloads[j].version, 0)
  {
    assert h.copies[0].workloads[j] in h.copies[0].workloads;
  }

  /** Every workload carries the version of the last update in which it was new or its digest differed. */
  lemma {:induction false} VersionOfLastChange(lib: Library, h: History, k: nat, j: nat) returns (last: nat)
    requires IsHistory(lib, h) && k < |h.copies| && j < |h.copies[k].workloads|
    ensures LastChange(lib, h, k, h.copies[k].workloads[j].name, h.copies[k].workloads[j].version, last)
    decreases k
  {
    var w := h.copies[k].workloads[j];
    if k == 0 {
      last := 0;
      NoChangeYet(lib, h, j);
    } else {
      var i := StepBack(lib, h, k, j);
      if ChangedAt(lib, h, k, w.name) {
        last := k;
      } else {
        last := VersionOfLastChange(lib, h, k - 1, i);
        SameLastChange(lib, h, k, w.name, w.version, last);
      }
    }
  }

  // ----- Workloads and their deployment -----

  const LARGEST := 0xFFFF_FFFF

  /** No workload is ahead of its deployment. */
  ghost predicate Ordered(d: Deployment) {
    forall w :: w in d.workloads ==> w.version <= d.version
  }

  /** The update does not wrap the version, or every workload it leaves unchanged is still at version 0. */
  predicate WrapIsHarmless(lib: Library, before: Deployment, dl: Deployment)
    requires Successor(lib, before, dl).Some?
  {
    before.version == LARGEST ==> forall i :: 0 <= i < |dl.workloads| ==> ChangedOrInitial(lib, before, dl, i)
  }

  predicate ChangedOrInitial(lib: Library, before: Deployment, dl: Deployment, i: nat)
    requires Successor(lib, before, dl).Some? && i < |dl.workloads|
  {
    NamesContain(dl.workloads, i);
    var name := dl.workloads[i].name;
    Changed(lib, before, dl, name) || VersionsOf(before.workloads)[name] == 0
  }

  lemma {:induction false} VersionsBounded(ws: seq<Workload>, name: string) returns (i: nat)
    requires name in VersionsOf(ws)
    ensures i < |ws| && ws[i].name == name && ws[i].version == VersionsOf(ws)[name]
    decreases |ws|
  {
    if ws[|ws| - 1].name == name {
      i := |ws| - 1;
    } else {
      i := VersionsBounded(ws[..|ws| - 1], name);
    }
  }

  /** From an ordered copy, an update leaves an ordered one exactly when its wrap, if any, is harmless. */
  lemma UpdateKeepsOrder(lib: Library, before: Deployment, dl: Deployment)
    requires Successor(lib, before, dl).Some? && Ordered(before)
    ensures Ordered(Successor(lib, before, dl).value) <==> WrapIsHarmless(lib, before, dl)
  {
    var after := Successor(lib, before, dl).value;
    forall i | 0 <= i < |dl.workloads|
      ensures after.workloads[i].version <= after.version <==>
              before.version != LARGEST || ChangedOrInitial(lib, before, dl, i)
    {
      NamesContain(dl.workloads, i);
      if !Changed(lib, before, dl, dl.workloads[i].name) {
        var j := VersionsBounded(before.workloads, dl.workloads[i].name);
        assert before.workloads[j] in before.workloads;
      }
    }
    assert forall i :: 0 <= i < |after.workloads| ==> after.workloads[i] in after.workloads;
  }

  lemma AnswerKeepsOrder(before: Deployment, after: Deployment)
    requires IsAnswer(before, after) && Ordered(before)
    ensures Ordered(after)
  {
    forall w | w in after.workloads ensures w.version <= after.version {
      var j :| 0 <= j < |after.workloads| && after.workloads[j] == w;
      var i := AnswerFrom(before, after, j);
      assert before.workloads[i] in before.workloads;
    }
  }

  ghost predicate HarmlessAt(lib: Library, h: History, i: nat)
    requires IsHistory(lib, h) && 0 < i < |h.copies|
  {
    assert IsStep(lib, h, i);
    WrapIsHarmless(lib, h.bases[i - 1], h.requests[i - 1])
  }

  lemma {:induction false} OrderedUpTo(lib: Library, h: History, k: nat)
    requires IsHistory(lib, h) && k < |h.copies| && Ordered(h.copies[0])
    ensures (forall i :: 0 <= i <= k ==> Ordered(h.copies[i])) <==> (forall i :: 0 < i <= k ==> HarmlessAt(lib, h, i))
    decreases k
  {
    if k > 0 {
      OrderedUpTo(lib, h, k - 1);
      if forall i :: 0 <= i <= k - 1 ==> Ordered(h.copies[i]) {
        OrderedAt(lib, h, k);
        assert forall i :: 0 < i <= k - 1 ==> HarmlessAt(lib, h, i);
      }
    }
  }

  lemma OrderedAt(lib: Library, h: History, k: nat)
    requires IsHistory(lib, h) && 0 < k < |h.copies| && Ordered(h.copies[k - 1])
    ensures Ordered(h.copies[k]) <==> HarmlessAt(lib, h, k)
  {
    assert IsStep(lib, h, k);
    AnswerKeepsOrder(h.copies[k - 1], h.bases[k - 1]);
    UpdateKeepsOrder(lib, h.bases[k - 1], h.requests[k - 1]);
  }

  /**
   * Over a whole history no workload is ever ahead of its deployment exactly when every wrap of the
   * 32-bit version is harmless; in particular when there is none.
   */
  lemma WorkloadsNeverAhead(lib: Library, h: History)
    requires IsHistory(lib, h) && Ordered(h.copies[0])
    ensures (forall i :: 0 <= i < |h.copies| ==> Ordered(h.copies[i]))
            <==> (forall i :: 0 < i < |h.copies| ==> HarmlessAt(lib, h, i))
    ensures h.copies[0].version + |h.requests| <= LARGEST ==> forall i :: 0 <= i < |h.copies| ==> Ordered(h.copies[i])
  {
    OrderedUpTo(lib, h, |h.requests|);
    if h.copies[0].version + |h.requests| <= LARGEST {
      forall i | 0 < i < |h.copies| ensures HarmlessAt(lib, h, i) {
        VersionCountsUpdates(lib, h, i - 1);
        assert IsStep(lib, h, i);
      }
    }
  }

  /**
   * A wrap that is not harmless: of two workloads at the largest version one changes, so the update is
   * sent; the other keeps its version and is then ahead.
   */
  lemma WrapBreaksTheOrder(lib: Library, a: Workload, b: Workload, changed: Workload)
    requires a.version == b.version == LARGEST && changed.name == a.name != b.name
    requires lib.workloadDigest(a).Some? && lib.workloadDigest(b).Some? && lib.workloadDigest(changed).Some?
    requires lib.workloadDigest(changed) != lib.workloadDigest(a)
    requires lib.digest(Deployment(0, 0, [changed, b])) != lib.digest(Deployment(LARGEST, 1, [a, b]))
    ensures var copy, request := Deployment(LARGEST, 1, [a, b]), Deployment(0, 0, [changed, b]);
            && Ordered(copy) && !Unchanged(lib, request, copy)
            && Successor(lib, copy, request) == Some(Deployment(0, 1, [changed.(version := 0), b]))
            && !Ordered(Deployment(0, 1, [changed.(version := 0), b]))
  {
    SuccessorOfTwo(lib, a, b, changed);
    assert b in [changed.(version := 0), b] && b.version > 0;
  }

  lemma SuccessorOfTwo(lib: Library, a: Workload, b: Workload, changed: Workload)
    requires a.version == b.version == LARGEST && changed.name == a.name != b.name
    requires lib.workloadDigest(a).Some? && lib.workloadDigest(b).Some? && lib.workloadDigest(changed).Some?
    requires lib.workloadDigest(changed) != lib.workloadDigest(a)
    ensures Successor(lib, Deployment(LARGEST, 1, [a, b]), Deployment(0, 0, [changed, b]))
         == Some(Deployment(0, 1, [changed.(version := 0), b]))
  {
    var olds, news := [a, b], [changed, b];
    TwoNamed(lib, a, b);
    TwoNamed(lib, changed, b);
    var before, after, versions := HashesOf(lib, olds).value, HashesOf(lib, news).value, VersionsOf(olds);
    assert Renumbered(news[0], 0, before, after, versions) == changed.(version := 0);
    assert Renumbered(news[1], 0, before, after, versions) == b;
    assert Successor(lib, Deployment(LARGEST, 1, olds), Deployment(0, 0, news)).value.workloads ==
        [changed.(version := 0), b];
  }

  lemma TwoNamed(lib: Library, a: Workload, b: Workload)
    requires a.name != b.name && lib.workloadDigest(a).Some? && lib.workloadDigest(b).Some?
    ensures HashesOf(lib, [a, b]) ==
            Some(map[a.name := lib.workloadDigest(a).value, b.name := lib.workloadDigest(b).value])
    ensures VersionsOf([a, b]) == map[a.name := a.version, b.name := b.version]
  {
    assert [a, b][..1] == [a] && [a][..0] == [];
    assert HashesOf(lib, []) == Some(map[]);
    assert HashesOf(lib, [a]) == Some(map[a.name := lib.workloadDigest(a).value]);
    assert VersionsOf([a]) == map[a.name := a.version];
  }

  // ----- Histories and runs -----

  /** The node's copy is what it has made of the last one in the history. */
  ghost predicate Follows(lib: Library, h: History, copy: Deployment) {
    IsHistory(lib, h) && IsAnswer(h.copies[|h.copies| - 1], copy)
  }

  /** Between updates the node may answer as it likes. */
  lemma AnswersFollow(lib: Library, h: History, copy: Deployment, answered: Deployment)
    requires Follows(lib, h, copy) && IsAnswer(copy, answered)
    ensures Follows(lib, h, answered)
  {
  }

  lemma HistoryGrows(lib: Library, h: History, copy: Deployment, dl: Deployment, after: Deployment)
    requires Follows(lib, h, copy) && IsUpdate(lib, copy, dl, after) && UniqueNames(dl.workloads)
    ensures Follows(lib, History(h.copies + [after], h.bases + [copy], h.requests + [dl]), after)
  {
    var more := History(h.copies + [after], h.bases + [copy], h.requests + [dl]);
    forall i, j | 0 <= i < j < |after.workloads| ensures after.workloads[i].name != after.workloads[j].name {
      assert after.workloads[i].name == dl.workloads[i].name && after.workloads[j].name == dl.workloads[j].name;
    }
    forall i | 0 < i < |more.copies| ensures IsStep(lib, more, i) {
      if i < |h.copies| { assert IsStep(lib, h, i); }
    }
  }

  /** A run of the deploy protocol extends the history of each node it updates by one, or leaves it alone. */
  lemma RunExtendsHistory(
      lib: Library, g: Grid, mid: Grid, k: Grid, olds: Contracts, news: Deployments, cur: Contracts,
      failed: Option<Failure>,
      n: NodeId, h: History)
    requires Run(lib, g, mid, k, olds, news, cur, failed) && n in olds && (n, olds[n]) in g.store
    requires Follows(lib, h, g.store[(n, olds[n])]) && (n in news ==> UniqueNames(news[n].workloads))
    ensures (n, olds[n]) in k.store
    ensures var was, now := g.store[(n, olds[n])], k.store[(n, olds[n])];
            || now == was
            || (n in news && Follows(lib, History(h.copies + [now], h.bases + [was], h.requests + [news[n]]), now))
  {
    var key := (n, olds[n]);
    assert mid.store[key] == g.store[key];
    if !(failed.Some? && failed.value.CreationFailed?) {
      assert Touched(lib, mid, k, olds, news, key);
      if k.store[key] != g.store[key] { HistoryGrows(lib, h, g.store[key], news[n], k.store[key]); }
    }
  }

  /** What may happen to the grid: a node answers, or the deploy protocol runs. */
  datatype Event = Answered | Ran(mid: Grid, olds: Contracts, news: Deployments, cur: Contracts,
      failed: Option<Failure>)

  ghost predicate Happens(lib: Library, g: Grid, e: Event, k: Grid) {
    match e
    case Answered => forall x :: x in g.store ==> x in k.store && IsAnswer(g.store[x], k.store[x])
    case Ran(mid, olds, news, cur, failed) =>
      Run(lib, g, mid, k, olds, news, cur, failed) && forall n :: n in news ==> UniqueNames(news[n].workloads)
  }

  /** The grids between the events. */
  ghost predicate IsTimeline(lib: Library, grids: seq<Grid>, events: seq<Event>) {
    |grids| == |events| + 1 && forall i :: 0 <= i < |events| ==> Happens(lib, grids[i], events[i], grids[i + 1])
  }

  /** One event extends the history of a stored deployment by an update, or leaves it. */
  lemma EventExtendsHistory(
      lib: Library, g: Grid, e: Event, k: Grid, key: (NodeId, ContractId), h: History)
    returns (h': History)
    requires Happens(lib, g, e, k) && key in g.store && Follows(lib, h, g.store[key])
    ensures key in k.store && Follows(lib, h', k.store[key])
    ensures h'.copies[0] == h.copies[0] && |h.requests| <= |h'.requests| <= |h.requests| + if e.Ran? then 1 else 0
  {
    h' := h;
    match e {
      case Answered =>
        AnswersFollow(lib, h, g.store[key], k.store[key]);
      case Ran(mid, olds, news, cur, failed) =>
        if key.0 in olds && olds[key.0] == key.1 {
          RunExtendsHistory(lib, g, mid, k, olds, news, cur, failed, key.0, h);
          if k.store[key] != g.store[key] {
            h' := History(h.copies + [k.store[key]], h.bases + [g.store[key]], h.requests + [news[key.0]]);
          }
        } else {
          RunKeepsOthers(lib, g, mid, k, olds, news, cur, failed, key);
        }
    }
  }

  lemma RunKeepsOthers(
      lib: Library, g: Grid, mid: Grid, k: Grid, olds: Contracts, news: Deployments, cur: Contracts,
      failed: Option<Failure>,
      key: (NodeId, ContractId))
    requires Run(lib, g, mid, k, olds, news, cur, failed) && key in g.store && !(key.0 in olds && olds[key.0] == key.1)
    ensures key in k.store && k.store[key] == g.store[key]
  {
    assert mid.store[key] == g.store[key];
    if k != mid { assert Touched(lib, mid, k, olds, news, key); }
  }

  /**
   * Over any sequence of runs, of nodes' answers in between, and of failures anywhere, the copy of a
   * deployment follows a history of updates: so whatever is proved of histories holds of it.
   */
  lemma {:induction false} TimelineHasHistory(
      lib: Library, grids: seq<Grid>, events: seq<Event>, key: (NodeId, ContractId))
    returns (h: History)
    requires IsTimeline(lib, grids, events) && key in grids[0].store && UniqueNames(grids[0].store[key].workloads)
    ensures key in grids[|events|].store && Follows(lib, h, grids[|events|].store[key])
    ensures h.copies[0] == grids[0].store[key] && |h.requests| <= |events|
    decreases |events|
  {
    if events == [] {
      h := History([grids[0].store[key]], [], []);
    } else {
      var n := |events| - 1;
      assert forall i :: 0 <= i < n ==> Happens(lib, grids[..n + 1][i], events[..n][i], grids[..n + 1][i + 1]);
      var init := TimelineHasHistory(lib, grids[..n + 1], events[..n], key);
      h := EventExtendsHistory(lib, grids[n], events[n], grids[n + 1], key, init);
    }
  }

  /** With fewer events than the counter can hold, no workload of the copy is ever ahead of its deployment. */
  lemma NeverAheadOverTimeline(lib: Library, grids: seq<Grid>, events: seq<Event>, key: (NodeId, ContractId))
    requires IsTimeline(lib, grids, events) && key in grids[0].store && UniqueNames(grids[0].store[key].workloads)
    requires Ordered(grids[0].store[key]) && grids[0].store[key].version + |events| <= LARGEST
    ensures key in grids[|events|].store && Ordered(grids[|events|].store[key])
  {
    var h := TimelineHasHistory(lib, grids, events, key);
    WorkloadsNeverAhead(lib, h);
    AnswerKeepsOrder(h.copies[|h.copies| - 1], grids[|events|].store[key]);
  }
}
