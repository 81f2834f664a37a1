/** Waiting for a deployment: a poll loop that gives up after a window without progress. */
module Waiting {
  import opened Wrappers
  import opened GridTypes

  /** One entry of a node's change list. */
  datatype Change = Change(name: string, version: uint32, state: State)

  /**
   * One poll: when it ended, the change list unless the call failed, and whether the backoff stops
   * retrying after it because the context is done.
   */
  datatype Poll = Poll(time: int, changes: Option<seq<Change>>, contextDone: bool)

  type Expected = map<string, uint32>

  const WINDOW := 240       // seconds without progress
  const MAX_ELAPSED := 3000 // seconds the backoff retries at all

  datatype Outcome = Ready | Unreadable | Broken(change: Change) | TimedOut | Stopped

  predicate Matches(c: Change, expected: Expected) {
    c.name in expected && c.version == expected[c.name]
  }

  predicate IsBad(s: State) {
    s.StateError? || s.StateDeleted? || s.StatePaused? || s.StateUnChanged?
  }

  /** What one change list says: the first matching entry in a bad state, or the number of OK ones. */
  datatype Verdict = Bad(change: Change) | Counted(ok: nat)

  function Inspect(changes: seq<Change>, expected: Expected): Verdict {
    if changes == [] then Counted(0)
    else
      var init, c := changes[..|changes| - 1], changes[|changes| - 1];
      match Inspect(init, expected)
      case Bad(b) => Bad(b)
      case Counted(n) =>
        if !Matches(c, expected) then Counted(n)
        else if c.state.StateOk? then Counted(n + 1)
        else if IsBad(c.state) then Bad(c)
        else Counted(n)
  }

  method InspectChanges(changes: seq<Change>, expected: Expected) returns (v: Verdict)
    ensures v == Inspect(changes, expected)
  {
    var stateOk := 0;
    for i := 0 to |changes|
      invariant Inspect(changes[..i], expected) == Counted(stateOk)
    {
      assert changes[..i + 1][..i] == changes[..i];
      var c := changes[i];
      if Matches(c, expected) {
        match c.state
        case StateOk => stateOk := stateOk + 1;
        case StateInit =>
        case StateError => BadStays(changes, i + 1, expected); return Bad(c);
        case StateDeleted => BadStays(changes, i + 1, expected); return Bad(c);
        case StatePaused => BadStays(changes, i + 1, expected); return Bad(c);
        case StateUnChanged => BadStays(changes, i + 1, expected); return Bad(c);
      }
    }
    assert changes[..|changes|] == changes;
    return Counted(stateOk);
  }

  lemma {:induction false} BadStays(changes: seq<Change>, i: nat, expected: Expected)
    requires i <= |changes| && Inspect(changes[..i], expected).Bad?
    ensures Inspect(changes, expected) == Inspect(changes[..i], expected)
    decreases |changes| - i
  {
    if i == |changes| {
      assert changes[..i] == changes;
    } else {
      assert changes[..i + 1][..i] == changes[..i];
      BadStays(changes, i + 1, expected);
    }
  }

  ghost predicate Advancing(polls: nat -> Poll, start: int) {
    start <= polls(0).time && forall i: nat, j: nat :: i < j ==> polls(i).time < polls(j).time
  }

  /** Consecutive polls end at most `gap` seconds apart. */
  ghost predicate Paced(polls: nat -> Poll, start: int, gap: int) {
    0 <= gap && polls(0).time <= start + gap &&
        forall i: nat, j: nat :: j == i + 1 ==> polls(j).time <= polls(i).time + gap
  }

  /** A change list holds at most one entry per name and version. */
  ghost predicate UniqueEntries(changes: seq<Change>) {
    forall i, j :: 0 <= i < j < |changes| ==>
        changes[i].name != changes[j].name || changes[i].version != changes[j].version
  }

  ghost predicate AllUnique(polls: nat -> Poll) {
    forall i: nat :: polls(i).changes.Some? ==> UniqueEntries(polls(i).changes.value)
  }

  /** A poll after which the loop goes on: readable, nothing bad, and not everything OK yet. */
  ghost predicate Inconclusive(p: Poll, expected: Expected) {
    && p.changes.Some?
    && var v := Inspect(p.changes.value, expected);
    && v.Counted? && v.ok != |expected|
  }

  /** One attempt ends the wait, or leaves the best count so far and when it was reached. */
  datatype Attempt = Ends(outcome: Outcome) | GoesOn(bestTime: int, bestOk: nat)

  function Attempted(poll: Poll, expected: Expected, bestTime: int, bestOk: nat): Attempt {
    if poll.changes.None? then Ends(Outcome.Unreadable)
    else
      match Inspect(poll.changes.value, expected)
      case Bad(c) => Ends(Broken(c))
      case Counted(n) =>
        if n == |expected| then Ends(Ready)
        else if bestOk < n then GoesOn(poll.time, n)
        else if poll.time - bestTime > WINDOW then Ends(TimedOut)
        else GoesOn(bestTime, bestOk)
  }

  method Try(poll: Poll, expected: Expected, bestTime: int, bestOk: nat) returns (r: Attempt)
    ensures r == Attempted(poll, expected, bestTime, bestOk)
  {
    if poll.changes.None? { return Ends(Outcome.Unreadable); }
    var verdict := InspectChanges(poll.changes.value, expected);
    if verdict.Bad? { return Ends(Broken(verdict.change)); }
    var stateOk := verdict.ok;
    if stateOk == |expected| { return Ends(Ready); }
    if bestOk < stateOk { return GoesOn(poll.time, stateOk); }
    if poll.time - bestTime > WINDOW { return Ends(TimedOut); }
    return GoesOn(bestTime, bestOk);
  }

  /** What the last poll says about the outcome. */
  ghost predicate Decides(poll: Poll, expected: Expected, r: Outcome) {
    && (r.Unreadable? <==> poll.changes.None?)
    && (poll.changes.Some? ==>
          match Inspect(poll.changes.value, expected)
          case Bad(c) => r == Broken(c)
          case Counted(n) => (r.Ready? <==> n == |expected|) && (n != |expected| ==> r.TimedOut? || r.Stopped?))
  }

  /** The length of `n` windows, each with the gap to the poll that closes it. */
  ghost function Windows(n: nat, gap: int): int {
    if n == 0 then 0 else Windows(n - 1, gap) + WINDOW + gap
  }

  lemma {:induction false} WindowsGrow(m: nat, n: nat, gap: int)
    requires m <= n && 0 <= gap
    ensures Windows(m, gap) <= Windows(n, gap)
    decreases n
  {
    if m < n { WindowsGrow(m, n - 1, gap); }
  }

  /** The best count was reached within so many windows, and never exceeds what is expected. */
  ghost predicate InTime(polls: nat -> Poll, start: int, gap: int, expected: Expected, bestTime: int, bestOk: nat) {
    Paced(polls, start, gap) && AllUnique(polls) ==>
      bestOk <= |expected| && bestTime <= start + Windows(bestOk, gap)
  }

  /** The poll comes at most one window per expected workload, and one more, after the start. */
  ghost predicate IsTimely(polls: nat -> Poll, start: int, gap: int, expected: Expected, n: nat) {
    Paced(polls, start, gap) && AllUnique(polls) ==> polls(n).time <= start + Windows(|expected| + 1, gap)
  }

  lemma StillInTime(polls: nat -> Poll, start: int, gap: int, expected: Expected, bestTime: int, bestOk: nat, last: nat)
    requires InTime(polls, start, gap, expected, bestTime, bestOk)
    requires Paced(polls, start, gap) ==> polls(last).time <= bestTime + WINDOW + gap
    ensures IsTimely(polls, start, gap, expected, last)
    ensures var next := Attempted(polls(last), expected, bestTime, bestOk);
            next.GoesOn? ==> InTime(polls, start, gap, expected, next.bestTime, next.bestOk)
  {
    if Paced(polls, start, gap) && AllUnique(polls) {
      WindowsGrow(bestOk + 1, |expected| + 1, gap);
      var next := Attempted(polls(last), expected, bestTime, bestOk);
      if next.GoesOn? {
        CountIsBounded(polls(last).changes.value, expected);
        if bestOk < next.bestOk { WindowsGrow(bestOk + 1, next.bestOk, gap); }
      }
    }
  }

  // ----- When the wait gives up -----

  /** The number of OK entries a poll counts; 0 if it counts none. */
  ghost function CountAt(p: Poll, expected: Expected): nat {
    if p.changes.None? then 0
    else match Inspect(p.changes.value, expected) case Bad(_) => 0 case Counted(n) => n
  }

  /** Poll `i` counts more than every earlier one. */
  ghost predicate Improves(polls: nat -> Poll, expected: Expected, i: nat) {
    0 < CountAt(polls(i), expected) &&
        forall k: nat :: k < i ==> CountAt(polls(k), expected) < CountAt(polls(i), expected)
  }

  /** A whole window lies between the start and poll `i`, and no poll since its beginning made progress. */
  ghost predicate Stale(polls: nat -> Poll, start: int, expected: Expected, i: nat) {
    && polls(i).time - start > WINDOW
    && forall k: nat :: k <= i && polls(i).time - polls(k).time <= WINDOW ==> !Improves(polls, expected, k)
  }

  /** The best count of the polls before `n`, and when the last poll that made progress ended: poll `i`, if any. */
  ghost predicate IsBest(
      polls: nat -> Poll, start: int, expected: Expected, n: nat, bestTime: int, bestOk: nat, i: nat)
  {
    && (forall k: nat :: k < n ==> CountAt(polls(k), expected) <= bestOk)
    && (forall k: nat :: (bestOk == 0 || i < k) && k < n ==> !Improves(polls, expected, k))
    && (bestOk == 0 ==> bestTime == start)
    && (bestOk > 0 ==>
          && i < n && Improves(polls, expected, i)
          && CountAt(polls(i), expected) == bestOk && polls(i).time == bestTime)
  }

  lemma {:induction false} TimesGrow(polls: nat -> Poll, start: int, i: nat, j: nat)
    requires Advancing(polls, start) && i <= j
    ensures start <= polls(i).time <= polls(j).time
    decreases j
  {
    if i < j {
      TimesGrow(polls, start, i, j - 1);
    } else if i > 0 {
      TimesGrow(polls, start, i - 1, i - 1);
    }
  }

  lemma StaleWithout(polls: nat -> Poll, start: int, expected: Expected, n: nat, bestTime: int, bestOk: nat, i: nat)
    requires Advancing(polls, start) && IsBest(polls, start, expected, n, bestTime, bestOk, i) &&
             !Improves(polls, expected, n)
    ensures Stale(polls, start, expected, n) <==> polls(n).time - bestTime > WINDOW
  {
    if bestOk > 0 {
      TimesGrow(polls, start, i, n);
      forall k: nat | k <= n && polls(n).time - bestTime > WINDOW && polls(n).time - polls(k).time <= WINDOW
        ensures !Improves(polls, expected, k)
      {
        if k <= i { TimesGrow(polls, start, k, i); }
      }
    }
  }

  lemma BestAfterProgress(
      polls: nat -> Poll, start: int, expected: Expected, n: nat, bestTime: int, bestOk: nat, i: nat)
    requires IsBest(polls, start, expected, n, bestTime, bestOk, i) && bestOk < CountAt(polls(n), expected)
    ensures Improves(polls, expected, n)
    ensures IsBest(polls, start, expected, n + 1, polls(n).time, CountAt(polls(n), expected), n)
  {
  }

  lemma BestAfterNone(polls: nat -> Poll, start: int, expected: Expected, n: nat, bestTime: int, bestOk: nat, i: nat)
    requires IsBest(polls, start, expected, n, bestTime, bestOk, i) && CountAt(polls(n), expected) <= bestOk
    ensures !Improves(polls, expected, n) && IsBest(polls, start, expected, n + 1, bestTime, bestOk, i)
  {
  }

  /** The poll that made the last progress, once poll `n` is counted. */
  ghost function Latest(polls: nat -> Poll, expected: Expected, n: nat, bestOk: nat, i: nat): nat {
    if bestOk < CountAt(polls(n), expected) then n else i
  }

  /**
   * An inconclusive poll ends the wait exactly when it closes a window without progress; otherwise the
   * wait goes on with the best count so far and the time of the last progress.
   */
  lemma ProgressStep(polls: nat -> Poll, start: int, expected: Expected, n: nat, bestTime: int, bestOk: nat, i: nat)
    requires Advancing(polls, start) && IsBest(polls, start, expected, n, bestTime, bestOk, i) &&
             Inconclusive(polls(n), expected)
    ensures var next := Attempted(polls(n), expected, bestTime, bestOk);
            if Stale(polls, start, expected, n) then next == Ends(TimedOut)
            else
              && next.GoesOn?
              && IsBest(polls, start, expected, n + 1, next.bestTime, next.bestOk,
                 Latest(polls, expected, n, bestOk, i))
  {
    if bestOk < CountAt(polls(n), expected) {
      BestAfterProgress(polls, start, expected, n, bestTime, bestOk, i);
      assert polls(n).time - polls(n).time <= WINDOW;
    } else {
      BestAfterNone(polls, start, expected, n, bestTime, bestOk, i);
      StaleWithout(polls, start, expected, n, bestTime, bestOk, i);
    }
  }

  /** The backoff stops retrying after this poll. */
  predicate GivesUp(poll: Poll, start: int) {
    poll.contextDone || poll.time - start > MAX_ELAPSED
  }

  /** All polls before `n` were inconclusive, none closed a window without progress, and all were retried. */
  ghost predicate GoesOnUntil(polls: nat -> Poll, start: int, expected: Expected, n: nat) {
    forall i: nat :: i < n ==>
      Inconclusive(polls(i), expected) && !Stale(polls, start, expected, i) && !GivesUp(polls(i), start)
  }

  /** The state of the wait before poll `n`. */
  ghost predicate IsWaiting(
      polls: nat -> Poll, start: int, gap: int, expected: Expected, n: nat, bestTime: int, bestOk: nat, i: nat)
  {
    && GoesOnUntil(polls, start, expected, n)
    && IsBest(polls, start, expected, n, bestTime, bestOk, i)
    && InTime(polls, start, gap, expected, bestTime, bestOk)
    && start <= bestTime && (if n == 0 then bestTime == start else bestTime <= polls(n - 1).time <= bestTime + WINDOW)
  }

  /** What an attempt that ends the wait says about its poll. */
  ghost predicate EndsRightly(polls: nat -> Poll, start: int, expected: Expected, n: nat, r: Outcome) {
    && Decides(polls(n), expected, r)
    && (Inconclusive(polls(n), expected) ==> (r.TimedOut? <==> Stale(polls, start, expected, n)))
  }

  lemma WaitStep(
      polls: nat -> Poll, start: int, gap: int, expected: Expected, n: nat, bestTime: int, bestOk: nat, i: nat)
    requires Advancing(polls, start) && IsWaiting(polls, start, gap, expected, n, bestTime, bestOk, i)
    ensures IsTimely(polls, start, gap, expected, n)
    ensures match Attempted(polls(n), expected, bestTime, bestOk)
            case Ends(r) => !r.Stopped? && EndsRightly(polls, start, expected, n, r)
            case GoesOn(time, ok) =>
              && EndsRightly(polls, start, expected, n, Stopped)
              && (!GivesUp(polls(n), start) ==>
                 IsWaiting(polls, start, gap, expected, n + 1, time, ok, Latest(polls, expected, n, bestOk, i)))
  {
    StillInTime(polls, start, gap, expected, bestTime, bestOk, n);
    if Inconclusive(polls(n), expected) { ProgressStep(polls, start, expected, n, bestTime, bestOk, i); }
  }

  /** When poll `n` starts at the earliest: with the previous one. */
  ghost function Since(polls: nat -> Poll, start: int, n: nat): int {
    if n == 0 then start - 1 else polls(n - 1).time
  }

  /** One poll, and whether to retry after it. */
  method PollOnce(
      polls: nat -> Poll, start: int, expected: Expected, n: nat, bestTime: int, bestOk: nat, ghost gap: int,
      ghost i: nat)
    returns (r: Option<Outcome>, time: int, ok: nat, ghost latest: nat)
    requires Advancing(polls, start) && IsWaiting(polls, start, gap, expected, n, bestTime, bestOk, i)
    ensures IsTimely(polls, start, gap, expected, n)
    ensures r.Some? ==>
            EndsRightly(polls, start, expected, n, r.value) && (r.value.Stopped? ==> GivesUp(polls(n), start))
    ensures r.None? ==> IsWaiting(polls, start, gap, expected, n + 1, time, ok, latest)
    ensures r.None? ==> Since(polls, start, n) < Since(polls, start, n + 1) <= start + MAX_ELAPSED
  {
    WaitStep(polls, start, gap, expected, n, bestTime, bestOk, i);
    latest := Latest(polls, expected, n, bestOk, i);
    time, ok := bestTime, bestOk;
    var attempt := Try(polls(n), expected, bestTime, bestOk);
    match attempt
    case Ends(outcome) => r := Some(outcome);
    case GoesOn(t, k) =>
      time, ok := t, k;
      r := if GivesUp(polls(n), start) then Some(Stopped) else None;
  }

  /**
   * The outcome is decided by the last poll, and every earlier one was inconclusive. It times out
   * exactly on the first poll that closes a window without progress. The loop ends because the clock
   * advances; if polls are paced and change lists have unique entries, it ends within one window per
   * expected workload.
   */
  method Wait(polls: nat -> Poll, start: int, expected: Expected, ghost gap: int) returns (r: Outcome, last: nat)
    requires Advancing(polls, start)
    ensures GoesOnUntil(polls, start, expected, last) && EndsRightly(polls, start, expected, last, r)
    ensures r.Stopped? ==> GivesUp(polls(last), start)
    ensures IsTimely(polls, start, gap, expected, last)
  {
    var bestTime, bestOk := start, 0;
    ghost var latest := 0;
    last := 0;
    while true
      invariant IsWaiting(polls, start, gap, expected, last, bestTime, bestOk, latest)
      invariant Since(polls, start, last) <= start + MAX_ELAPSED
      decreases start + MAX_ELAPSED - Since(polls, start, last)
    {
      var ended;
      ended, bestTime, bestOk, latest := PollOnce(polls, start, expected, last, bestTime, bestOk, gap, latest);
      if ended.Some? { return ended.value, last; }
      last := last + 1;
    }
  }

  // ----- What a full count means -----

  ghost predicate OkAt(changes: seq<Change>, expected: Expected, name: string) {
    name in expected && Change(name, expected[name], StateOk) in changes
  }

  ghost function OkNames(changes: seq<Change>, expected: Expected): set<string> {
    set name | name in expected && OkAt(changes, expected, name)
  }

  ghost predicate NoneBad(changes: seq<Change>, expected: Expected) {
    forall c :: c in changes && Matches(c, expected) ==> !IsBad(c.state)
  }

  /** One more entry adds its name when it is OK at its expected version, and nothing otherwise. */
  lemma OkNamesStep(init: seq<Change>, c: Change, expected: Expected)
    requires UniqueEntries(init + [c])
    ensures UniqueEntries(init)
    ensures Matches(c, expected) && c.state.StateOk? ==>
              c.name !in OkNames(init, expected) && OkNames(init + [c], expected) == OkNames(init, expected) + {c.name}
    ensures !(Matches(c, expected) && c.state.StateOk?) ==> OkNames(init + [c], expected) == OkNames(init, expected)
  {
    var all := init + [c];
    forall i, j | 0 <= i < j < |init| ensures init[i].name != init[j].name || init[i].version != init[j].version {
      assert all[i] == init[i] && all[j] == init[j];
    }
    forall name | name in OkNames(init, expected)
      ensures name in OkNames(all, expected) && (Matches(c, expected) ==> name != c.name)
    {
      var k :| 0 <= k < |init| && init[k] == Change(name, expected[name], StateOk);
      assert all[k] == init[k] && all[|init|] == c;
    }
  }

  lemma {:induction false} CountIsExact(changes: seq<Change>, expected: Expected)
    requires UniqueEntries(changes)
    ensures Inspect(changes, expected).Counted? <==> NoneBad(changes, expected)
    ensures Inspect(changes, expected).Counted? ==> Inspect(changes, expected).ok == |OkNames(changes, expected)|
  {
    if changes != [] {
      var init, c := changes[..|changes| - 1], changes[|changes| - 1];
      assert changes == init + [c];
      OkNamesStep(init, c, expected);
      CountIsExact(init, expected);
      assert NoneBad(changes, expected) <==> NoneBad(init, expected) && (Matches(c, expected) ==> !IsBad(c.state));
    } else {
      assert OkNames(changes, expected) == {};
    }
  }

  lemma {:induction false} SubsetSize<T>(s: set<T>, t: set<T>)
    requires s <= t
    ensures |s| <= |t|
    ensures |s| == |t| ==> s == t
  {
    if s != {} {
      var x :| x in s;
      SubsetSize(s - {x}, t - {x});
    }
  }

  lemma CountIsBounded(changes: seq<Change>, expected: Expected)
    requires UniqueEntries(changes) && Inspect(changes, expected).Counted?
    ensures Inspect(changes, expected).ok <= |expected|
  {
    CountIsExact(changes, expected);
    SubsetSize(OkNames(changes, expected), expected.Keys);
  }

  /** A poll ends the wait successfully exactly when every expected workload is OK at its version and none is bad. */
  lemma FullCountMeansAllOk(changes: seq<Change>, expected: Expected)
    requires UniqueEntries(changes)
    ensures Inspect(changes, expected) == Counted(|expected|)
            <==> NoneBad(changes, expected) && forall name :: name in expected ==> OkAt(changes, expected, name)
  {
    CountIsExact(changes, expected);
    SubsetSize(OkNames(changes, expected), expected.Keys);
    if forall name :: name in expected ==> OkAt(changes, expected, name) {
      assert OkNames(changes, expected) == expected.Keys;
    }
  }

  predicate CountsOk(c: Change, expected: Expected) {
    Matches(c, expected) && c.state.StateOk?
  }

  /** No workload is listed twice as OK at its expected version. */
  ghost predicate OkOnce(changes: seq<Change>, expected: Expected) {
    forall i, j :: 0 <= i < j < |changes| && CountsOk(changes[i], expected) && CountsOk(changes[j], expected) ==>
      changes[i].name != changes[j].name
  }

  /** One more entry adds its name if it counts, and breaks uniqueness if that name was there already. */
  lemma OkOnceStep(init: seq<Change>, c: Change, expected: Expected)
    ensures OkNames(init + [c], expected) == OkNames(init, expected) + if CountsOk(c, expected) then {c.name} else {}
    ensures OkOnce(init + [c], expected) <==>
            OkOnce(init, expected) && (CountsOk(c, expected) ==> c.name !in OkNames(init, expected))
  {
    var all := init + [c];
    forall name ensures OkAt(all, expected, name) <==>
        OkAt(init, expected, name) || (CountsOk(c, expected) && name == c.name) {
      if OkAt(init, expected, name) {
        var k :| 0 <= k < |init| && init[k] == Change(name, expected[name], StateOk);
        assert all[k] == init[k];
      }
      if CountsOk(c, expected) { assert all[|init|] == c; }
    }
    if OkOnce(all, expected) {
      forall i, j | 0 <= i < j < |init| && CountsOk(init[i], expected) && CountsOk(init[j], expected)
        ensures init[i].name != init[j].name
      {
        assert all[i] == init[i] && all[j] == init[j];
      }
      forall k | 0 <= k < |init| && CountsOk(init[k], expected) && CountsOk(c, expected)
        ensures init[k].name != c.name {
        assert all[k] == init[k] && all[|init|] == c;
      }
    }
    if OkOnce(init, expected) && (CountsOk(c, expected) ==> c.name !in OkNames(init, expected)) {
      forall i, j | 0 <= i < j < |all| && CountsOk(all[i], expected) && CountsOk(all[j], expected)
        ensures all[i].name != all[j].name
      {
        if j == |init| { assert init[i] == Change(init[i].name, expected[init[i].name], StateOk); }
      }
    }
  }

  /** The count is at least the number of workloads that are OK, and exactly that if none is listed twice. */
  lemma {:induction false} CountBounds(changes: seq<Change>, expected: Expected)
    requires Inspect(changes, expected).Counted?
    ensures |OkNames(changes, expected)| <= Inspect(changes, expected).ok
    ensures |OkNames(changes, expected)| == Inspect(changes, expected).ok <==> OkOnce(changes, expected)
    decreases |changes|
  {
    if changes != [] {
      var init, c := changes[..|changes| - 1], changes[|changes| - 1];
      assert changes == init + [c];
      CountBounds(init, expected);
      OkOnceStep(init, c, expected);
    } else {
      assert OkNames(changes, expected) == {};
    }
  }

  /**
   * Whatever the list holds: a full count means that every expected workload is OK exactly when no
   * workload is listed twice as OK at its expected version.
   */
  lemma FullCountIsReliable(changes: seq<Change>, expected: Expected)
    requires Inspect(changes, expected) == Counted(|expected|)
    ensures (forall name :: name in expected ==> OkAt(changes, expected, name)) <==> OkOnce(changes, expected)
  {
    CountBounds(changes, expected);
    SubsetSize(OkNames(changes, expected), expected.Keys);
    assert (forall name :: name in expected ==> OkAt(changes, expected, name)) <==>
        OkNames(changes, expected) == expected.Keys;
  }

  /** Without unique entries the count can be full while a workload is missing. */
  lemma RepeatedEntryCountsTwice()
    ensures var changes := [Change("a", 0, StateOk), Change("a", 0, StateOk)];
            var expected := map["a" := 0, "b" := 0];
            Inspect(changes, expected) == Counted(|expected|) && !OkAt(changes, expected, "b")
  {
    var c := Change("a", 0, StateOk);
    var expected: Expected := map["a" := 0, "b" := 0];
    assert [c, c][..1] == [c] && [c][..0] == [];
    assert Inspect([c], expected) == Counted(1);
    assert expected.Keys == {"a", "b"};
    assert "a"[0] != "b"[0];
  }
}
