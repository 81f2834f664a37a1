/** Reading a list through a partial function, in order. */
module Collecting {
  import opened Wrappers

  function ReadOne<W, T>(w: W, f: W -> Option<T>): seq<T> {
    if f(w).Some? then [f(w).value] else []
  }

  /** What `f` reads from the list, in its order, skipping those it cannot read. */
  function Collect<W, T>(ws: seq<W>, f: W -> Option<T>): seq<T> {
    if ws == [] then []
    else Collect(ws[..|ws| - 1], f) + ReadOne(ws[|ws| - 1], f)
  }

  lemma {:induction false} CollectConcat<W, T>(s: seq<W>, u: seq<W>, f: W -> Option<T>)
    ensures Collect(s + u, f) == Collect(s, f) + Collect(u, f)
    decreases |u|
  {
    if u == [] {
      assert s + u == s;
    } else {
      assert (s + u)[..|s + u| - 1] == s + u[..|u| - 1];
      CollectConcat(s, u[..|u| - 1], f);
    }
  }

  lemma {:induction false} CollectNothing<W, T>(ws: seq<W>, f: W -> Option<T>)
    requires forall w :: w in ws ==> f(w).None?
    ensures Collect(ws, f) == []
    decreases |ws|
  {
    if ws != [] { CollectNothing(ws[..|ws| - 1], f); }
  }

  lemma CollectOne<W, T>(w: W, f: W -> Option<T>)
    ensures Collect([w], f) == ReadOne(w, f)
  {
    assert [w][..0] == [];
  }

  lemma MiddleOut<T>(a: seq<T>, m: seq<T>, b: seq<T>)
    ensures multiset(a + m + b) == multiset(a + b) + multiset(m)
  {
  }

  /** Taking one element out takes out what is read from it. */
  lemma CollectMiddle<W, T>(a: seq<W>, w: W, b: seq<W>, f: W -> Option<T>)
    ensures multiset(Collect(a + [w] + b, f)) == multiset(Collect(a + b, f)) + multiset(ReadOne(w, f))
  {
    CollectConcat(a + [w], b, f);
    CollectConcat(a, [w], f);
    CollectOne(w, f);
    CollectConcat(a, b, f);
    MiddleOut(Collect(a, f), ReadOne(w, f), Collect(b, f));
  }

  /** A permutation of a non-empty list contains its head, and the rest is a permutation again. */
  lemma SameRest<W>(w: W, s: seq<W>, u: seq<W>) returns (a: seq<W>, b: seq<W>)
    requires multiset([w] + s) == multiset(u)
    ensures u == a + [w] + b && multiset(s) == multiset(a + b)
  {
    assert w in multiset([w] + s);
    assert w in multiset(u);
    var i :| 0 <= i < |u| && u[i] == w;
    a, b := u[..i], u[i + 1..];
    assert u == a + [w] + b;
    assert multiset(s) == multiset([w] + s) - multiset{w};
    assert multiset(a + b) == multiset(u) - multiset{w};
  }

  /** Reading a permutation yields a permutation of what is read. */
  lemma {:induction false} CollectPermutes<W, T>(s: seq<W>, u: seq<W>, f: W -> Option<T>)
    requires multiset(s) == multiset(u)
    ensures multiset(Collect(s, f)) == multiset(Collect(u, f))
    decreases |s|
  {
    if s == [] {
      assert |multiset(u)| == |multiset(s)| == 0;
    } else {
      var w, rest := s[0], s[1..];
      assert s == [w] + rest;
      var a, b := SameRest(w, rest, u);
      CollectPermutes(rest, a + b, f);
      CollectMiddle([], w, rest, f);
      CollectMiddle(a, w, b, f);
      assert [] + [w] + rest == s && [] + rest == rest;
    }
  }

  lemma Assoc<W>(s: seq<W>, u: seq<W>, v: seq<W>)
    ensures (s + u) + v == s + (u + v)
  {
  }
}
