/** The whole comparison: match, classify, build, and what planning gives back. */
module Diff {
  import opened Options
  import opened Trees
  import opened Graphs
  import C = Classify
  import L = Lis
  import M = Matchings
  import P = Planner
  import R = Replay
  import T = TextDiff
  import U = Build

  /** Evidence for the passes and proposals of the heuristic ones. */
  datatype Hints = Hints(ea: M.Evidence, eb: M.Evidence, near: seq<(nat, nat)>, align: seq<(nat, nat)>)

  predicate HintsFor(h: Hints, a: Tree, b: Tree) {
    M.Describes(h.ea, a) && M.Describes(h.eb, b)
  }

  /** Compare two trees and apply all differences to the first: the second comes out, for every
      pair of documents, every hash and identity assignment and every heuristic proposal. */
  method DiffAndApply(a: Tree, b: Tree, h: Hints, level: T.Level, maxNd: nat) returns (r: P.Plan)
    requires WellFormed(a) && WellFormed(b) && HintsFor(h, a, b)
    ensures r.Ok? && r.doc == ToDoc(b)
  {
    var m := M.MatchTrees(a, b, h.ea, h.eb, h.near, h.align);
    r := P.DiffAndApply(a, b, m, level, maxNd);
  }

  // ----- comparing a tree with itself --------------------------------------

  lemma {:induction false} KidsAreChildren(a: Tree, m: C.Pairing, p: nat, cs: seq<nat>)
    requires C.Inputs(a, a, m) && M.Identity(a, m) && p < |a| &&
      forall i :: 0 <= i < |cs| ==> cs[i] < |a| && a[cs[i]].parent == Some(p)
    ensures C.KidsAmong(a, a, m, p, cs) == cs
  {
    if cs != [] {
      var n := |cs| - 1;
      KidsAreChildren(a, m, p, cs[..n]);
      assert cs == cs[..n] + [cs[n]];
      assert C.IsKid(a, a, m, p, cs[n]);
    }
  }

  /** A strictly increasing list of n indices below n lists them all. */
  lemma {:induction false} IncreasingIsAll(c: seq<nat>, n: nat, i: nat)
    requires |c| == n && i < n && (forall j, k :: 0 <= j < k < n ==> c[j] < c[k]) && forall j :: 0 <= j < n ==> c[j] < n
    ensures c[i] == i
  {
    IncreasingFrom(c, i);
    IncreasingTo(c, n, i);
  }

  lemma {:induction false} IncreasingFrom(c: seq<nat>, i: nat)
    requires i < |c| && forall j, k :: 0 <= j < k < |c| ==> c[j] < c[k]
    ensures i <= c[i]
  {
    if i > 0 { IncreasingFrom(c, i - 1); }
  }

  lemma {:induction false} IncreasingTo(c: seq<nat>, n: nat, i: nat)
    requires |c| == n && i < n && (forall j, k :: 0 <= j < k < n ==> c[j] < c[k]) && forall j :: 0 <= j < n ==> c[j] < n
    ensures c[i] <= i
    decreases n - i
  {
    if i < n - 1 { IncreasingTo(c, n, i + 1); }
  }

  /** Children of one parent are all kept in place. */
  lemma {:induction false} AllStay(a: Tree, m: C.Pairing, ord: seq<nat>, moved: seq<bool>, p: nat, j: nat)
    requires C.Inputs(a, a, m) && M.Identity(a, m) && C.MovedOk(a, a, m, ord, moved) && p < |a| && j < |a[p].children|
    ensures a[p].children[j] < |a| && !moved[a[p].children[j]]
  {
    assert ChildrenOk(a, p);
    var ks := C.Kids(a, a, m, p);
    KidsAreChildren(a, m, p, a[p].children);
    var xs := C.Ords(m, ord, ks);
    assert forall t :: 0 <= t < |ks| ==> xs[t] == t;
    assert C.Settled(a, a, m, ord, moved, p);
    var stays :| C.StaysAre(ks, xs, moved, stays);
    SortedStays(ks, xs, moved, stays, j);
  }

  lemma {:induction false} SortedStays(ks: seq<nat>, xs: seq<nat>, moved: seq<bool>, stays: seq<nat>, j: nat)
    requires C.StaysAre(ks, xs, moved, stays) && j < |ks| && ks[j] < |moved| && forall t :: 0 <= t < |ks| ==> xs[t] == t
    ensures !moved[ks[j]]
  {
    var all := seq(|ks|, t requires 0 <= t < |ks| => t);
    assert L.Increasing(xs, all);
    AtMostAll(xs, stays);
    IncreasingIsAll(stays, |ks|, j);
    assert stays[j] == j && j in stays;
  }

  lemma {:induction false} AtMostAll(xs: seq<nat>, c: seq<nat>)
    requires L.Increasing(xs, c)
    ensures |c| <= |xs|
  {
    if c != [] { IncreasingFrom(c, |c| - 1); }
  }

  lemma {:induction false} NothingMoved(a: Tree, m: C.Pairing, ord: seq<nat>, moved: seq<bool>, x: nat)
    requires C.Inputs(a, a, m) && M.Identity(a, m) && C.MovedOk(a, a, m, ord, moved) && 0 < x < |a|
    ensures !moved[x]
  {
    assert ParentOk(a, x);
    var p := a[x].parent.value;
    var j :| 0 <= j < |a[p].children| && a[p].children[j] == x;
    AllStay(a, m, ord, moved, p, j);
  }

  lemma {:induction false} NothingLegal(a: Tree, m: C.Pairing, moved: seq<bool>, r: C.Raw)
    requires C.Inputs(a, a, m) && M.Identity(a, m) && |moved| == |a| && forall x :: 0 <= x < |a| ==> !moved[x]
    ensures !C.RawOk(a, a, m, moved, r)
  {
  }

  /** A tree compared with itself under the identity matching has no differences. */
  lemma {:induction false} SelfHasNoChanges(s: R.Case)
    requires s.Ok() && s.b == s.a && M.Identity(s.a, s.m)
    ensures s.ops == []
  {
    forall x | 0 <= x < |s.a| ensures !s.moved[x] {
      if x > 0 { NothingMoved(s.a, s.m, s.ord, s.moved, x); }
    }
    if s.raws != [] {
      assert s.raws[0] in s.raws;
      NothingLegal(s.a, s.m, s.moved, s.raws[0]);
    }
  }

  /** Comparing a document with itself finds nothing to change. */
  method DiffWithItself(a: Tree, e: M.Evidence, near: seq<(nat, nat)>, align: seq<(nat, nat)>, level: T.Level,
      maxNd: nat) returns (g: Graph)
    requires WellFormed(a) && M.Describes(e, a)
    ensures g.changes == [] && g.source == ToDoc(a)
  {
    var m := M.MatchTrees(a, a, e, e, near, align);
    var built, moved, ord, raws, ops := U.Build(a, a, m, level, maxNd);
    SelfHasNoChanges(R.Case(a, a, m, ord, moved, raws, ops));
    g := built;
  }
}
