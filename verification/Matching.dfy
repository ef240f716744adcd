/** The matching between two trees and the passes that fill it. */
module Matchings {
  import opened Options
  import opened Model
  import opened Trees
  import C = Classify

  /** Evidence layers, strongest first. */
  datatype Layer = I0 | I1Exact | I1Content | I2 | I3

  function Rank(l: Layer): nat {
    match l case I0 => 0 case I1Exact => 1 case I1Content => 2 case I2 => 3 case I3 => 4
  }

  /** The two directions agree and stay in range. */
  predicate OneToOne(m: C.Pairing) {
    && (forall x :: 0 <= x < |m.a2b| && m.a2b[x].Some? ==> m.a2b[x].value < |m.b2a| && m.b2a[m.a2b[x].value] == Some(x))
    && (forall y :: 0 <= y < |m.b2a| && m.b2a[y].Some? ==> m.b2a[y].value < |m.a2b| && m.a2b[m.b2a[y].value] == Some(y))
  }

  /** Every pair of m is a pair of m'. */
  predicate Extends(m: C.Pairing, m': C.Pairing) {
    && |m.a2b| == |m'.a2b| && |m.b2a| == |m'.b2a|
    && (forall x :: 0 <= x < |m.a2b| && m.a2b[x].Some? ==> m'.a2b[x] == m.a2b[x])
    && (forall y :: 0 <= y < |m.b2a| && m.b2a[y].Some? ==> m'.b2a[y] == m.b2a[y])
  }

  predicate KindsAgree(a: Tree, b: Tree, m: C.Pairing) {
    |m.a2b| == |a| && |m.b2a| == |b| &&
    forall x :: 0 <= x < |a| && m.a2b[x].Some? && m.a2b[x].value < |b| ==>
      a[x].shell.kind == b[m.a2b[x].value].shell.kind
  }

  /** x and y are free, or already paired with each other. */
  predicate Compatible(m: C.Pairing, x: nat, y: nat) {
    x < |m.a2b| && y < |m.b2a| &&
    ((m.a2b[x].None? && m.b2a[y].None?) || (m.a2b[x] == Some(y) && m.b2a[y] == Some(x)))
  }

  function Paired(m: C.Pairing, x: nat, y: nat): C.Pairing
    requires x < |m.a2b| && y < |m.b2a|
  {
    C.Pairing(m.a2b[x := Some(y)], m.b2a[y := Some(x)])
  }

  /** Adding a compatible pair keeps the matching one-to-one and removes nothing. */
  lemma {:induction false} PairedOk(m: C.Pairing, x: nat, y: nat)
    requires OneToOne(m) && Compatible(m, x, y)
    ensures OneToOne(Paired(m, x, y)) && Extends(m, Paired(m, x, y))
  {
  }

  lemma {:induction false} ExtendsTransitive(m: C.Pairing, m': C.Pairing, m'': C.Pairing)
    requires Extends(m, m') && Extends(m', m'')
    ensures Extends(m, m'')
  {
  }

  class Matching {
    var pairs: C.Pairing
    var layer: seq<Option<Layer>>

    ghost predicate Valid()
      reads this
    {
      OneToOne(pairs) && |layer| == |pairs.a2b| &&
      forall x :: 0 <= x < |layer| ==> (layer[x].Some? <==> pairs.a2b[x].Some?)
    }

    constructor (a: Tree, b: Tree)
      ensures Valid() && |pairs.a2b| == |a| && |pairs.b2a| == |b|
      ensures (forall x :: 0 <= x < |a| ==> pairs.a2b[x].None?) && forall y :: 0 <= y < |b| ==> pairs.b2a[y].None?
    {
      pairs := C.Pairing(seq(|a|, _ => None), seq(|b|, _ => None));
      layer := seq(|a|, _ => None);
    }

    /** Record a pair; refuses conflicting or out-of-range evidence without disturbing anything.
        Repeating a pair only strengthens its layer. */
    method Set(x: nat, y: nat, l: Layer) returns (ok: bool)
      requires Valid()
      modifies this
      ensures Valid() && ok == Compatible(old(pairs), x, y)
      ensures pairs == if ok then Paired(old(pairs), x, y) else old(pairs)
      ensures Extends(old(pairs), pairs)
      ensures |layer| == |old(layer)| && forall z :: 0 <= z < |layer| && z != x ==> layer[z] == old(layer[z])
      ensures ok ==> layer[x] == if old(layer[x]).None? || Rank(l) < Rank(old(layer[x]).value)
        then Some(l) else old(layer[x])
      ensures !ok ==> layer == old(layer)
    {
      if x >= |pairs.a2b| || y >= |pairs.b2a| {
        return false;
      }
      if pairs.a2b[x].Some? || pairs.b2a[y].Some? {
        ok := pairs.a2b[x] == Some(y) && pairs.b2a[y] == Some(x);
        if ok && Rank(l) < Rank(layer[x].value) {
          layer := layer[x := Some(l)];
        }
        assert ok ==> Paired(pairs, x, y) == pairs;
        return ok;
      }
      PairedOk(pairs, x, y);
      pairs := Paired(pairs, x, y);
      layer := layer[x := Some(l)];
      return true;
    }
  }

  // ----- the passes --------------------------------------------------------

  /** Hashes and identities the passes look at; nothing is assumed about them. */
  datatype Evidence = Evidence(eid: seq<Option<nat>>, exact: seq<nat>, content: seq<nat>)

  predicate Describes(e: Evidence, t: Tree) {
    |e.eid| == |t| && |e.exact| == |t| && |e.content| == |t|
  }

  /** What every pass keeps. */
  ghost predicate Kept(a: Tree, b: Tree, before: C.Pairing, after: C.Pairing) {
    OneToOne(after) && KindsAgree(a, b, after) && Extends(before, after)
  }

  /** Size of the subtree at x. */
  function Weight(t: Tree, x: nat): nat
    requires WellFormed(t) && x < |t|
    decreases |t| - x, 1, 0
  {
    1 + Weights(t, x, |t[x].children|)
  }

  function Weights(t: Tree, x: nat, k: nat): nat
    requires WellFormed(t) && x < |t| && k <= |t[x].children|
    decreases |t| - x, 0, k
  {
    assert ChildrenOk(t, x);
    if k == 0 then 0 else Weights(t, x, k - 1) + Weight(t, t[x].children[k - 1])
  }

  predicate NodesOf(t: Tree, xs: seq<nat>) {
    forall i :: 0 <= i < |xs| ==> xs[i] < |t|
  }

  /** Total size of pending subtrees. */
  function Load(t: Tree, xs: seq<nat>): nat
    requires WellFormed(t) && NodesOf(t, xs)
  {
    if xs == [] then 0 else Load(t, xs[..|xs| - 1]) + Weight(t, xs[|xs| - 1])
  }

  lemma {:induction false} LoadConcat(t: Tree, xs: seq<nat>, ys: seq<nat>)
    requires WellFormed(t) && NodesOf(t, xs) && NodesOf(t, ys)
    ensures NodesOf(t, xs + ys) && Load(t, xs + ys) == Load(t, xs) + Load(t, ys)
  {
    if ys == [] {
      assert xs + ys == xs;
    } else {
      LoadConcat(t, xs, ys[..|ys| - 1]);
      assert (xs + ys)[..|xs + ys| - 1] == xs + ys[..|ys| - 1];
    }
  }

  lemma {:induction false} LoadChildren(t: Tree, x: nat, k: nat)
    requires WellFormed(t) && x < |t| && k <= |t[x].children|
    ensures NodesOf(t, t[x].children[..k]) && Load(t, t[x].children[..k]) == Weights(t, x, k)
  {
    assert ChildrenOk(t, x);
    if k > 0 {
      LoadChildren(t, x, k - 1);
      assert t[x].children[..k][..k - 1] == t[x].children[..k - 1];
    }
  }

  /** Replacing a pending node by its children leaves less work. */
  lemma {:induction false} LoadDrops(t: Tree, xs: seq<nat>, x: nat)
    requires WellFormed(t) && NodesOf(t, xs) && x < |t|
    ensures NodesOf(t, xs + t[x].children) && Load(t, xs + t[x].children) < Load(t, xs) + Weight(t, x)
  {
    LoadChildren(t, x, |t[x].children|);
    assert t[x].children[..|t[x].children|] == t[x].children;
    LoadConcat(t, xs, t[x].children);
  }

  function Reversed(xs: seq<nat>): seq<nat> {
    if xs == [] then [] else [xs[|xs| - 1]] + Reversed(xs[..|xs| - 1])
  }

  lemma {:induction false} LoadReversed(t: Tree, xs: seq<nat>)
    requires WellFormed(t) && NodesOf(t, xs)
    ensures NodesOf(t, Reversed(xs)) && Load(t, Reversed(xs)) == Load(t, xs)
  {
    if xs != [] {
      LoadReversed(t, xs[..|xs| - 1]);
      LoadConcat(t, [xs[|xs| - 1]], Reversed(xs[..|xs| - 1]));
      assert [xs[|xs| - 1]][..0] == [];
    }
  }

  function Firsts(ps: seq<(nat, nat)>): seq<nat> {
    seq(|ps|, i requires 0 <= i < |ps| => ps[i].0)
  }

  /** Children paired in order. */
  function Zip(xs: seq<nat>, ys: seq<nat>): (r: seq<(nat, nat)>)
    requires |xs| == |ys|
    ensures |r| == |xs|
  {
    seq(|xs|, i requires 0 <= i < |xs| => (xs[i], ys[i]))
  }

  predicate InTrees(a: Tree, b: Tree, ps: seq<(nat, nat)>) {
    forall i :: 0 <= i < |ps| ==> ps[i].0 < |a| && ps[i].1 < |b|
  }

  /** The pair may be recorded: same kind and arity, no other partner. */
  predicate Pairable(a: Tree, b: Tree, m: C.Pairing, p: nat, q: nat) {
    p < |a| && q < |b| && a[p].shell.kind == b[q].shell.kind && |a[p].children| == |b[q].children| &&
      Compatible(m, p, q)
  }

  /** The children of (p, q) are paired in order among ps. */
  predicate ChildrenIn(a: Tree, b: Tree, ps: seq<(nat, nat)>, p: nat, q: nat)
    requires p < |a| && q < |b|
  {
    |a[p].children| == |b[q].children| && forall j :: 0 <= j < |a[p].children| ==>
      (a[p].children[j], b[q].children[j]) in ps
  }

  /** Pairs found so far can be recorded, and their children are found or pending. */
  ghost predicate Walking(a: Tree, b: Tree, m: C.Pairing, x: nat, y: nat, pairs: seq<(nat, nat)>, pending: seq<(nat,
      nat)>) {
    && InTrees(a, b, pending) && InTrees(a, b, pairs)
    && (x, y) in pairs + pending
    && (forall i :: 0 <= i < |pairs| ==> Pairable(a, b, m, pairs[i].0, pairs[i].1))
    && (forall i :: 0 <= i < |pairs| ==> ChildrenIn(a, b, pairs + pending, pairs[i].0, pairs[i].1))
    && (forall z :: z in pairs + pending ==> Reached(a, b, x, y, pairs, z))
  }

  /** z is the starting pair or the j-th children of a recorded pair. */
  ghost predicate Reached(a: Tree, b: Tree, x: nat, y: nat, pairs: seq<(nat, nat)>, z: (nat, nat)) {
    z == (x, y) || exists w, j: nat :: w in pairs && ChildPair(a, b, w, j, z)
  }

  predicate ChildPair(a: Tree, b: Tree, w: (nat, nat), j: nat, z: (nat, nat)) {
    w.0 < |a| && w.1 < |b| && j < |a[w.0].children| && j < |b[w.1].children| &&
      a[w.0].children[j] == z.0 && b[w.1].children[j] == z.1
  }

  lemma {:induction false} ReachedGrows(a: Tree, b: Tree, x: nat, y: nat, pairs: seq<(nat, nat)>, w: (nat, nat),
      z: (nat, nat))
    requires Reached(a, b, x, y, pairs, z)
    ensures Reached(a, b, x, y, pairs + [w], z)
  {
    if z != (x, y) {
      var v, j: nat :| v in pairs && ChildPair(a, b, v, j, z);
      assert v in pairs + [w];
    }
  }

  lemma {:induction false} KidReached(a: Tree, b: Tree, x: nat, y: nat, pairs: seq<(nat, nat)>, p: nat, q: nat,
      z: (nat, nat))
    requires p < |a| && q < |b| && |a[p].children| == |b[q].children| && z in Zip(a[p].children, b[q].children)
    ensures Reached(a, b, x, y, pairs + [(p, q)], z)
  {
    var kids := Zip(a[p].children, b[q].children);
    var j :| 0 <= j < |kids| && kids[j] == z;
    assert (p, q) in pairs + [(p, q)] && ChildPair(a, b, (p, q), j, z);
  }

  lemma {:induction false} KidsInTrees(a: Tree, b: Tree, p: nat, q: nat)
    requires WellFormed(a) && WellFormed(b) && p < |a| && q < |b| && |a[p].children| == |b[q].children|
    ensures InTrees(a, b, Zip(a[p].children, b[q].children))
  {
    assert ChildrenOk(a, p) && ChildrenOk(b, q);
  }

  lemma {:induction false} ChildrenStay(a: Tree, b: Tree, was: seq<(nat, nat)>, now: seq<(nat, nat)>, p: nat, q: nat)
    requires p < |a| && q < |b| && ChildrenIn(a, b, was, p, q) && forall z :: z in was ==> z in now
    ensures ChildrenIn(a, b, now, p, q)
  {}

  lemma {:induction false} ZipIn(a: Tree, b: Tree, now: seq<(nat, nat)>, p: nat, q: nat)
    requires p < |a| && q < |b| && |a[p].children| == |b[q].children|
    requires forall z :: z in Zip(a[p].children, b[q].children) ==> z in now
    ensures ChildrenIn(a, b, now, p, q)
  {
    var kids := Zip(a[p].children, b[q].children);
    forall j | 0 <= j < |a[p].children| ensures (a[p].children[j], b[q].children[j]) in now { assert kids[j] in kids; }
  }

  lemma {:induction false} WalkingStep(a: Tree, b: Tree, m: C.Pairing, x: nat, y: nat, pairs: seq<(nat, nat)>,
      rest: seq<(nat, nat)>, p: nat, q: nat)
    requires WellFormed(a) && WellFormed(b) && Walking(a, b, m, x, y, pairs, rest + [(p, q)]) && Pairable(a, b, m, p, q)
    ensures Walking(a, b, m, x, y, pairs + [(p, q)], rest + Zip(a[p].children, b[q].children))
  {
    var was := pairs + (rest + [(p, q)]);
    var kids := Zip(a[p].children, b[q].children);
    var now := (pairs + [(p, q)]) + (rest + kids);
    KidsInTrees(a, b, p, q);
    forall i | 0 <= i < |rest| ensures rest[i].0 < |a| && rest[i].1 < |b| { assert (rest + [(p, q)])[i] == rest[i]; }
    assert forall z :: z in was ==> z in now;
    forall z | z in now ensures Reached(a, b, x, y, pairs + [(p, q)], z) {
      if z in was { ReachedGrows(a, b, x, y, pairs, (p, q), z); } else { KidReached(a, b, x, y, pairs, p, q, z); }
    }
    ZipIn(a, b, now, p, q);
    forall i | 0 <= i < |pairs| ensures ChildrenIn(a, b, now, pairs[i].0, pairs[i].1) {
      ChildrenStay(a, b, was, now, pairs[i].0, pairs[i].1);
    }
  }

  predicate Diagonal(ps: seq<(nat, nat)>) {
    forall i :: 0 <= i < |ps| ==> ps[i].0 == ps[i].1
  }

  predicate SelfCompatible(a: Tree, b: Tree, m: C.Pairing) {
    a == b && forall z :: 0 <= z < |a| ==> Compatible(m, z, z)
  }

  lemma {:induction false} PendingDrops(a: Tree, rest: seq<(nat, nat)>, p: nat, q: nat, ys: seq<nat>)
    requires WellFormed(a) && p < |a| && |ys| == |a[p].children| && NodesOf(a, Firsts(rest + [(p, q)]))
    ensures NodesOf(a, Firsts(rest + Zip(a[p].children, ys)))
    ensures Load(a, Firsts(rest + Zip(a[p].children, ys))) < Load(a, Firsts(rest + [(p, q)]))
  {
    var before := Firsts(rest + [(p, q)]);
    assert before[..|before| - 1] == Firsts(rest);
    assert forall i :: 0 <= i < |rest| ==> Firsts(rest)[i] == before[i];
    LoadDrops(a, Firsts(rest), p);
    assert Firsts(rest + Zip(a[p].children, ys)) == Firsts(rest) + a[p].children;
  }

  /** In a walk of a tree against itself every pair can be recorded. */
  lemma {:induction false} SelfTop(a: Tree, b: Tree, m: C.Pairing, x: nat, y: nat, rest: seq<(nat, nat)>, p: nat,
      q: nat)
    requires InTrees(a, b, rest + [(p, q)])
    ensures p < |a| && q < |b|
    ensures x == y && SelfCompatible(a, b, m) && Diagonal(rest + [(p, q)]) ==>
      p == q && Diagonal(rest) && Pairable(a, b, m, p, q)
  {
    var ps := rest + [(p, q)];
    assert ps[|rest|] == (p, q);
    assert forall i :: 0 <= i < |rest| ==> ps[i] == rest[i];
  }

  lemma {:induction false} DiagonalStep(a: Tree, b: Tree, m: C.Pairing, x: nat, y: nat,
                                        pairs: seq<(nat, nat)>, rest: seq<(nat, nat)>, p: nat, q: nat)
    requires p < |a| && q < |b| && |a[p].children| == |b[q].children|
    ensures x == y && SelfCompatible(a, b, m) && p == q && Diagonal(pairs) && Diagonal(rest) ==>
              Diagonal(pairs + [(p, q)]) && Diagonal(rest + Zip(a[p].children, b[q].children))
  {}

  /** Walk both subtrees in step; None when they cannot be paired as a whole. */
  method Gather(a: Tree, b: Tree, x: nat, y: nat, m: C.Pairing) returns (r: Option<seq<(nat, nat)>>)
    requires WellFormed(a) && WellFormed(b) && x < |a| && y < |b| && OneToOne(m) && |m.a2b| == |a| && |m.b2a| == |b|
    ensures r.Some? ==> Walking(a, b, m, x, y, r.value, [])
    ensures r.None? ==> !Fits(a, b, m, x, y)
    ensures x == y && SelfCompatible(a, b, m) ==> r.Some? && Diagonal(r.value)
  {
    var pending := [(x, y)];
    var pairs: seq<(nat, nat)> := [];
    while pending != []
      invariant Walking(a, b, m, x, y, pairs, pending) && NodesOf(a, Firsts(pending))
      invariant x == y && SelfCompatible(a, b, m) ==> Diagonal(pairs) && Diagonal(pending)
      invariant Fits(a, b, m, x, y) ==> AllFit(a, b, m, pending)
      decreases Load(a, Firsts(pending))
    {
      var n := |pending| - 1;
      var (p, q) := pending[n];
      var rest := pending[..n];
      assert pending == rest + [(p, q)];
      SelfTop(a, b, m, x, y, rest, p, q);
      if Fits(a, b, m, x, y) { FitStep(a, b, m, rest, p, q); }
      if a[p].shell.kind != b[q].shell.kind || |a[p].children| != |b[q].children| ||
         (m.a2b[p].Some? && m.a2b[p].value != q) || (m.b2a[q].Some? && m.b2a[q].value != p) {
        return None;
      }
      WalkingStep(a, b, m, x, y, pairs, rest, p, q);
      PendingDrops(a, rest, p, q, b[q].children);
      DiagonalStep(a, b, m, x, y, pairs, rest, p, q);
      pairs := pairs + [(p, q)];
      pending := rest + Zip(a[p].children, b[q].children);
    }
    r := Some(pairs);
  }

  // ----- subtrees that can be paired ---------------------------------------

  /** The subtrees at x and y can be paired node by node. */
  ghost predicate Fits(a: Tree, b: Tree, m: C.Pairing, x: nat, y: nat)
    requires WellFormed(a) && WellFormed(b)
    decreases if x < |a| then |a| - x else 0
  {
    && Pairable(a, b, m, x, y)
    && (assert ChildrenOk(a, x);
        forall j: nat :: j < |a[x].children| ==> Fits(a, b, m, a[x].children[j], b[y].children[j]))
  }

  ghost predicate AllFit(a: Tree, b: Tree, m: C.Pairing, ps: seq<(nat, nat)>)
    requires WellFormed(a) && WellFormed(b)
  {
    forall i :: 0 <= i < |ps| ==> Fits(a, b, m, ps[i].0, ps[i].1)
  }

  lemma {:induction false} FitStep(a: Tree, b: Tree, m: C.Pairing, rest: seq<(nat, nat)>, p: nat, q: nat)
    requires WellFormed(a) && WellFormed(b) && AllFit(a, b, m, rest + [(p, q)])
    ensures Pairable(a, b, m, p, q) && AllFit(a, b, m, rest + Zip(a[p].children, b[q].children))
  {
    var ps := rest + [(p, q)];
    assert ps[|rest|] == (p, q) && Fits(a, b, m, p, q);
    var kids := Zip(a[p].children, b[q].children);
    forall i | 0 <= i < |rest + kids| ensures Fits(a, b, m, (rest + kids)[i].0, (rest + kids)[i].1) {
      if i < |rest| { assert ps[i] == rest[i]; }
    }
  }

  /** What a walk collects fits. */
  lemma {:induction false} WalkFits(a: Tree, b: Tree, m: C.Pairing, x: nat, y: nat, ps: seq<(nat, nat)>, z: (nat, nat))
    requires WellFormed(a) && WellFormed(b) && Walking(a, b, m, x, y, ps, []) && z in ps
    ensures Fits(a, b, m, z.0, z.1)
    decreases if z.0 < |a| then |a| - z.0 else 0
  {
    var i :| 0 <= i < |ps| && ps[i] == z;
    assert ps + [] == ps && ChildrenIn(a, b, ps, z.0, z.1) && ChildrenOk(a, z.0);
    forall j: nat | j < |a[z.0].children| ensures Fits(a, b, m, a[z.0].children[j], b[z.1].children[j]) {
      WalkFits(a, b, m, x, y, ps, (a[z.0].children[j], b[z.1].children[j]));
    }
  }

  /** What fits under more pairs fits under fewer. */
  lemma {:induction false} FitsBefore(a: Tree, b: Tree, m: C.Pairing, m': C.Pairing, x: nat, y: nat)
    requires WellFormed(a) && WellFormed(b) && OneToOne(m) && Extends(m, m') && Fits(a, b, m', x, y)
    ensures Fits(a, b, m, x, y)
    decreases if x < |a| then |a| - x else 0
  {
    assert Compatible(m, x, y) && ChildrenOk(a, x);
    forall j: nat | j < |a[x].children| ensures Fits(a, b, m, a[x].children[j], b[y].children[j]) {
      FitsBefore(a, b, m, m', a[x].children[j], b[y].children[j]);
    }
  }

  // ----- subtrees ----------------------------------------------------------

  /** z is in the subtree at x. */
  predicate Below(t: Tree, x: nat, z: nat)
    requires WellFormed(t) && z < |t|
    decreases z
  {
    z == x || (z > 0 && (assert ParentOk(t, z); Below(t, x, t[z].parent.value)))
  }

  /** A node below x is x or below a child of x. */
  lemma {:induction false} BelowChild(t: Tree, x: nat, z: nat) returns (c: nat)
    requires WellFormed(t) && x < |t| && z < |t| && Below(t, x, z) && z != x
    ensures c in t[x].children && c < |t| && Below(t, c, z)
    decreases z
  {
    assert ParentOk(t, z);
    var p := t[z].parent.value;
    if p == x { c := z; } else { c := BelowChild(t, x, p); }
  }

  /** z and w are at the same place below x and y. */
  ghost predicate Corresponds(a: Tree, b: Tree, x: nat, y: nat, z: nat, w: nat)
    requires WellFormed(a) && WellFormed(b) && z < |a| && w < |b|
    decreases z
  {
    || (z == x && w == y)
    || (z > 0 && w > 0 && (assert ParentOk(a, z) && ParentOk(b, w);
        var p, q := a[z].parent.value, b[w].parent.value;
        (exists j: nat :: ChildPair(a, b, (p, q), j, (z, w))) && Corresponds(a, b, x, y, p, q)))
  }

  lemma {:induction false} CorrespondsThrough(a: Tree, b: Tree, x: nat, y: nat, p: nat, q: nat, z: nat, w: nat)
    requires WellFormed(a) && WellFormed(b) && p < |a| && q < |b| && z < |a| && w < |b|
    requires Corresponds(a, b, x, y, p, q) && Corresponds(a, b, p, q, z, w)
    ensures Corresponds(a, b, x, y, z, w)
    decreases z
  {
    if !(z == p && w == q) {
      assert ParentOk(a, z) && ParentOk(b, w);
      CorrespondsThrough(a, b, x, y, p, q, a[z].parent.value, b[w].parent.value);
    }
  }

  lemma {:induction false} WalkCorresponds(a: Tree, b: Tree, m: C.Pairing, x: nat, y: nat, ps: seq<(nat, nat)>,
      z: (nat, nat))
    requires WellFormed(a) && WellFormed(b) && Walking(a, b, m, x, y, ps, []) && z in ps
    ensures z.0 < |a| && z.1 < |b| && Corresponds(a, b, x, y, z.0, z.1)
    decreases z.0
  {
    ReachedAbove(a, b, m, x, y, ps, z);
    if z != (x, y) {
      var w, j := ParentPair(a, b, m, x, y, ps, z);
      WalkCorresponds(a, b, m, x, y, ps, w);
      assert ParentOk(a, z.0) && ParentOk(b, z.1);
      assert a[z.0].parent == Some(w.0) && b[z.1].parent == Some(w.1) && ChildPair(a, b, w, j, z);
    }
  }

  // ----- recording a walk --------------------------------------------------

  /** In a walk of two trees, equal first components have equal second components and back. */
  predicate Functional(ps: seq<(nat, nat)>) {
    forall i, j :: 0 <= i < |ps| && 0 <= j < |ps| ==> (ps[i].0 == ps[j].0 <==> ps[i].1 == ps[j].1)
  }

  lemma {:induction false} ReachedAbove(a: Tree, b: Tree, m: C.Pairing, x: nat, y: nat, ps: seq<(nat, nat)>, z: (nat,
      nat))
    requires WellFormed(a) && WellFormed(b) && Walking(a, b, m, x, y, ps, []) && z in ps
    ensures z.0 < |a| && z.1 < |b| && (z == (x, y) || (z.0 > x && z.1 > y))
    decreases z.0
  {
    if z != (x, y) {
      var w, j := ParentPair(a, b, m, x, y, ps, z);
      ReachedAbove(a, b, m, x, y, ps, w);
    }
  }

  lemma {:induction false} ParentPair(a: Tree, b: Tree, m: C.Pairing, x: nat, y: nat, ps: seq<(nat, nat)>, z: (nat,
      nat)) returns (w: (nat, nat), j: nat)
    requires WellFormed(a) && WellFormed(b) && Walking(a, b, m, x, y, ps, []) && z in ps && z != (x, y)
    ensures w in ps && ChildPair(a, b, w, j, z) && w.0 < z.0 && ChildrenOk(a, w.0) && ChildrenOk(b, w.1)
  {
    assert z in ps + [];
    assert Reached(a, b, x, y, ps, z);
    w, j :| w in ps && ChildPair(a, b, w, j, z);
    assert ChildrenOk(a, w.0) && ChildrenOk(b, w.1);
  }

  /** Children of two pairs that agree on one side come from pairs that agree on one side. */
  lemma {:induction false} SameParents(a: Tree, b: Tree, z': (nat, nat), i: nat, z: (nat, nat), w': (nat, nat),
      j: nat, w: (nat, nat))
    requires ChildPair(a, b, z', i, z) && ChildPair(a, b, w', j, w) && (z.0 == w.0 || z.1 == w.1)
    requires ChildrenOk(a, z'.0) && ChildrenOk(b, z'.1) && ChildrenOk(a, w'.0) && ChildrenOk(b, w'.1)
    ensures z'.0 == w'.0 || z'.1 == w'.1
    ensures z' == w' ==> z == w
  {
  }

  /** Two pairs of a walk that agree on one side agree on the other. */
  lemma {:induction false} SamePair(a: Tree, b: Tree, m: C.Pairing, x: nat, y: nat, ps: seq<(nat, nat)>, z: (nat,
      nat), w: (nat, nat))
    requires WellFormed(a) && WellFormed(b) && Walking(a, b, m, x, y, ps, []) && z in ps && w in ps
    requires z.0 == w.0 || z.1 == w.1
    ensures z == w
    decreases z.0
  {
    ReachedAbove(a, b, m, x, y, ps, z);
    ReachedAbove(a, b, m, x, y, ps, w);
    if z != (x, y) && w != (x, y) {
      var z', i := ParentPair(a, b, m, x, y, ps, z);
      var w', j := ParentPair(a, b, m, x, y, ps, w);
      SameParents(a, b, z', i, z, w', j, w);
      SamePair(a, b, m, x, y, ps, z', w');
    }
  }

  lemma {:induction false} WalkFunctional(a: Tree, b: Tree, m: C.Pairing, x: nat, y: nat, ps: seq<(nat, nat)>)
    requires WellFormed(a) && WellFormed(b) && Walking(a, b, m, x, y, ps, [])
    ensures Functional(ps)
  {
    forall i, j | 0 <= i < |ps| && 0 <= j < |ps| ensures ps[i].0 == ps[j].0 <==> ps[i].1 == ps[j].1 {
      if ps[i].0 == ps[j].0 || ps[i].1 == ps[j].1 { SamePair(a, b, m, x, y, ps, ps[i], ps[j]); }
    }
  }

  /** Recording one pair of a walk leaves the others recordable. */
  lemma {:induction false} PairableStays(a: Tree, b: Tree, m: C.Pairing, ps: seq<(nat, nat)>, i: nat, k: nat)
    requires Functional(ps) && i < |ps| && k < |ps| && Pairable(a, b, m, ps[i].0, ps[i].1) &&
      Pairable(a, b, m, ps[k].0, ps[k].1)
    ensures Pairable(a, b, Paired(m, ps[i].0, ps[i].1), ps[k].0, ps[k].1)
  {
  }

  lemma {:induction false} SelfPairStays(a: Tree, b: Tree, m: C.Pairing, z: nat)
    requires SelfCompatible(a, b, m) && z < |a|
    ensures z < |m.a2b| && z < |m.b2a| && SelfCompatible(a, b, Paired(m, z, z))
  {
    assert Compatible(m, z, z);
    forall w | 0 <= w < |a| ensures Compatible(Paired(m, z, z), w, w) { assert Compatible(m, w, w); }
  }

  /** Record one pair of nodes of the same kind. */
  method SetPair(a: Tree, b: Tree, x: nat, y: nat, m: Matching, l: Layer) returns (ok: bool)
    requires m.Valid() && KindsAgree(a, b, m.pairs) && x < |a| && y < |b| && a[x].shell.kind == b[y].shell.kind
    modifies m
    ensures m.Valid() && Kept(a, b, old(m.pairs), m.pairs) && ok == Compatible(old(m.pairs), x, y)
    ensures m.pairs == if ok then Paired(old(m.pairs), x, y) else old(m.pairs)
    ensures x == y && SelfCompatible(a, b, old(m.pairs)) ==> SelfCompatible(a, b, m.pairs)
  {
    if x == y && SelfCompatible(a, b, m.pairs) { SelfPairStays(a, b, m.pairs, x); }
    ok := m.Set(x, y, l);
  }

  /** Whatever m' has beyond m is among ps. */
  predicate Adds(m: C.Pairing, m': C.Pairing, ps: seq<(nat, nat)>) {
    && |m.a2b| == |m'.a2b|
    && forall z :: 0 <= z < |m.a2b| ==> m'.a2b[z] == m.a2b[z] || (m'.a2b[z].Some? && (z, m'.a2b[z].value) in ps)
  }

  /** The first n pairs of a walk are recorded, and the others can be. */
  predicate RecordedTo(a: Tree, b: Tree, m: C.Pairing, m': C.Pairing, ps: seq<(nat, nat)>, n: nat) {
    && Adds(m, m', ps) && |m'.a2b| == |a|
    && (forall k :: 0 <= k < |ps| ==> Pairable(a, b, m', ps[k].0, ps[k].1))
    && forall k :: 0 <= k < n && k < |ps| ==> m'.a2b[ps[k].0] == Some(ps[k].1)
  }

  lemma {:induction false} RecordNext(a: Tree, b: Tree, m: C.Pairing, m': C.Pairing, ps: seq<(nat, nat)>, n: nat)
    requires RecordedTo(a, b, m, m', ps, n) && n < |ps| && Functional(ps)
    ensures Pairable(a, b, m', ps[n].0, ps[n].1)
    ensures RecordedTo(a, b, m, Paired(m', ps[n].0, ps[n].1), ps, n + 1)
  {
    var next := Paired(m', ps[n].0, ps[n].1);
    forall k | 0 <= k < |ps| ensures Pairable(a, b, next, ps[k].0, ps[k].1) { PairableStays(a, b, m', ps, n, k); }
    assert ps[n] in ps;
  }

  /** Record all pairs; each one is compatible when its turn comes. */
  method Record(a: Tree, b: Tree, ps: seq<(nat, nat)>, m: Matching, l: Layer)
    requires m.Valid() && KindsAgree(a, b, m.pairs) && Functional(ps)
    requires forall i :: 0 <= i < |ps| ==> Pairable(a, b, m.pairs, ps[i].0, ps[i].1)
    modifies m
    ensures m.Valid() && Kept(a, b, old(m.pairs), m.pairs)
    ensures forall i :: 0 <= i < |ps| ==> ps[i].0 < |a| && m.pairs.a2b[ps[i].0] == Some(ps[i].1)
    ensures Adds(old(m.pairs), m.pairs, ps)
    ensures Diagonal(ps) && SelfCompatible(a, b, old(m.pairs)) ==> SelfCompatible(a, b, m.pairs)
  {
    for i := 0 to |ps|
      invariant m.Valid() && Kept(a, b, old(m.pairs), m.pairs)
      invariant Diagonal(ps) && SelfCompatible(a, b, old(m.pairs)) ==> SelfCompatible(a, b, m.pairs)
      invariant RecordedTo(a, b, old(m.pairs), m.pairs, ps, i)
    {
      ghost var before := m.pairs;
      RecordNext(a, b, old(m.pairs), before, ps, i);
      var _ := SetPair(a, b, ps[i].0, ps[i].1, m, l);
      ExtendsTransitive(old(m.pairs), before, m.pairs);
    }
  }

  /** The subtrees at x and y are paired node by node. */
  ghost predicate SubtreesPaired(a: Tree, b: Tree, m: C.Pairing, x: nat, y: nat) {
    exists ps :: (x, y) in ps && Closed(a, b, m, ps)
  }

  /** A set of recorded pairs closed under taking children. */
  ghost predicate Closed(a: Tree, b: Tree, m: C.Pairing, ps: seq<(nat, nat)>) {
    forall i :: 0 <= i < |ps| ==>
      && ps[i].0 < |a| && ps[i].1 < |b| && ps[i].0 < |m.a2b| && m.a2b[ps[i].0] == Some(ps[i].1)
      && ChildrenIn(a, b, ps, ps[i].0, ps[i].1)
  }

  /** Every node below x has a partner. */
  predicate AllPaired(a: Tree, m: C.Pairing, x: nat)
    requires WellFormed(a) && |m.a2b| == |a|
  {
    forall z: nat :: z < |a| && Below(a, x, z) ==> m.a2b[z].Some?
  }

  lemma {:induction false} PairedDown(a: Tree, b: Tree, m: C.Pairing, ps: seq<(nat, nat)>, x: nat, y: nat, z: nat)
      returns (w: nat)
    requires WellFormed(a) && |m.a2b| == |a| && (x, y) in ps && Closed(a, b, m, ps) && z < |a| && Below(a, x, z)
    ensures (z, w) in ps && m.a2b[z] == Some(w)
    decreases z
  {
    if z == x {
      w := y;
    } else {
      assert ParentOk(a, z);
      var p := a[z].parent.value;
      var q := PairedDown(a, b, m, ps, x, y, p);
      var i :| 0 <= i < |ps| && ps[i] == (p, q);
      var j :| 0 <= j < |a[p].children| && a[p].children[j] == z;
      w := b[q].children[j];
      assert (a[p].children[j], b[q].children[j]) in ps;
    }
    var k :| 0 <= k < |ps| && ps[k] == (z, w);
  }

  lemma {:induction false} WholePaired(a: Tree, b: Tree, m: C.Pairing, ps: seq<(nat, nat)>, x: nat, y: nat)
    requires WellFormed(a) && |m.a2b| == |a| && (x, y) in ps && Closed(a, b, m, ps)
    ensures AllPaired(a, m, x)
  {
    forall z: nat | z < |a| && Below(a, x, z) ensures m.a2b[z].Some? { var w := PairedDown(a, b, m, ps, x, y, z); }
  }

  /** Whatever m' has beyond m stands at the same place below x and y. */
  ghost predicate AddsBelow(a: Tree, b: Tree, m: C.Pairing, m': C.Pairing, x: nat, y: nat)
    requires WellFormed(a) && WellFormed(b)
  {
    && |m.a2b| == |m'.a2b| == |a|
    && forall z :: 0 <= z < |a| && m'.a2b[z] != m.a2b[z] ==>
         m'.a2b[z].Some? && m'.a2b[z].value < |b| && Corresponds(a, b, x, y, z, m'.a2b[z].value)
  }

  lemma {:induction false} WalkAdds(a: Tree, b: Tree, m: C.Pairing, m': C.Pairing, x: nat, y: nat,
      ps: seq<(nat, nat)>)
    requires WellFormed(a) && WellFormed(b) && |m.a2b| == |a| && Walking(a, b, m, x, y, ps, []) && Adds(m, m', ps)
    ensures AddsBelow(a, b, m, m', x, y)
  {
    forall z | 0 <= z < |a| && m'.a2b[z] != m.a2b[z]
      ensures m'.a2b[z].Some? && m'.a2b[z].value < |b| && Corresponds(a, b, x, y, z, m'.a2b[z].value)
    {
      WalkCorresponds(a, b, m, x, y, ps, (z, m'.a2b[z].value));
    }
  }

  /** Pair two whole subtrees, or nothing at all. */
  method Bulk(a: Tree, b: Tree, x: nat, y: nat, m: Matching, l: Layer) returns (done: bool)
    requires WellFormed(a) && WellFormed(b) && x < |a| && y < |b| && m.Valid() && KindsAgree(a, b, m.pairs)
    modifies m
    ensures m.Valid() && Kept(a, b, old(m.pairs), m.pairs)
    ensures !done ==> m.pairs == old(m.pairs)
    ensures done <==> Fits(a, b, old(m.pairs), x, y)
    ensures done ==> SubtreesPaired(a, b, m.pairs, x, y) && AllPaired(a, m.pairs, x)
    ensures AddsBelow(a, b, old(m.pairs), m.pairs, x, y)
    ensures x == y && SelfCompatible(a, b, old(m.pairs)) ==> done && SelfCompatible(a, b, m.pairs)
  {
    var found := Gather(a, b, x, y, m.pairs);
    if found.None? {
      return false;
    }
    var ps := found.value;
    WalkFunctional(a, b, m.pairs, x, y, ps);
    assert ps + [] == ps;
    WalkFits(a, b, m.pairs, x, y, ps, (x, y));
    ghost var before := m.pairs;
    Record(a, b, ps, m, l);
    assert Closed(a, b, m.pairs, ps);
    WholePaired(a, b, m.pairs, ps, x, y);
    WalkAdds(a, b, before, m.pairs, x, y, ps);
    return true;
  }

  // ----- identities and hashes ---------------------------------------------

  /** Node i is the only one with element id e. */
  predicate OwnId(eid: seq<Option<nat>>, e: nat, i: nat) {
    i < |eid| && eid[i] == Some(e) && forall j :: 0 <= j < |eid| && eid[j] == Some(e) ==> j == i
  }

  /** The ids that occur once, with their nodes; an id that occurs twice maps to none. */
  ghost predicate EidsOf(ids: map<nat, Option<nat>>, eid: seq<Option<nat>>) {
    && (forall e :: e in ids <==> Occurs(eid, e))
    && forall e :: e in ids ==> if ids[e].Some? then OwnId(eid, e, ids[e].value) else Twice(eid, e)
  }

  predicate Occurs(eid: seq<Option<nat>>, e: nat) {
    exists j :: 0 <= j < |eid| && eid[j] == Some(e)
  }

  predicate Twice(eid: seq<Option<nat>>, e: nat) {
    exists j, k :: 0 <= j < k < |eid| && eid[j] == Some(e) && eid[k] == Some(e)
  }

  lemma {:induction false} OccursSnoc(eid: seq<Option<nat>>, last: Option<nat>, e: nat)
    ensures Occurs(eid + [last], e) <==> Occurs(eid, e) || last == Some(e)
    ensures Twice(eid, e) || (Occurs(eid, e) && last == Some(e)) ==> Twice(eid + [last], e)
    ensures last != Some(e) ==> forall i: nat :: OwnId(eid, e, i) ==> OwnId(eid + [last], e, i)
    ensures last == Some(e) && !Occurs(eid, e) ==> OwnId(eid + [last], e, |eid|)
  {
    var all := eid + [last];
    assert all[|eid|] == last;
    if j :| 0 <= j < |eid| && eid[j] == Some(e) { assert all[j] == Some(e); }
    if j, k :| 0 <= j < k < |eid| && eid[j] == Some(e) && eid[k] == Some(e) {
      assert all[j] == Some(e) && all[k] == Some(e);
    }
  }

  lemma {:induction false} EidsNext(ids: map<nat, Option<nat>>, eid: seq<Option<nat>>, last: Option<nat>)
    requires EidsOf(ids, eid)
    ensures last.None? ==> EidsOf(ids, eid + [last])
    ensures last.Some? ==> EidsOf(ids[last.value := if last.value in ids then None else Some(|eid|)], eid + [last])
  {
    forall e: nat
      ensures Occurs(eid + [last], e) <==> Occurs(eid, e) || last == Some(e)
      ensures Twice(eid, e) || (Occurs(eid, e) && last == Some(e)) ==> Twice(eid + [last], e)
      ensures last != Some(e) ==> forall i: nat :: OwnId(eid, e, i) ==> OwnId(eid + [last], e, i)
      ensures last == Some(e) && !Occurs(eid, e) ==> OwnId(eid + [last], e, |eid|)
    {
      OccursSnoc(eid, last, e);
    }
  }

  /** Nodes by element id. */
  method Eids(eid: seq<Option<nat>>) returns (r: map<nat, Option<nat>>)
    ensures EidsOf(r, eid)
  {
    r := map[];
    for i := 0 to |eid|
      invariant EidsOf(r, eid[..i])
    {
      EidsNext(r, eid[..i], eid[i]);
      assert eid[..i + 1] == eid[..i] + [eid[i]];
      if eid[i].Some? {
        var e := eid[i].value;
        r := if e in r then r[e := None] else r[e := Some(i)];
      }
    }
    assert eid[..|eid|] == eid;
  }

  /** x and y have an element id in common that is their own in either tree. */
  predicate SharesId(a: Tree, b: Tree, ea: Evidence, eb: Evidence, x: nat, y: nat)
    requires Describes(ea, a) && Describes(eb, b)
  {
    && x < |a| && y < |b| && a[x].shell.kind == b[y].shell.kind && ea.eid[x].Some?
    && OwnId(ea.eid, ea.eid[x].value, x) && OwnId(eb.eid, ea.eid[x].value, y)
  }

  predicate Carries(t: Tree, hash: seq<nat>, kind: Kind, h: nat, i: nat)
    requires |hash| == |t|
  {
    i < |t| && t[i].shell.kind == kind && hash[i] == h
  }

  /** Node i is the only one of this kind with this hash. */
  ghost predicate Only(t: Tree, hash: seq<nat>, kind: Kind, h: nat, i: nat)
    requires |hash| == |t|
  {
    Carries(t, hash, kind, h, i) && forall j: nat :: Carries(t, hash, kind, h, j) ==> j == i
  }

  /** The only node with this kind and hash, if there is exactly one. */
  method Unique(t: Tree, hash: seq<nat>, kind: Kind, h: nat) returns (r: Option<nat>)
    requires |hash| == |t|
    ensures r.Some? ==> Only(t, hash, kind, h, r.value)
    ensures r.None? ==> forall i: nat :: !Only(t, hash, kind, h, i)
  {
    r := None;
    var count := 0;
    ghost var first, second: nat := 0, 0;
    for i := 0 to |t|
      invariant count == 0 ==> r.None? && forall j: nat :: j < i ==> !Carries(t, hash, kind, h, j)
      invariant count > 0 ==> first < i && Carries(t, hash, kind, h, first)
      invariant count == 1 ==> r == Some(first) && forall j: nat :: j < i && Carries(t, hash, kind, h, j) ==> j == first
      invariant count > 1 ==> r.None? && first < second < i && Carries(t, hash, kind, h, second)
    {
      if t[i].shell.kind == kind && hash[i] == h {
        if count == 0 { first := i; } else if count == 1 { second := i; }
        count := count + 1;
        r := if count == 1 then Some(i) else None;
      }
    }
  }

  /** x and y are each other's only node of their kind and hash. */
  ghost predicate Mates(a: Tree, b: Tree, ha: seq<nat>, hb: seq<nat>, x: nat, y: nat)
    requires |ha| == |a| && |hb| == |b|
  {
    x < |a| && Only(a, ha, a[x].shell.kind, ha[x], x) && Only(b, hb, a[x].shell.kind, ha[x], y)
  }

  // ----- the exact pass ----------------------------------------------------

  /** The partner the exact pass proposes for x under one hash: its present partner if the hashes
      agree, or the only candidate on both sides. */
  method Candidate(a: Tree, b: Tree, ha: seq<nat>, hb: seq<nat>, m: C.Pairing, x: nat) returns (r: Option<nat>)
    requires |ha| == |a| && |hb| == |b| && x < |a| && |m.a2b| == |a| && |m.b2a| == |b| && OneToOne(m)
    ensures r.Some? ==> r.value < |b| && hb[r.value] == ha[x]
    ensures m.a2b[x].Some? ==> r == if hb[m.a2b[x].value] == ha[x] then m.a2b[x] else None
    ensures m.a2b[x].None? ==> forall y: nat :: r == Some(y) <==> Mates(a, b, ha, hb, x, y)
  {
    if m.a2b[x].Some? {
      var y := m.a2b[x].value;
      return if hb[y] == ha[x] then Some(y) else None;
    }
    assert Carries(a, ha, a[x].shell.kind, ha[x], x);
    var left := Unique(a, ha, a[x].shell.kind, ha[x]);
    if left.None? {
      return None;
    }
    r := Unique(b, hb, a[x].shell.kind, ha[x]);
  }

  /** Pairs beyond m share an id that is no longer to do. */
  ghost predicate IdsAdded(a: Tree, b: Tree, ea: Evidence, eb: Evidence, m: C.Pairing, m': C.Pairing, todo: set<nat>)
    requires Describes(ea, a) && Describes(eb, b)
  {
    && |m.a2b| == |m'.a2b| == |a| && |m.b2a| == |m'.b2a| == |b|
    && forall z: nat :: z < |a| && m'.a2b[z] != m.a2b[z] ==>
         m'.a2b[z].Some? && SharesId(a, b, ea, eb, z, m'.a2b[z].value) && ea.eid[z].value !in todo
  }

  /** Nodes that share an id are paired, unless one of them had a partner before. */
  ghost predicate IdsPaired(a: Tree, b: Tree, ea: Evidence, eb: Evidence, m: C.Pairing, m': C.Pairing, todo: set<nat>)
    requires Describes(ea, a) && Describes(eb, b) && |m.a2b| == |m'.a2b| == |a| && |m.b2a| == |m'.b2a| == |b|
  {
    forall x: nat, y: nat :: SharesId(a, b, ea, eb, x, y) && ea.eid[x].value !in todo ==>
      m'.a2b[x] == Some(y) || m.a2b[x].Some? || m.b2a[y].Some?
  }

  /** While an id is to do, its nodes have the partners they had before. */
  lemma {:induction false} StillFree(a: Tree, b: Tree, ea: Evidence, eb: Evidence, m: C.Pairing, m': C.Pairing,
      todo: set<nat>, x: nat, y: nat)
    requires Describes(ea, a) && Describes(eb, b) && IdsAdded(a, b, ea, eb, m, m', todo)
    requires OneToOne(m) && OneToOne(m') && SharesId(a, b, ea, eb, x, y) && ea.eid[x].value in todo
    ensures m'.a2b[x] == m.a2b[x] && (m'.b2a[y].Some? ==> m.b2a[y].Some?)
  {
  }

  lemma {:induction false} IdNext(a: Tree, b: Tree, ea: Evidence, eb: Evidence, m: C.Pairing, m': C.Pairing,
      todo: set<nat>, x: nat, y: nat)
    requires Describes(ea, a) && Describes(eb, b) && IdsAdded(a, b, ea, eb, m, m', todo)
    requires IdsPaired(a, b, ea, eb, m, m', todo) && OneToOne(m) && OneToOne(m')
    requires SharesId(a, b, ea, eb, x, y) && ea.eid[x].value in todo
    ensures var next := if Compatible(m', x, y) then Paired(m', x, y) else m';
      && IdsAdded(a, b, ea, eb, m, next, todo - {ea.eid[x].value})
      && IdsPaired(a, b, ea, eb, m, next, todo - {ea.eid[x].value})
  {
    StillFree(a, b, ea, eb, m, m', todo, x, y);
    var e := ea.eid[x].value;
    var next := if Compatible(m', x, y) then Paired(m', x, y) else m';
    forall v: nat, w: nat | SharesId(a, b, ea, eb, v, w) && ea.eid[v].value !in todo - {e}
      ensures next.a2b[v] == Some(w) || m.a2b[v].Some? || m.b2a[w].Some?
    {
      if ea.eid[v].value == e { assert v == x && w == y; }
    }
  }

  /** An id that names no two nodes of one kind leaves nothing to do. */
  lemma {:induction false} IdSkipped(a: Tree, b: Tree, ea: Evidence, eb: Evidence, left: map<nat, Option<nat>>,
      right: map<nat, Option<nat>>, e: nat, x: nat, y: nat)
    requires Describes(ea, a) && Describes(eb, b) && EidsOf(left, ea.eid) && EidsOf(right, eb.eid)
    requires SharesId(a, b, ea, eb, x, y) && ea.eid[x].value == e
    ensures e in left && left[e] == Some(x) && e in right && right[e] == Some(y)
  {
    assert Occurs(ea.eid, e) && Occurs(eb.eid, e);
  }

  lemma {:induction false} IdMissing(a: Tree, b: Tree, ea: Evidence, eb: Evidence, m: C.Pairing, m': C.Pairing,
      todo: set<nat>, left: map<nat, Option<nat>>, right: map<nat, Option<nat>>, e: nat)
    requires Describes(ea, a) && Describes(eb, b) && EidsOf(left, ea.eid) && EidsOf(right, eb.eid)
    requires IdsAdded(a, b, ea, eb, m, m', todo) && IdsPaired(a, b, ea, eb, m, m', todo)
    requires !(e in left && left[e].Some? && e in right && right[e].Some? && left[e].value < |a| &&
      right[e].value < |b| && a[left[e].value].shell.kind == b[right[e].value].shell.kind)
    ensures IdsAdded(a, b, ea, eb, m, m', todo - {e}) && IdsPaired(a, b, ea, eb, m, m', todo - {e})
  {
    forall x: nat, y: nat | SharesId(a, b, ea, eb, x, y) && ea.eid[x].value !in todo - {e}
      ensures m'.a2b[x] == Some(y) || m.a2b[x].Some? || m.b2a[y].Some?
    {
      if ea.eid[x].value == e { IdSkipped(a, b, ea, eb, left, right, e, x, y); }
    }
  }

  lemma {:induction false} IdsStart(a: Tree, b: Tree, ea: Evidence, eb: Evidence, m: C.Pairing,
      left: map<nat, Option<nat>>)
    requires Describes(ea, a) && Describes(eb, b) && |m.a2b| == |a| && |m.b2a| == |b| && EidsOf(left, ea.eid)
    ensures IdsAdded(a, b, ea, eb, m, m, left.Keys) && IdsPaired(a, b, ea, eb, m, m, left.Keys)
  {
    forall x: nat, y: nat | SharesId(a, b, ea, eb, x, y) ensures ea.eid[x].value in left.Keys {
      assert Occurs(ea.eid, ea.eid[x].value);
    }
  }

  /** Pair nodes that carry the same unique element id. */
  method PairEids(a: Tree, b: Tree, left: map<nat, Option<nat>>, right: map<nat, Option<nat>>, ghost ea: Evidence,
      ghost eb: Evidence, m: Matching)
    requires Describes(ea, a) && Describes(eb, b) && m.Valid() && KindsAgree(a, b, m.pairs) &&
      EidsOf(left, ea.eid) && EidsOf(right, eb.eid)
    modifies m
    ensures m.Valid() && Kept(a, b, old(m.pairs), m.pairs)
    ensures IdsAdded(a, b, ea, eb, old(m.pairs), m.pairs, {}) && IdsPaired(a, b, ea, eb, old(m.pairs), m.pairs, {})
    ensures ea == eb && SelfCompatible(a, b, old(m.pairs)) ==> SelfCompatible(a, b, m.pairs)
  {
    var todo := left.Keys;
    IdsStart(a, b, ea, eb, m.pairs, left);
    while todo != {}
      invariant todo <= left.Keys && m.Valid() && Kept(a, b, old(m.pairs), m.pairs)
      invariant IdsAdded(a, b, ea, eb, old(m.pairs), m.pairs, todo)
      invariant IdsPaired(a, b, ea, eb, old(m.pairs), m.pairs, todo)
      invariant ea == eb && SelfCompatible(a, b, old(m.pairs)) ==> SelfCompatible(a, b, m.pairs)
    {
      var e :| e in todo;
      ghost var before := m.pairs;
      if left[e].Some? && e in right && right[e].Some? &&
         a[left[e].value].shell.kind == b[right[e].value].shell.kind {
        var x, y := left[e].value, right[e].value;
        IdNext(a, b, ea, eb, old(m.pairs), before, todo, x, y);
        var _ := SetPair(a, b, x, y, m, I0);
      } else {
        IdMissing(a, b, ea, eb, old(m.pairs), before, todo, left, right, e);
      }
      ExtendsTransitive(old(m.pairs), before, m.pairs);
      todo := todo - {e};
    }
  }

  /** A matching of the tree with itself that pairs every node with itself. */
  ghost predicate Identity(a: Tree, m: C.Pairing) {
    |m.a2b| == |a| && |m.b2a| == |a| && forall z :: 0 <= z < |a| ==> m.a2b[z] == Some(z) && m.b2a[z] == Some(z)
  }

  lemma {:induction false} PairedBelow(a: Tree, m: C.Pairing, ps: seq<(nat, nat)>, z: nat)
    requires WellFormed(a) && SelfCompatible(a, a, m) && (0, 0) in ps && Closed(a, a, m, ps) && z < |a|
    ensures (z, z) in ps && m.a2b[z] == Some(z)
  {
    assert Compatible(m, z, z);
    if z > 0 {
      assert ParentOk(a, z);
      var p := a[z].parent.value;
      PairedBelow(a, m, ps, p);
      var i :| 0 <= i < |ps| && ps[i] == (p, p);
      var j :| 0 <= j < |a[p].children| && a[p].children[j] == z;
      assert (a[p].children[j], a[p].children[j]) in ps;
    }
    var k :| 0 <= k < |ps| && ps[k] == (z, z);
  }

  lemma {:induction false} SelfPaired(a: Tree, m: C.Pairing)
    requires WellFormed(a) && SelfCompatible(a, a, m) && SubtreesPaired(a, a, m, 0, 0) && |m.a2b| == |a| &&
      |m.b2a| == |a|
    ensures Identity(a, m)
  {
    var ps :| (0, 0) in ps && Closed(a, a, m, ps);
    forall z | 0 <= z < |a| ensures m.a2b[z] == Some(z) && m.b2a[z] == Some(z) {
      PairedBelow(a, m, ps, z);
      assert Compatible(m, z, z);
    }
  }

  // ----- what the exact pass finds -----------------------------------------

  /** x and y are the only nodes of their kind with their exact hash, or with their content hash. */
  ghost predicate Twins(a: Tree, b: Tree, ea: Evidence, eb: Evidence, x: nat, y: nat)
    requires Describes(ea, a) && Describes(eb, b)
  {
    Mates(a, b, ea.exact, eb.exact, x, y) || Mates(a, b, ea.content, eb.content, x, y)
  }

  /** Node x has a partner, or its subtree fits no twin. */
  ghost predicate Searched(a: Tree, b: Tree, ea: Evidence, eb: Evidence, m: C.Pairing, x: nat)
    requires WellFormed(a) && WellFormed(b) && Describes(ea, a) && Describes(eb, b) && |m.a2b| == |a| && x < |a|
  {
    m.a2b[x].Some? || forall y: nat :: Twins(a, b, ea, eb, x, y) ==> !Fits(a, b, m, x, y)
  }

  /** Equal hashes of nodes that are paired in m, or are the only ones with that hash. */
  ghost predicate BackedBy(a: Tree, b: Tree, ha: seq<nat>, hb: seq<nat>, m: C.Pairing, x: nat, y: nat)
    requires |ha| == |a| && |hb| == |b|
  {
    && x < |a| && y < |b| && x < |m.a2b| && ha[x] == hb[y]
    && (m.a2b[x] == Some(y) || Mates(a, b, ha, hb, x, y))
  }

  ghost predicate Backed(a: Tree, b: Tree, ea: Evidence, eb: Evidence, m: C.Pairing, x: nat, y: nat)
    requires Describes(ea, a) && Describes(eb, b)
  {
    BackedBy(a, b, ea.exact, eb.exact, m, x, y) || BackedBy(a, b, ea.content, eb.content, m, x, y)
  }

  /** z and w stand at the same place below two backed nodes. */
  ghost predicate Justified(a: Tree, b: Tree, ea: Evidence, eb: Evidence, m: C.Pairing, z: nat, w: nat)
    requires WellFormed(a) && WellFormed(b) && Describes(ea, a) && Describes(eb, b)
  {
    z < |a| && w < |b| && exists x, y :: Backed(a, b, ea, eb, m, x, y) && Corresponds(a, b, x, y, z, w)
  }

  /** Every pair of m' is one of m or justified by m. */
  ghost predicate Sound(a: Tree, b: Tree, ea: Evidence, eb: Evidence, m: C.Pairing, m': C.Pairing)
    requires WellFormed(a) && WellFormed(b) && Describes(ea, a) && Describes(eb, b)
  {
    && |m.a2b| == |m'.a2b| == |a|
    && forall z: nat :: z < |a| && m'.a2b[z].Some? && m'.a2b[z] != m.a2b[z] ==>
         Justified(a, b, ea, eb, m, z, m'.a2b[z].value)
  }

  lemma {:induction false} SoundOne(a: Tree, b: Tree, ea: Evidence, eb: Evidence, k: C.Pairing, m: C.Pairing,
      x: nat, y: nat, z: nat, w: nat)
    requires WellFormed(a) && WellFormed(b) && Describes(ea, a) && Describes(eb, b) && Sound(a, b, ea, eb, k, m)
    requires Backed(a, b, ea, eb, m, x, y) && z < |a| && w < |b| && Corresponds(a, b, x, y, z, w)
    ensures Justified(a, b, ea, eb, k, z, w)
  {
    if !Backed(a, b, ea, eb, k, x, y) {
      var x0, y0 :| Backed(a, b, ea, eb, k, x0, y0) && Corresponds(a, b, x0, y0, x, y);
      CorrespondsThrough(a, b, x0, y0, x, y, z, w);
    }
  }

  /** Pairing below a backed pair keeps everything justified. */
  lemma {:induction false} SoundNext(a: Tree, b: Tree, ea: Evidence, eb: Evidence, k: C.Pairing, m: C.Pairing,
      m': C.Pairing, x: nat, y: nat)
    requires WellFormed(a) && WellFormed(b) && Describes(ea, a) && Describes(eb, b) && Sound(a, b, ea, eb, k, m)
    requires Backed(a, b, ea, eb, m, x, y) && AddsBelow(a, b, m, m', x, y)
    ensures Sound(a, b, ea, eb, k, m')
  {
    forall z: nat | z < |a| && m'.a2b[z].Some? && m'.a2b[z] != k.a2b[z]
      ensures Justified(a, b, ea, eb, k, z, m'.a2b[z].value)
    {
      if m'.a2b[z] != m.a2b[z] { SoundOne(a, b, ea, eb, k, m, x, y, z, m'.a2b[z].value); }
    }
  }

  lemma {:induction false} SearchedStays(a: Tree, b: Tree, ea: Evidence, eb: Evidence, m: C.Pairing, m': C.Pairing,
      x: nat)
    requires WellFormed(a) && WellFormed(b) && Describes(ea, a) && Describes(eb, b) && |m.a2b| == |a| && x < |a|
    requires OneToOne(m) && Extends(m, m') && Searched(a, b, ea, eb, m, x)
    ensures Searched(a, b, ea, eb, m', x)
  {
    forall y: nat | m.a2b[x].None? && Twins(a, b, ea, eb, x, y) ensures !Fits(a, b, m', x, y) {
      if Fits(a, b, m', x, y) { FitsBefore(a, b, m, m', x, y); }
    }
  }

  /** Pair the subtree of x with the candidate under one hash. */
  method PairByHash(a: Tree, b: Tree, ha: seq<nat>, hb: seq<nat>, m: Matching, x: nat, l: Layer)
    returns (done: bool, ghost y: nat)
    requires WellFormed(a) && WellFormed(b) && |ha| == |a| && |hb| == |b| && x < |a| && m.Valid() &&
      KindsAgree(a, b, m.pairs)
    modifies m
    ensures m.Valid() && Kept(a, b, old(m.pairs), m.pairs)
    ensures !done ==> m.pairs == old(m.pairs)
    ensures !done && m.pairs.a2b[x].None? ==>
      forall v: nat :: Mates(a, b, ha, hb, x, v) ==> !Fits(a, b, m.pairs, x, v)
    ensures done ==> AllPaired(a, m.pairs, x) && AddsBelow(a, b, old(m.pairs), m.pairs, x, y)
    ensures done ==> BackedBy(a, b, ha, hb, old(m.pairs), x, y)
    ensures ha == hb && SelfCompatible(a, b, old(m.pairs)) && old(m.pairs).a2b[x] == Some(x) ==>
      done && SelfCompatible(a, b, m.pairs) && SubtreesPaired(a, b, m.pairs, x, x)
  {
    y := 0;
    done := false;
    var found := Candidate(a, b, ha, hb, m.pairs, x);
    if found.Some? {
      y := found.value;
      done := Bulk(a, b, x, found.value, m, l);
    }
  }

  /** Try to pair the whole subtree of x, by exact and then by content hash. */
  method PairSubtree(a: Tree, b: Tree, ea: Evidence, eb: Evidence, m: Matching, x: nat, ghost k: C.Pairing)
    returns (done: bool)
    requires WellFormed(a) && WellFormed(b) && Describes(ea, a) && Describes(eb, b) && x < |a| && m.Valid() &&
      KindsAgree(a, b, m.pairs) && Sound(a, b, ea, eb, k, m.pairs)
    modifies m
    ensures m.Valid() && Kept(a, b, old(m.pairs), m.pairs) && Sound(a, b, ea, eb, k, m.pairs)
    ensures Searched(a, b, ea, eb, m.pairs, x) && (done ==> AllPaired(a, m.pairs, x))
    ensures ea == eb && SelfCompatible(a, b, old(m.pairs)) && old(m.pairs).a2b[x] == Some(x) ==>
              done && SelfCompatible(a, b, m.pairs) && SubtreesPaired(a, b, m.pairs, x, x)
  {
    ghost var before, y := m.pairs, 0;
    done, y := PairByHash(a, b, ea.exact, eb.exact, m, x, I1Exact);
    if !done {
      done, y := PairByHash(a, b, ea.content, eb.content, m, x, I1Content);
    }
    if done {
      SoundNext(a, b, ea, eb, k, before, m.pairs, x, y);
      assert Below(a, x, x);
    }
  }

  /** A pair that is known beforehand: of m, the roots, or nodes that share an id. */
  predicate IsKnown(a: Tree, b: Tree, ea: Evidence, eb: Evidence, m: C.Pairing, x: nat, y: nat)
    requires Describes(ea, a) && Describes(eb, b)
  {
    (x < |m.a2b| && m.a2b[x] == Some(y)) || (x == 0 && y == 0) || SharesId(a, b, ea, eb, x, y)
  }

  /** The pairs of m' are known beforehand, and nodes that share an id are paired where nothing was in the way. */
  ghost predicate Known(a: Tree, b: Tree, ea: Evidence, eb: Evidence, m: C.Pairing, m': C.Pairing)
    requires Describes(ea, a) && Describes(eb, b)
  {
    && |m.a2b| == |m'.a2b| == |a| && |m.b2a| == |m'.b2a| == |b|
    && (forall z: nat :: z < |a| && m'.a2b[z].Some? ==> IsKnown(a, b, ea, eb, m, z, m'.a2b[z].value))
    && IdsFound(a, b, ea, eb, m, m')
  }

  ghost predicate IdsFound(a: Tree, b: Tree, ea: Evidence, eb: Evidence, m: C.Pairing, m': C.Pairing)
    requires Describes(ea, a) && Describes(eb, b) && |m.a2b| == |m'.a2b| == |a| && |m.b2a| == |b|
  {
    forall x: nat, y: nat :: SharesId(a, b, ea, eb, x, y) && x > 0 && y > 0 && m.a2b[x].None? && m.b2a[y].None? ==>
      m'.a2b[x] == Some(y)
  }

  lemma {:induction false} KnownAll(a: Tree, b: Tree, ea: Evidence, eb: Evidence, m: C.Pairing, rooted: C.Pairing,
      m': C.Pairing)
    requires Describes(ea, a) && Describes(eb, b) && |a| > 0 && |b| > 0 && |m.a2b| == |a| && |m.b2a| == |b|
    requires Compatible(m, 0, 0) && rooted == Paired(m, 0, 0)
    requires IdsAdded(a, b, ea, eb, rooted, m', {}) && IdsPaired(a, b, ea, eb, rooted, m', {})
    ensures Known(a, b, ea, eb, m, m')
  {}

  /** Pair the roots and the nodes with common element ids. */
  method PairKnown(a: Tree, b: Tree, ea: Evidence, eb: Evidence, m: Matching)
    requires WellFormed(a) && WellFormed(b) && Describes(ea, a) && Describes(eb, b) && m.Valid() &&
      KindsAgree(a, b, m.pairs)
    requires Compatible(m.pairs, 0, 0)
    modifies m
    ensures m.Valid() && Kept(a, b, old(m.pairs), m.pairs) && m.pairs.a2b[0] == Some(0)
    ensures Known(a, b, ea, eb, old(m.pairs), m.pairs)
    ensures ea == eb && SelfCompatible(a, b, old(m.pairs)) ==> SelfCompatible(a, b, m.pairs)
  {
    var left := Eids(ea.eid);
    var right := Eids(eb.eid);
    var rootId := ea.eid[0];
    var byId := rootId.Some? && rootId.value in left && left[rootId.value] == Some(0) &&
      rootId.value in right && right[rootId.value] == Some(0);
    var _ := SetPair(a, b, 0, 0, m, if byId then I0 else I3);
    ghost var rooted := m.pairs;
    PairEids(a, b, left, right, ea, eb, m);
    ExtendsTransitive(old(m.pairs), rooted, m.pairs);
    KnownAll(a, b, ea, eb, old(m.pairs), rooted, m.pairs);
  }

  lemma {:induction false} PushDrops(t: Tree, stack: seq<nat>, x: nat)
    requires WellFormed(t) && x < |t| && NodesOf(t, stack + [x])
    ensures NodesOf(t, stack + Reversed(t[x].children)) && NodesOf(t, stack)
    ensures Load(t, stack + Reversed(t[x].children)) < Load(t, stack + [x]) && Load(t, stack) < Load(t, stack + [x])
  {
    assert (stack + [x])[..|stack|] == stack && (stack + [x])[|stack|] == x;
    assert forall i :: 0 <= i < |stack| ==> stack[i] == (stack + [x])[i];
    LoadDrops(t, stack, x);
    LoadChildren(t, x, |t[x].children|);
    assert t[x].children[..|t[x].children|] == t[x].children;
    LoadReversed(t, t[x].children);
    LoadConcat(t, stack, Reversed(t[x].children));
    LoadConcat(t, stack, t[x].children);
  }

  /** z is below one of the nodes of the stack. */
  ghost predicate Pending(a: Tree, stack: seq<nat>, z: nat)
    requires WellFormed(a) && z < |a|
  {
    exists i :: 0 <= i < |stack| && Below(a, stack[i], z)
  }

  lemma {:induction false} PendingAt(a: Tree, stack: seq<nat>, z: nat, c: nat)
    requires WellFormed(a) && z < |a| && c in stack && Below(a, c, z)
    ensures Pending(a, stack, z)
  {
    var i :| 0 <= i < |stack| && stack[i] == c;
  }

  /** What is left to search: nodes below the stack; all others are done. */
  ghost predicate SearchedBut(a: Tree, b: Tree, ea: Evidence, eb: Evidence, m: C.Pairing, stack: seq<nat>)
    requires WellFormed(a) && WellFormed(b) && Describes(ea, a) && Describes(eb, b) && |m.a2b| == |a|
  {
    forall z: nat :: z < |a| ==> Pending(a, stack, z) || Searched(a, b, ea, eb, m, z)
  }

  lemma {:induction false} BelowRoot(t: Tree, z: nat)
    requires WellFormed(t) && z < |t|
    ensures Below(t, 0, z)
    decreases z
  {
    if z > 0 {
      assert ParentOk(t, z);
      BelowRoot(t, t[z].parent.value);
    }
  }

  lemma {:induction false} ReversedHolds(xs: seq<nat>, x: nat)
    requires x in xs
    ensures x in Reversed(xs)
  {
    var front, last := xs[..|xs| - 1], xs[|xs| - 1];
    assert xs == front + [last];
    if x != last { ReversedHolds(front, x); }
  }

  /** Once x is done, the nodes below it are: with its subtree, or when its children are. */
  lemma {:induction false} SearchNode(a: Tree, b: Tree, ea: Evidence, eb: Evidence, m: C.Pairing, rest: seq<nat>,
      x: nat, done: bool, z: nat)
    requires WellFormed(a) && WellFormed(b) && Describes(ea, a) && Describes(eb, b) && |m.a2b| == |a|
    requires x < |a| && z < |a| && Below(a, x, z) && Searched(a, b, ea, eb, m, x) && (done ==> AllPaired(a, m, x))
    ensures Pending(a, if done then rest else rest + Reversed(a[x].children), z) || Searched(a, b, ea, eb, m, z)
  {
    if !done && z != x {
      var c := BelowChild(a, x, z);
      ReversedHolds(a[x].children, c);
      PendingAt(a, rest + Reversed(a[x].children), z, c);
    }
  }

  lemma {:induction false} SearchNext(a: Tree, b: Tree, ea: Evidence, eb: Evidence, m: C.Pairing, m': C.Pairing,
      rest: seq<nat>, x: nat, done: bool)
    requires WellFormed(a) && WellFormed(b) && Describes(ea, a) && Describes(eb, b) && |m.a2b| == |a| && x < |a|
    requires OneToOne(m) && Extends(m, m') && SearchedBut(a, b, ea, eb, m, rest + [x])
    requires Searched(a, b, ea, eb, m', x) && (done ==> AllPaired(a, m', x))
    ensures SearchedBut(a, b, ea, eb, m', if done then rest else rest + Reversed(a[x].children))
  {
    var stack := if done then rest else rest + Reversed(a[x].children);
    forall z: nat | z < |a| ensures Pending(a, stack, z) || Searched(a, b, ea, eb, m', z) {
      if Below(a, x, z) {
        SearchNode(a, b, ea, eb, m', rest, x, done, z);
      } else if i :| 0 <= i < |rest + [x]| && Below(a, (rest + [x])[i], z) {
        PendingAt(a, stack, z, rest[i]);
      } else {
        SearchedStays(a, b, ea, eb, m, m', z);
      }
    }
  }

  /** Every pair of m is known beforehand, or at the same place below nodes that are and have equal hashes, or that
      are the only ones with their hash. */
  ghost predicate Found(a: Tree, b: Tree, ea: Evidence, eb: Evidence, first: C.Pairing, z: nat, w: nat)
    requires WellFormed(a) && WellFormed(b) && Describes(ea, a) && Describes(eb, b)
  {
    IsKnown(a, b, ea, eb, first, z, w) || (z < |a| && w < |b| && exists x, y ::
      Explained(a, b, ea, eb, first, x, y) && Corresponds(a, b, x, y, z, w))
  }

  ghost predicate Explained(a: Tree, b: Tree, ea: Evidence, eb: Evidence, first: C.Pairing, x: nat, y: nat)
    requires Describes(ea, a) && Describes(eb, b)
  {
    && x < |a| && y < |b| && (ea.exact[x] == eb.exact[y] || ea.content[x] == eb.content[y])
    && (IsKnown(a, b, ea, eb, first, x, y) || Twins(a, b, ea, eb, x, y))
  }

  ghost predicate AllFound(a: Tree, b: Tree, ea: Evidence, eb: Evidence, first: C.Pairing, m: C.Pairing)
    requires WellFormed(a) && WellFormed(b) && Describes(ea, a) && Describes(eb, b)
  {
    |m.a2b| == |a| &&
    forall z: nat :: z < |a| && m.a2b[z].Some? ==> Found(a, b, ea, eb, first, z, m.a2b[z].value)
  }

  ghost predicate AllSearched(a: Tree, b: Tree, ea: Evidence, eb: Evidence, m: C.Pairing)
    requires WellFormed(a) && WellFormed(b) && Describes(ea, a) && Describes(eb, b)
  {
    |m.a2b| == |a| && forall x: nat :: x < |a| ==> Searched(a, b, ea, eb, m, x)
  }

  lemma {:induction false} FoundAll(a: Tree, b: Tree, ea: Evidence, eb: Evidence, first: C.Pairing, known: C.Pairing,
      m: C.Pairing)
    requires WellFormed(a) && WellFormed(b) && Describes(ea, a) && Describes(eb, b)
    requires Known(a, b, ea, eb, first, known) && Sound(a, b, ea, eb, known, m)
    ensures AllFound(a, b, ea, eb, first, m)
  {
    forall z: nat | z < |a| && m.a2b[z].Some? ensures Found(a, b, ea, eb, first, z, m.a2b[z].value) {
      if m.a2b[z] != known.a2b[z] {
        var x, y :| Backed(a, b, ea, eb, known, x, y) && Corresponds(a, b, x, y, z, m.a2b[z].value);
        assert Explained(a, b, ea, eb, first, x, y);
      }
    }
  }

  lemma {:induction false} FoundStays(a: Tree, b: Tree, ea: Evidence, eb: Evidence, first: C.Pairing, m: C.Pairing,
      m': C.Pairing)
    requires Describes(ea, a) && Describes(eb, b) && |first.a2b| == |m.a2b| == |a| && |first.b2a| == |b|
    requires IdsFound(a, b, ea, eb, first, m) && Extends(m, m')
    ensures IdsFound(a, b, ea, eb, first, m')
  {}

  /** The exact pass: known pairs first, then whole subtrees from the root down. Nodes that share an id are paired; no
      subtree is left that fits its twin; and no pair is made without such a reason. */
  method Exact(a: Tree, b: Tree, ea: Evidence, eb: Evidence, m: Matching)
    requires WellFormed(a) && WellFormed(b) && Describes(ea, a) && Describes(eb, b) && m.Valid() &&
      KindsAgree(a, b, m.pairs)
    requires Compatible(m.pairs, 0, 0)
    modifies m
    ensures m.Valid() && Kept(a, b, old(m.pairs), m.pairs) && m.pairs.a2b[0] == Some(0)
    ensures IdsFound(a, b, ea, eb, old(m.pairs), m.pairs) && AllSearched(a, b, ea, eb, m.pairs)
    ensures AllFound(a, b, ea, eb, old(m.pairs), m.pairs)
    ensures ea == eb && SelfCompatible(a, b, old(m.pairs)) ==> Identity(a, m.pairs)
  {
    PairKnown(a, b, ea, eb, m);
    ghost var known := m.pairs;
    Sweep(a, b, ea, eb, m);
    ExtendsTransitive(old(m.pairs), known, m.pairs);
    FoundAll(a, b, ea, eb, old(m.pairs), known, m.pairs);
    FoundStays(a, b, ea, eb, old(m.pairs), known, m.pairs);
  }

  /** What the sweep has kept, justified and searched. */
  ghost predicate Swept(a: Tree, b: Tree, ea: Evidence, eb: Evidence, first: C.Pairing, m: C.Pairing, stack: seq<nat>)
    requires WellFormed(a) && WellFormed(b) && Describes(ea, a) && Describes(eb, b)
  {
    Kept(a, b, first, m) && Sound(a, b, ea, eb, first, m) && SearchedBut(a, b, ea, eb, m, stack)
  }

  lemma {:induction false} SearchAll(a: Tree, b: Tree, ea: Evidence, eb: Evidence, m: C.Pairing)
    requires WellFormed(a) && WellFormed(b) && Describes(ea, a) && Describes(eb, b) && |m.a2b| == |a|
    ensures SearchedBut(a, b, ea, eb, m, [0])
    ensures SearchedBut(a, b, ea, eb, m, []) ==> AllSearched(a, b, ea, eb, m)
  {
    forall z: nat | z < |a| ensures Pending(a, [0], z) {
      BelowRoot(a, z);
      PendingAt(a, [0], z, 0);
    }
    forall z: nat | z < |a| ensures !Pending(a, [], z) {}
  }

  /** Walk down from the root, pairing whole subtrees where possible. */
  method Sweep(a: Tree, b: Tree, ea: Evidence, eb: Evidence, m: Matching)
    requires WellFormed(a) && WellFormed(b) && Describes(ea, a) && Describes(eb, b) && m.Valid() &&
      KindsAgree(a, b, m.pairs)
    requires m.pairs.a2b[0] == Some(0)
    modifies m
    ensures m.Valid() && Kept(a, b, old(m.pairs), m.pairs) && m.pairs.a2b[0] == Some(0)
    ensures Sound(a, b, ea, eb, old(m.pairs), m.pairs) && AllSearched(a, b, ea, eb, m.pairs)
    ensures ea == eb && SelfCompatible(a, b, old(m.pairs)) ==> Identity(a, m.pairs)
  {
    ghost var same := ea == eb && SelfCompatible(a, b, m.pairs);
    var stack: seq<nat> := [0];
    SearchAll(a, b, ea, eb, m.pairs);
    while stack != []
      invariant NodesOf(a, stack) && m.Valid() && Swept(a, b, ea, eb, old(m.pairs), m.pairs, stack)
      invariant same ==>
        SelfCompatible(a, b, m.pairs) && (stack == [0] || (stack == [] && SubtreesPaired(a, b, m.pairs, 0, 0)))
      decreases Load(a, stack)
    {
      var n := |stack| - 1;
      var x := stack[n];
      var rest := stack[..n];
      assert stack == rest + [x] && x < |a|;
      PushDrops(a, rest, x);
      var done := SweepOne(a, b, ea, eb, m, old(m.pairs), rest, x);
      stack := if done then rest else rest + Reversed(a[x].children);
    }
    SearchAll(a, b, ea, eb, m.pairs);
    if same { SelfPaired(a, m.pairs); }
  }

  method SweepOne(a: Tree, b: Tree, ea: Evidence, eb: Evidence, m: Matching, ghost first: C.Pairing,
                  ghost rest: seq<nat>, x: nat)
    returns (done: bool)
    requires WellFormed(a) && WellFormed(b) && Describes(ea, a) && Describes(eb, b) && x < |a| && m.Valid() &&
      Swept(a, b, ea, eb, first, m.pairs, rest + [x])
    modifies m
    ensures m.Valid() && Swept(a, b, ea, eb, first, m.pairs, if done then rest else rest + Reversed(a[x].children))
    ensures ea == eb && SelfCompatible(a, b, old(m.pairs)) && x == 0 && |first.a2b| > 0 && first.a2b[0] == Some(0) ==>
              done && SelfCompatible(a, b, m.pairs) && SubtreesPaired(a, b, m.pairs, 0, 0)
  {
    ghost var before := m.pairs;
    done := PairSubtree(a, b, ea, eb, m, x, first);
    ExtendsTransitive(first, before, m.pairs);
    SearchNext(a, b, ea, eb, before, m.pairs, rest, x, done);
  }

  // ----- the later passes --------------------------------------------------

  /** Any later pass: proposals of equal kind, recorded when nothing contradicts them. */
  method Propose(a: Tree, b: Tree, proposals: seq<(nat, nat)>, m: Matching, l: Layer)
    requires m.Valid() && KindsAgree(a, b, m.pairs)
    modifies m
    ensures m.Valid() && Kept(a, b, old(m.pairs), m.pairs) && Adds(old(m.pairs), m.pairs, proposals)
  {
    for i := 0 to |proposals|
      invariant m.Valid() && Kept(a, b, old(m.pairs), m.pairs) && Adds(old(m.pairs), m.pairs, proposals)
    {
      var (x, y) := proposals[i];
      assert (x, y) in proposals;
      if x < |a| && y < |b| && a[x].shell.kind == b[y].shell.kind {
        ghost var before := m.pairs;
        var _ := SetPair(a, b, x, y, m, l);
        ExtendsTransitive(old(m.pairs), before, m.pairs);
      }
    }
  }

  /** Every pair has a reason, or was proposed. */
  ghost predicate AllExplained(a: Tree, b: Tree, ea: Evidence, eb: Evidence, first: C.Pairing,
                               ps: seq<(nat, nat)>, m: C.Pairing)
    requires WellFormed(a) && WellFormed(b) && Describes(ea, a) && Describes(eb, b)
  {
    |m.a2b| == |a| && forall z: nat :: z < |a| && m.a2b[z].Some? ==>
      Found(a, b, ea, eb, first, z, m.a2b[z].value) || (z, m.a2b[z].value) in ps
  }

  lemma {:induction false} LaterStay(a: Tree, b: Tree, ea: Evidence, eb: Evidence, first: C.Pairing, m: C.Pairing,
      near: seq<(nat, nat)>, m': C.Pairing, align: seq<(nat, nat)>, m'': C.Pairing)
    requires WellFormed(a) && WellFormed(b) && Describes(ea, a) && Describes(eb, b) && OneToOne(m)
    requires AllFound(a, b, ea, eb, first, m) && AllSearched(a, b, ea, eb, m)
    requires Adds(m, m', near) && Adds(m', m'', align) && Extends(m, m'')
    ensures AllExplained(a, b, ea, eb, first, near + align, m'') && AllSearched(a, b, ea, eb, m'')
  {
    forall x: nat | x < |a| ensures Searched(a, b, ea, eb, m'', x) { SearchedStays(a, b, ea, eb, m, m'', x); }
    forall z: nat | z < |a| && m''.a2b[z].Some?
      ensures Found(a, b, ea, eb, first, z, m''.a2b[z].value) || (z, m''.a2b[z].value) in near + align
    {
      if m''.a2b[z] == m'.a2b[z] == m.a2b[z] { assert Found(a, b, ea, eb, first, z, m.a2b[z].value); }
    }
  }

  /** No pairs at all. */
  function Unpaired(a: Tree, b: Tree): C.Pairing {
    C.Pairing(seq(|a|, _ => None), seq(|b|, _ => None))
  }

  /** All passes in order. Whatever the near and align passes propose, the result pairs the roots, is one-to-one and
      respects kinds; nodes that share an id are paired, no subtree that fits its twin is left, and every pair has such
      a reason or was proposed. */
  method MatchTrees(a: Tree, b: Tree, ea: Evidence, eb: Evidence, near: seq<(nat, nat)>, align: seq<(nat, nat)>)
    returns (r: C.Pairing)
    requires WellFormed(a) && WellFormed(b) && Describes(ea, a) && Describes(eb, b)
    ensures C.Inputs(a, b, r)
    ensures IdsFound(a, b, ea, eb, Unpaired(a, b), r) && AllSearched(a, b, ea, eb, r)
    ensures AllExplained(a, b, ea, eb, Unpaired(a, b), near + align, r)
    ensures a == b && ea == eb ==> Identity(a, r)
  {
    var m := new Matching(a, b);
    assert a == b ==> SelfCompatible(a, b, m.pairs);
    assert m.pairs == Unpaired(a, b);
    Exact(a, b, ea, eb, m);
    ghost var exact := m.pairs;
    Propose(a, b, near, m, I2);
    ghost var nearer := m.pairs;
    Propose(a, b, align, m, I3);
    ExtendsTransitive(exact, nearer, m.pairs);
    LaterStay(a, b, ea, eb, Unpaired(a, b), exact, near, nearer, align, m.pairs);
    FoundStays(a, b, ea, eb, Unpaired(a, b), exact, m.pairs);
    r := m.pairs;
  }
}
