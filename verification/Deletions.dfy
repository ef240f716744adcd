/** A subtree that is gone is deleted once, at its top. */
module Deletions {
  import opened Classify
  import opened Options
  import opened Trees

  /** Everything from x up to r is without a partner. */
  predicate GoneUpTo(a: Tree, m: Pairing, x: nat, r: nat)
    requires WellFormed(a) && |m.a2b| == |a| && x < |a|
    decreases x
  {
    m.a2b[x].None? && (x == r || (x > 0 && (assert ParentOk(a, x); GoneUpTo(a, m, a[x].parent.value, r))))
  }

  /** The highest node without a partner that is reached from x through such nodes. */
  function Top(a: Tree, m: Pairing, x: nat): nat
    requires WellFormed(a) && |m.a2b| == |a| && 0 < x < |a|
    decreases x
  {
    assert ParentOk(a, x);
    var p := a[x].parent.value;
    if p == 0 || m.a2b[p].Some? then x else Top(a, m, p)
  }

  lemma {:induction false} TopIsDeleted(a: Tree, b: Tree, m: Pairing, moved: seq<bool>, x: nat)
    requires Inputs(a, b, m) && |moved| == |a| && 0 < x < |a| && m.a2b[x].None?
    ensures RawOk(a, b, m, moved, Delete(Top(a, m, x))) && GoneUpTo(a, m, x, Top(a, m, x))
    decreases x
  {
    assert ParentOk(a, x);
    var p := a[x].parent.value;
    if p != 0 && m.a2b[p].None? { TopIsDeleted(a, b, m, moved, p); }
  }

  lemma {:induction false} OnlyTop(a: Tree, b: Tree, m: Pairing, moved: seq<bool>, x: nat, r: nat)
    requires Inputs(a, b, m) && |moved| == |a| && 0 < x < |a| && GoneUpTo(a, m, x, r)
    requires RawOk(a, b, m, moved, Delete(r))
    ensures r == Top(a, m, x)
    decreases x
  {
    assert ParentOk(a, x);
    var p := a[x].parent.value;
    if x != r { OnlyTop(a, b, m, moved, p, r); }
  }

  /** Every node that is gone is covered by exactly one delete, reached through nodes that are gone. */
  lemma {:induction false} DeletedOnce(a: Tree, b: Tree, m: Pairing, moved: seq<bool>, x: nat, r: nat)
    requires Inputs(a, b, m) && |moved| == |a| && x < |a| && m.a2b[x].None?
    ensures x > 0
    ensures RawOk(a, b, m, moved, Delete(r)) && GoneUpTo(a, m, x, r) <==> r == Top(a, m, x)
  {
    TopIsDeleted(a, b, m, moved, x);
    if RawOk(a, b, m, moved, Delete(r)) && GoneUpTo(a, m, x, r) { OnlyTop(a, b, m, moved, x, r); }
  }
}
