/**
 * Order of a replicated growable array. Every element names the element it was
 * inserted after, its left anchor; siblings that share an anchor come newest
 * first. Element ids (hlc, origin) are written as one number, as dots are, and
 * the head sentinel is 0.
 */
module Rga {
  import S = Sorting

  const HEAD: nat := 0

  datatype Elem = Elem(eid: nat, left: nat, live: bool)

  datatype Item = Item(eid: nat, live: bool)

  /** Ids are unique, and none is the sentinel. */
  predicate Wf(es: seq<Elem>) {
    && (forall e :: e in es ==> e.eid != HEAD)
    && (forall i, j :: 0 <= i < j < |es| ==> es[i].eid != es[j].eid)
  }

  function Present(es: seq<Elem>): set<nat> {
    set e | e in es :: e.eid
  }

  /** Where an element hangs; one whose anchor is absent hangs on the sentinel. */
  function Anchor(present: set<nat>, e: Elem): nat {
    if e.left != HEAD && e.left !in present then HEAD else e.left
  }

  predicate Older(a: Item, b: Item) {
    a.eid <= b.eid
  }

  function Hanging(es: seq<Elem>, present: set<nat>, a: nat): seq<Item> {
    if es == [] then []
    else
      var front, e := Hanging(es[..|es| - 1], present, a), es[|es| - 1];
      if Anchor(present, e) == a then front + [Item(e.eid, e.live)] else front
  }

  /** The elements anchored on a, oldest first. */
  function Kids(es: seq<Elem>, a: nat): seq<Item> {
    S.Sort(Hanging(es, Present(es), a), Older)
  }

  lemma {:induction false} HangingIff(es: seq<Elem>, present: set<nat>, a: nat)
    ensures forall i :: i in Hanging(es, present, a) <==>
              exists e :: e in es && Anchor(present, e) == a && i == Item(e.eid, e.live)
  {
    if es != [] {
      var front, last := es[..|es| - 1], es[|es| - 1];
      HangingIff(front, present, a);
      assert es == front + [last];
      forall i ensures i in Hanging(es, present, a) <==>
                exists e :: e in es && Anchor(present, e) == a && i == Item(e.eid, e.live)
      {
        if i in Hanging(front, present, a) {
          var e :| e in front && Anchor(present, e) == a && i == Item(e.eid, e.live);
          assert e in es;
        }
      }
    }
  }

  lemma {:induction false} HangingDistinct(es: seq<Elem>, present: set<nat>, a: nat)
    requires Wf(es)
    ensures S.Distinct(Hanging(es, present, a))
  {
    if es != [] {
      var front, last := es[..|es| - 1], es[|es| - 1];
      assert es == front + [last];
      assert Wf(front);
      HangingDistinct(front, present, a);
      HangingIff(front, present, a);
      var h := Hanging(front, present, a);
      forall i | 0 <= i < |h| ensures h[i] != Item(last.eid, last.live) {
        assert h[i] in h;
        var e :| e in front && h[i] == Item(e.eid, e.live);
        var j :| 0 <= j < |front| && front[j] == e;
        assert es[j] == e;
      }
    }
  }

  lemma {:induction false} KidsIff(es: seq<Elem>, a: nat)
    ensures forall i :: i in Kids(es, a) <==>
              exists e :: e in es && Anchor(Present(es), e) == a && i == Item(e.eid, e.live)
  {
    HangingIff(es, Present(es), a);
    S.SameElements(Hanging(es, Present(es), a), Kids(es, a));
  }

  /** An id names at most one element. */
  lemma {:induction false} OneElem(es: seq<Elem>, d: Elem, e: Elem)
    requires Wf(es) && d in es && e in es && d.eid == e.eid
    ensures d == e
  {
    var i :| 0 <= i < |es| && es[i] == d;
    var j :| 0 <= j < |es| && es[j] == e;
  }

  predicate Rising(s: seq<Item>) {
    forall i, j :: 0 <= i < j < |s| ==> s[i].eid < s[j].eid
  }

  lemma {:induction false} KidsRising(es: seq<Elem>, a: nat)
    requires Wf(es)
    ensures Rising(Kids(es, a))
  {
    var h, k := Hanging(es, Present(es), a), Kids(es, a);
    HangingDistinct(es, Present(es), a);
    S.SameElements(h, k);
    S.SortSorted(h, Older);
    KidsIff(es, a);
    forall i, j | 0 <= i < j < |k| ensures k[i].eid < k[j].eid {
      assert Older(k[i], k[j]) && k[i] in k && k[j] in k && k[i] != k[j];
      var d :| d in es && k[i] == Item(d.eid, d.live);
      var e :| e in es && k[j] == Item(e.eid, e.live);
      if d.eid == e.eid { OneElem(es, d, e); }
    }
  }

  // ----- depth -------------------------------------------------------------

  /** Following k anchors leads from x to id. */
  ghost predicate Climbs(es: seq<Elem>, x: nat, k: nat, id: nat)
    decreases k
  {
    if k == 0 then x == id
    else exists e :: e in es && e.eid == x && Climbs(es, Anchor(Present(es), e), k - 1, id)
  }

  /** An id lies k anchors away from the sentinel. */
  ghost predicate HasDepth(es: seq<Elem>, id: nat, k: nat) {
    Climbs(es, id, k, HEAD)
  }

  ghost predicate Reachable(es: seq<Elem>, id: nat) {
    exists k: nat :: HasDepth(es, id, k)
  }

  lemma {:induction false} OneDepth(es: seq<Elem>, id: nat, j: nat, k: nat)
    requires Wf(es) && HasDepth(es, id, j) && HasDepth(es, id, k)
    ensures j == k
    decreases j
  {
    if j > 0 && k > 0 {
      var d :| d in es && d.eid == id && HasDepth(es, Anchor(Present(es), d), j - 1);
      var e :| e in es && e.eid == id && HasDepth(es, Anchor(Present(es), e), k - 1);
      OneElem(es, d, e);
      OneDepth(es, Anchor(Present(es), d), j - 1, k - 1);
    }
  }

  ghost function Depth(es: seq<Elem>, id: nat): nat
    requires Reachable(es, id)
  {
    var k: nat :| HasDepth(es, id, k);
    k
  }

  /** An element hangs one deeper than its anchor. */
  lemma {:induction false} DepthStep(es: seq<Elem>, e: Elem)
    requires Wf(es) && e in es
    ensures Reachable(es, e.eid) <==> Reachable(es, Anchor(Present(es), e))
    ensures Reachable(es, e.eid) ==> Depth(es, e.eid) == Depth(es, Anchor(Present(es), e)) + 1
  {
    var a := Anchor(Present(es), e);
    if Reachable(es, a) {
      assert HasDepth(es, e.eid, Depth(es, a) + 1);
      OneDepth(es, e.eid, Depth(es, e.eid), Depth(es, a) + 1);
    }
    if Reachable(es, e.eid) {
      var k := Depth(es, e.eid);
      var d :| d in es && d.eid == e.eid && HasDepth(es, Anchor(Present(es), d), k - 1);
      OneElem(es, d, e);
      assert HasDepth(es, a, k - 1);
    }
  }

  lemma {:induction false} DepthBound(es: seq<Elem>, n: nat) returns (bound: nat)
    requires n <= |es|
    ensures forall i :: 0 <= i < n && Reachable(es, es[i].eid) ==> Depth(es, es[i].eid) <= bound
  {
    if n == 0 {
      bound := 0;
    } else {
      bound := DepthBound(es, n - 1);
      if Reachable(es, es[n - 1].eid) && Depth(es, es[n - 1].eid) > bound {
        bound := Depth(es, es[n - 1].eid);
      }
    }
  }

  ghost predicate IsBound(es: seq<Elem>, bound: nat) {
    forall e :: e in es && Reachable(es, e.eid) ==> Depth(es, e.eid) <= bound
  }

  lemma {:induction false} BoundExists(es: seq<Elem>)
    ensures exists b: nat :: IsBound(es, b)
  {
    var b := DepthBound(es, |es|);
    assert IsBound(es, b);
  }

  /** How much deeper than an id elements can lie. */
  ghost function Height(es: seq<Elem>, id: nat): nat
    requires Reachable(es, id)
  {
    BoundExists(es);
    var b: nat :| IsBound(es, b);
    if Depth(es, id) <= b then b - Depth(es, id) else 0
  }

  lemma {:induction false} HeightDrops(es: seq<Elem>, e: Elem)
    requires Wf(es) && e in es && Reachable(es, Anchor(Present(es), e))
    ensures Reachable(es, e.eid) && Height(es, e.eid) < Height(es, Anchor(Present(es), e))
  {
    DepthStep(es, e);
  }

  // ----- the order, recursively --------------------------------------------

  ghost predicate Under(es: seq<Elem>, kids: seq<Item>, id: nat) {
    Reachable(es, id) && forall i :: i in kids ==> Reachable(es, i.eid) && Height(es, i.eid) < Height(es, id)
  }

  lemma {:induction false} KidsUnder(es: seq<Elem>, id: nat)
    requires Wf(es) && Reachable(es, id)
    ensures Under(es, Kids(es, id), id)
  {
    KidsIff(es, id);
    forall i | i in Kids(es, id) ensures Reachable(es, i.eid) && Height(es, i.eid) < Height(es, id) {
      var e :| e in es && Anchor(Present(es), e) == id && i == Item(e.eid, e.live);
      HeightDrops(es, e);
    }
  }

  /** Everything anchored below an id: each kid, newest first, followed by what hangs below it. */
  ghost function Below(es: seq<Elem>, id: nat): seq<Item>
    requires Wf(es) && Reachable(es, id)
    decreases Height(es, id), 1, 0
  {
    KidsUnder(es, id);
    BelowList(es, id, Kids(es, id))
  }

  ghost function BelowList(es: seq<Elem>, id: nat, kids: seq<Item>): seq<Item>
    requires Wf(es) && Under(es, kids, id)
    decreases Height(es, id), 0, |kids|
  {
    if kids == [] then []
    else
      var last := kids[|kids| - 1];
      [last] + Below(es, last.eid) + BelowList(es, id, kids[..|kids| - 1])
  }

  lemma {:induction false} HeadReachable(es: seq<Elem>)
    ensures Reachable(es, HEAD)
  {
    assert HasDepth(es, HEAD, 0);
  }

  /** The document order of the array. */
  ghost function Order(es: seq<Elem>): seq<Item>
    requires Wf(es)
  {
    HeadReachable(es);
    Below(es, HEAD)
  }
}
