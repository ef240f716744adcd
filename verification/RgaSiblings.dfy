/** Elements with one anchor come newest first. */
module RgaSiblings {
  import opened Rga
  import opened RgaLaws
  import opened RgaWalk

  ghost predicate Precedes(s: seq<Item>, x: Item, y: Item) {
    exists i, j :: 0 <= i < j < |s| && s[i] == x && s[j] == y
  }

  lemma {:induction false} PrecedesWithin(x: seq<Item>, s: seq<Item>, y: seq<Item>, a: Item, b: Item)
    requires Precedes(s, a, b)
    ensures Precedes(x + s + y, a, b)
  {
    var all := x + s + y;
    var i, j :| 0 <= i < j < |s| && s[i] == a && s[j] == b;
    assert all[|x| + i] == a && all[|x| + j] == b;
  }

  lemma {:induction false} FirstPrecedes(s: seq<Item>, t: seq<Item>, b: Item)
    requires s != [] && b in t
    ensures Precedes(s + t, s[0], b)
  {
    var j :| 0 <= j < |t| && t[j] == b;
    assert (s + t)[|s| + j] == b && (s + t)[0] == s[0];
  }

  lemma {:induction false} KidListed(es: seq<Elem>, id: nat, kids: seq<Item>, i: nat)
    requires Wf(es) && Under(es, kids, id) && i < |kids|
    ensures kids[i] in BelowList(es, id, kids)
    decreases |kids|
  {
    if i < |kids| - 1 { KidListed(es, id, kids[..|kids| - 1], i); }
  }

  /** A later kid of the list, which is a newer one, comes first. */
  lemma {:induction false} ListReversed(es: seq<Elem>, id: nat, kids: seq<Item>, i: nat, j: nat)
    requires Wf(es) && Under(es, kids, id) && i < j < |kids|
    ensures Precedes(BelowList(es, id, kids), kids[j], kids[i])
    decreases |kids|
  {
    var front, last := kids[..|kids| - 1], kids[|kids| - 1];
    var block, rest := [last] + Below(es, last.eid), BelowList(es, id, front);
    assert BelowList(es, id, kids) == block + rest;
    if j == |kids| - 1 {
      KidListed(es, id, front, i);
      FirstPrecedes(block, rest, kids[i]);
    } else {
      ListReversed(es, id, front, i, j);
      PrecedesWithin(block, rest, [], kids[j], kids[i]);
      assert block + rest + [] == block + rest;
    }
  }

  lemma {:induction false} KidAt(es: seq<Elem>, e: Elem) returns (i: nat)
    requires Wf(es) && e in es
    ensures var kids := Kids(es, Anchor(Present(es), e)); i < |kids| && kids[i] == Item(e.eid, e.live)
  {
    var a := Anchor(Present(es), e);
    KidsIff(es, a);
    assert Item(e.eid, e.live) in Kids(es, a);
    i :| 0 <= i < |Kids(es, a)| && Kids(es, a)[i] == Item(e.eid, e.live);
  }

  lemma {:induction false} KidsNewestFirst(es: seq<Elem>, d: Elem, e: Elem)
    requires Wf(es) && d in es && e in es && Anchor(Present(es), d) == Anchor(Present(es), e) && d.eid > e.eid
    requires Reachable(es, Anchor(Present(es), d))
    ensures Precedes(Below(es, Anchor(Present(es), d)), Item(d.eid, d.live), Item(e.eid, e.live))
  {
    var a := Anchor(Present(es), d);
    var kids := Kids(es, a);
    KidsUnder(es, a);
    var j := KidAt(es, d);
    var i := KidAt(es, e);
    KidsRising(es, a);
    ListReversed(es, a, kids, i, j);
  }

  /** What reaches the head does so through its anchor. */
  lemma {:induction false} AnchorReachable(es: seq<Elem>, e: Elem)
    requires Wf(es) && e in es && Reachable(es, e.eid)
    ensures Reachable(es, Anchor(Present(es), e))
  {
    var k: nat :| HasDepth(es, e.eid, k);
    assert k > 0;
    var d :| d in es && d.eid == e.eid && Climbs(es, Anchor(Present(es), d), k - 1, HEAD);
    OneElem(es, d, e);
    assert HasDepth(es, Anchor(Present(es), e), k - 1);
  }

  /** The order below an element is part of the order. */
  lemma {:induction false} WithinOrder(es: seq<Elem>, a: nat, x: Item, y: Item)
    requires Wf(es) && a in Present(es) && Reachable(es, a) && Precedes(Below(es, a), x, y)
    ensures Precedes(Order(es), x, y)
  {
    var p :| p in es && p.eid == a;
    var i := Item(p.eid, p.live);
    OrderLists(es);
    assert IsItem(es, i) && i in Order(es);
    HeadReachable(es);
    var before, after := BelowContiguous(es, HEAD, i);
    WithinBlock(before, i, Below(es, a), after, x, y);
  }

  lemma {:induction false} WithinBlock(before: seq<Item>, i: Item, below: seq<Item>, after: seq<Item>, x: Item, y: Item)
    requires Precedes(below, x, y)
    ensures Precedes(before + ([i] + below) + after, x, y)
  {
    PrecedesWithin(before + [i], below, after, x, y);
    assert before + ([i] + below) + after == (before + [i]) + below + after;
  }

  /** Of two elements with one anchor, the one with the higher id comes first. */
  lemma {:induction false} NewestFirst(es: seq<Elem>, d: Elem, e: Elem)
    requires Wf(es) && d in es && e in es && Anchor(Present(es), d) == Anchor(Present(es), e) && d.eid > e.eid
    requires Reachable(es, d.eid)
    ensures Precedes(Order(es), Item(d.eid, d.live), Item(e.eid, e.live))
  {
    var a := Anchor(Present(es), d);
    AnchorReachable(es, d);
    KidsNewestFirst(es, d, e);
    if a != HEAD { WithinOrder(es, a, Item(d.eid, d.live), Item(e.eid, e.live)); }
  }
}
