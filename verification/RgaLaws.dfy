/** Climbing anchors, and what lies below an element in the order of an array. */
module RgaLaws {
  import opened Rga

  // ----- climbing ----------------------------------------------------------

  lemma {:induction false} ClimbOn(es: seq<Elem>, x: nat, k: nat, e: Elem)
    requires Climbs(es, x, k, e.eid) && e in es
    ensures Climbs(es, x, k + 1, Anchor(Present(es), e))
    decreases k
  {
    if k == 0 {
      assert Climbs(es, Anchor(Present(es), e), 0, Anchor(Present(es), e));
    } else {
      var d :| d in es && d.eid == x && Climbs(es, Anchor(Present(es), d), k - 1, e.eid);
      ClimbOn(es, Anchor(Present(es), d), k - 1, e);
    }
  }

  /** The last step of a climb. */
  lemma {:induction false} ClimbLast(es: seq<Elem>, x: nat, k: nat, id: nat) returns (e: Elem)
    requires k > 0 && Climbs(es, x, k, id)
    ensures e in es && Anchor(Present(es), e) == id && Climbs(es, x, k - 1, e.eid)
    decreases k
  {
    var d :| d in es && d.eid == x && Climbs(es, Anchor(Present(es), d), k - 1, id);
    if k == 1 {
      e := d;
    } else {
      e := ClimbLast(es, Anchor(Present(es), d), k - 1, id);
      assert Climbs(es, x, k - 1, e.eid);
    }
  }

  lemma {:induction false} ClimbsOneWay(es: seq<Elem>, x: nat, k: nat, a: nat, b: nat)
    requires Wf(es) && Climbs(es, x, k, a) && Climbs(es, x, k, b)
    ensures a == b
    decreases k
  {
    if k > 0 {
      var d :| d in es && d.eid == x && Climbs(es, Anchor(Present(es), d), k - 1, a);
      var e :| e in es && e.eid == x && Climbs(es, Anchor(Present(es), e), k - 1, b);
      OneElem(es, d, e);
      ClimbsOneWay(es, Anchor(Present(es), d), k - 1, a, b);
    }
  }

  lemma {:induction false} ClimbDepth(es: seq<Elem>, x: nat, k: nat, id: nat)
    requires Wf(es) && Climbs(es, x, k, id) && Reachable(es, id)
    ensures Reachable(es, x) && Depth(es, x) == Depth(es, id) + k
    decreases k
  {
    if k > 0 {
      var e :| e in es && e.eid == x && Climbs(es, Anchor(Present(es), e), k - 1, id);
      ClimbDepth(es, Anchor(Present(es), e), k - 1, id);
      DepthStep(es, e);
    }
  }

  // ----- contents ----------------------------------------------------------

  /** x hangs below id, at whatever distance. */
  ghost predicate HangsBelow(es: seq<Elem>, x: nat, id: nat) {
    exists k: nat :: k > 0 && Climbs(es, x, k, id)
  }

  ghost predicate IsItem(es: seq<Elem>, i: Item) {
    exists e :: e in es && i == Item(e.eid, e.live)
  }

  ghost predicate InBelow(es: seq<Elem>, id: nat, i: Item) {
    IsItem(es, i) && HangsBelow(es, i.eid, id)
  }

  /** i is one of the kids, or hangs below one. */
  ghost predicate InList(es: seq<Elem>, kids: seq<Item>, i: Item) {
    exists k :: k in kids && (i == k || InBelow(es, k.eid, i))
  }

  lemma {:induction false} ListSnoc(es: seq<Elem>, kids: seq<Item>, i: Item)
    requires kids != []
    ensures var last := kids[|kids| - 1];
      InList(es, kids, i) <==> i == last || InBelow(es, last.eid, i) || InList(es, kids[..|kids| - 1], i)
  {
    var front, last := kids[..|kids| - 1], kids[|kids| - 1];
    assert kids == front + [last];
    if k :| k in front && (i == k || InBelow(es, k.eid, i)) { assert k in kids; }
    assert last in kids;
  }

  /** Below an id lie its kids and what lies below them. */
  lemma {:induction false} BelowByKids(es: seq<Elem>, id: nat, i: Item)
    requires Wf(es) && Reachable(es, id)
    ensures InBelow(es, id, i) <==> InList(es, Kids(es, id), i)
  {
    KidsIff(es, id);
    if InBelow(es, id, i) {
      var k: nat :| k > 0 && Climbs(es, i.eid, k, id);
      var e := ClimbLast(es, i.eid, k, id);
      var kid := Item(e.eid, e.live);
      assert kid in Kids(es, id);
      if k == 1 {
        var d :| d in es && i == Item(d.eid, d.live);
        OneElem(es, d, e);
      } else {
        assert HangsBelow(es, i.eid, e.eid);
      }
    }
    if InList(es, Kids(es, id), i) {
      var kid :| kid in Kids(es, id) && (i == kid || InBelow(es, kid.eid, i));
      var e :| e in es && Anchor(Present(es), e) == id && kid == Item(e.eid, e.live);
      var k: nat :| Climbs(es, i.eid, k, e.eid);
      ClimbOn(es, i.eid, k, e);
      assert HangsBelow(es, i.eid, id);
    }
  }

  /** The recursive order lists exactly what hangs below. */
  lemma {:induction false} BelowIff(es: seq<Elem>, id: nat, i: Item)
    requires Wf(es) && Reachable(es, id)
    ensures i in Below(es, id) <==> InBelow(es, id, i)
    decreases Height(es, id), 1, 0
  {
    KidsUnder(es, id);
    BelowByKids(es, id, i);
    BelowListIff(es, id, Kids(es, id), i);
  }

  lemma {:induction false} BelowListIff(es: seq<Elem>, id: nat, kids: seq<Item>, i: Item)
    requires Wf(es) && Under(es, kids, id)
    ensures i in BelowList(es, id, kids) <==> InList(es, kids, i)
    decreases Height(es, id), 0, |kids|
  {
    if kids != [] {
      var front, last := kids[..|kids| - 1], kids[|kids| - 1];
      ListSnoc(es, kids, i);
      BelowIff(es, last.eid, i);
      BelowListIff(es, id, front, i);
      assert BelowList(es, id, kids) == [last] + Below(es, last.eid) + BelowList(es, id, front);
    }
  }

  // ----- every element once ------------------------------------------------

  predicate Once(s: seq<Item>) {
    forall i, j :: 0 <= i < j < |s| ==> s[i].eid != s[j].eid
  }

  predicate Apart(a: seq<Item>, b: seq<Item>) {
    forall x, y :: x in a && y in b ==> x.eid != y.eid
  }

  lemma {:induction false} OnceConcat(a: seq<Item>, b: seq<Item>)
    requires Once(a) && Once(b) && Apart(a, b)
    ensures Once(a + b)
  {
    var s := a + b;
    forall i, j | 0 <= i < j < |s| ensures s[i].eid != s[j].eid {
      if i < |a| <= j { assert s[i] in a && s[j] in b; }
    }
  }

  /** All kids hang on id. */
  ghost predicate HangOn(es: seq<Elem>, id: nat, kids: seq<Item>) {
    Under(es, kids, id) && forall k :: k in kids ==> k in Kids(es, id)
  }

  /** What lies in the lists of two kids has different ids. */
  lemma {:induction false} KidsApart(es: seq<Elem>, id: nat, a: Item, b: Item, x: nat, j: nat, k: nat)
    requires Wf(es) && Reachable(es, id) && a in Kids(es, id) && b in Kids(es, id)
    requires Climbs(es, x, j, a.eid) && Climbs(es, x, k, b.eid)
    ensures a.eid == b.eid
  {
    KidsIff(es, id);
    var d :| d in es && Anchor(Present(es), d) == id && a == Item(d.eid, d.live);
    var e :| e in es && Anchor(Present(es), e) == id && b == Item(e.eid, e.live);
    SiblingDepths(es, d, e, x, j, k);
    ClimbsOneWay(es, x, j, a.eid, b.eid);
  }

  lemma {:induction false} SiblingDepths(es: seq<Elem>, d: Elem, e: Elem, x: nat, j: nat, k: nat)
    requires Wf(es) && d in es && e in es && Anchor(Present(es), d) == Anchor(Present(es), e)
    requires Reachable(es, Anchor(Present(es), d)) && Climbs(es, x, j, d.eid) && Climbs(es, x, k, e.eid)
    ensures j == k
  {
    DepthStep(es, d);
    DepthStep(es, e);
    ClimbDepth(es, x, j, d.eid);
    ClimbDepth(es, x, k, e.eid);
  }

  /** A kid with what lies below it. */
  ghost function Block(es: seq<Elem>, kid: Item): seq<Item>
    requires Wf(es) && Reachable(es, kid.eid)
  {
    [kid] + Below(es, kid.eid)
  }

  lemma {:induction false} BlockClimbs(es: seq<Elem>, kid: Item, i: Item) returns (k: nat)
    requires Wf(es) && Reachable(es, kid.eid) && i in Block(es, kid)
    ensures Climbs(es, i.eid, k, kid.eid) && (k == 0 ==> i == kid)
  {
    if i == kid {
      k := 0;
    } else {
      BelowIff(es, kid.eid, i);
      k :| k > 0 && Climbs(es, i.eid, k, kid.eid);
    }
  }

  lemma {:induction false} BlockOnce(es: seq<Elem>, kid: Item)
    requires Wf(es) && Reachable(es, kid.eid) && Once(Below(es, kid.eid))
    ensures Once(Block(es, kid))
  {
    forall x, y | x in [kid] && y in Below(es, kid.eid) ensures x.eid != y.eid {
      BelowIff(es, kid.eid, y);
      var k: nat :| k > 0 && Climbs(es, y.eid, k, kid.eid);
      ClimbDepth(es, y.eid, k, kid.eid);
    }
    OnceConcat([kid], Below(es, kid.eid));
  }

  lemma {:induction false} BlockApart(es: seq<Elem>, id: nat, front: seq<Item>, last: Item)
    requires Wf(es) && HangOn(es, id, front) && last in Kids(es, id) && Reachable(es, last.eid)
    requires forall k :: k in front ==> k.eid != last.eid
    ensures Apart(Block(es, last), BelowList(es, id, front))
  {
    forall x, y | x in Block(es, last) && y in BelowList(es, id, front) ensures x.eid != y.eid {
      if x.eid == y.eid {
        var j := BlockClimbs(es, last, x);
        BelowListIff(es, id, front, y);
        var kid :| kid in front && (y == kid || InBelow(es, kid.eid, y));
        var k: nat :| Climbs(es, y.eid, k, kid.eid);
        KidsApart(es, id, last, kid, x.eid, j, k);
      }
    }
  }

  lemma {:induction false} BelowOnce(es: seq<Elem>, id: nat)
    requires Wf(es) && Reachable(es, id)
    ensures Once(Below(es, id))
    decreases Height(es, id), 1, 0
  {
    KidsUnder(es, id);
    KidsRising(es, id);
    BelowListOnce(es, id, Kids(es, id));
  }

  lemma {:induction false} BelowListOnce(es: seq<Elem>, id: nat, kids: seq<Item>)
    requires Wf(es) && HangOn(es, id, kids) && Rising(kids)
    ensures Once(BelowList(es, id, kids))
    decreases Height(es, id), 0, |kids|
  {
    if kids != [] {
      var front, last := kids[..|kids| - 1], kids[|kids| - 1];
      BelowOnce(es, last.eid);
      BlockOnce(es, last);
      BelowListOnce(es, id, front);
      BlockApart(es, id, front, last);
      OnceConcat(Block(es, last), BelowList(es, id, front));
    }
  }
}
