/** The order of an array depends on ids and anchors alone, and an insertion never reorders other elements. */
module RgaStable {
  import opened Rga
  import opened RgaLaws
  import opened RgaWalk
  import S = Sorting

  /** The ids of a list, leaving out x. */
  function Strip(s: seq<Item>, x: nat): seq<nat> {
    if s == [] then []
    else if s[|s| - 1].eid == x then Strip(s[..|s| - 1], x)
    else Strip(s[..|s| - 1], x) + [s[|s| - 1].eid]
  }

  lemma {:induction false} StripConcat(s: seq<Item>, t: seq<Item>, x: nat)
    ensures Strip(s + t, x) == Strip(s, x) + Strip(t, x)
  {
    if t == [] {
      assert s + t == s;
    } else {
      var u := s + t;
      assert u[..|u| - 1] == s + t[..|t| - 1] && u[|u| - 1] == t[|t| - 1];
      StripConcat(s, t[..|t| - 1], x);
    }
  }

  lemma {:induction false} StripIff(s: seq<Item>, x: nat, n: nat)
    ensures n in Strip(s, x) <==> n != x && exists i :: i in s && i.eid == n
  {
    if s != [] {
      var front, last := s[..|s| - 1], s[|s| - 1];
      StripIff(front, x, n);
      assert s == front + [last];
      if i :| i in front && i.eid == n { assert i in s; }
      assert last in s;
    }
  }

  lemma {:induction false} StripAscends(s: seq<Item>, x: nat)
    requires Rising(s)
    ensures S.Ascending(Strip(s, x))
  {
    if s != [] {
      var front, last := s[..|s| - 1], s[|s| - 1];
      StripAscends(front, x);
      var r := Strip(front, x);
      forall i | 0 <= i < |r| ensures r[i] < last.eid {
        StripIff(front, x, r[i]);
        assert r[i] in r;
      }
    }
  }

  // ----- two arrays that agree but for x -----------------------------------

  ghost predicate Placed(es: seq<Elem>, id: nat, left: nat) {
    exists e :: e in es && e.eid == id && e.left == left
  }

  /** es' places the same elements as es, and possibly x, on which nothing is anchored. */
  ghost predicate AgreeBut(es: seq<Elem>, es': seq<Elem>, x: nat) {
    && Wf(es) && Wf(es')
    && (forall id, left :: id != x ==> (Placed(es, id, left) <==> Placed(es', id, left)))
    && (x != HEAD ==> (forall left :: !Placed(es, x, left)) && (forall id :: !Placed(es', id, x)))
  }

  lemma {:induction false} ElemPlaced(es: seq<Elem>, e: Elem)
    requires e in es
    ensures Placed(es, e.eid, e.left)
  {}

  lemma {:induction false} PresentAgree(es: seq<Elem>, es': seq<Elem>, x: nat, id: nat)
    requires AgreeBut(es, es', x) && id != x
    ensures id in Present(es) <==> id in Present(es')
  {
    if id in Present(es) {
      var e :| e in es && e.eid == id;
      ElemPlaced(es, e);
      assert Placed(es', id, e.left);
    }
    if id in Present(es') {
      var e :| e in es' && e.eid == id;
      ElemPlaced(es', e);
      assert Placed(es, id, e.left);
    }
  }

  lemma {:induction false} AnchorAgree(es: seq<Elem>, es': seq<Elem>, x: nat, e: Elem, e': Elem)
    requires AgreeBut(es, es', x) && e in es && e' in es' && e.left == e'.left
    ensures Anchor(Present(es), e) == Anchor(Present(es'), e')
  {
    ElemPlaced(es', e');
    if e.left != HEAD { PresentAgree(es, es', x, e.left); }
  }

  ghost predicate HasKid(es: seq<Elem>, a: nat, n: nat) {
    exists i :: i in Kids(es, a) && i.eid == n
  }

  ghost predicate Hangs(es: seq<Elem>, a: nat, n: nat) {
    exists e :: e in es && e.eid == n && Anchor(Present(es), e) == a
  }

  lemma {:induction false} HasKidIff(es: seq<Elem>, a: nat, n: nat)
    ensures HasKid(es, a, n) <==> Hangs(es, a, n)
  {
    KidsIff(es, a);
    if e :| e in es && e.eid == n && Anchor(Present(es), e) == a { assert Item(e.eid, e.live) in Kids(es, a); }
  }

  lemma {:induction false} HangsAgree(es: seq<Elem>, es': seq<Elem>, x: nat, a: nat, n: nat)
    requires AgreeBut(es, es', x) && n != x
    ensures Hangs(es, a, n) <==> Hangs(es', a, n)
  {
    if e :| e in es && e.eid == n && Anchor(Present(es), e) == a {
      ElemPlaced(es, e);
      assert Placed(es', n, e.left);
      var e' :| e' in es' && e'.eid == n && e'.left == e.left;
      AnchorAgree(es, es', x, e, e');
    }
    if e' :| e' in es' && e'.eid == n && Anchor(Present(es'), e') == a {
      ElemPlaced(es', e');
      assert Placed(es, n, e'.left);
      var e :| e in es && e.eid == n && e.left == e'.left;
      AnchorAgree(es, es', x, e, e');
    }
  }

  lemma {:induction false} KidAgree(es: seq<Elem>, es': seq<Elem>, x: nat, a: nat, n: nat)
    requires AgreeBut(es, es', x) && n != x
    ensures HasKid(es, a, n) <==> HasKid(es', a, n)
  {
    HasKidIff(es, a, n);
    HasKidIff(es', a, n);
    HangsAgree(es, es', x, a, n);
  }

  lemma {:induction false} KidsAgree(es: seq<Elem>, es': seq<Elem>, x: nat, a: nat)
    requires AgreeBut(es, es', x)
    ensures Strip(Kids(es, a), x) == Strip(Kids(es', a), x)
  {
    var s, t := Strip(Kids(es, a), x), Strip(Kids(es', a), x);
    KidsRising(es, a);
    KidsRising(es', a);
    StripAscends(Kids(es, a), x);
    StripAscends(Kids(es', a), x);
    forall n ensures n in s <==> n in t {
      StripIff(Kids(es, a), x, n);
      StripIff(Kids(es', a), x, n);
      if n != x { KidAgree(es, es', x, a, n); }
    }
    S.AscendingUnique(s, t);
  }

  /** Nothing lies below x. */
  lemma {:induction false} BelowNew(es: seq<Elem>, es': seq<Elem>, x: nat)
    requires AgreeBut(es, es', x) && x != HEAD && Reachable(es', x)
    ensures Below(es', x) == []
  {
    forall e | e in es' ensures Anchor(Present(es'), e) != x { ElemPlaced(es', e); }
    KidsIff(es', x);
    if Kids(es', x) != [] { FirstIn(Kids(es', x)); }
  }

  lemma {:induction false} FirstIn(s: seq<Item>)
    requires s != []
    ensures s[0] in s
  {}

  lemma {:induction false} KidsOf(es: seq<Elem>, kids: seq<Item>, id: nat, i: Item)
    requires Wf(es) && HangOn(es, id, kids) && i in kids
    ensures i.eid != HEAD && exists left :: Placed(es, i.eid, left)
  {
    KidsIff(es, id);
    var e :| e in es && Anchor(Present(es), e) == id && i == Item(e.eid, e.live);
    ElemPlaced(es, e);
  }

  lemma {:induction false} BelowAgree(es: seq<Elem>, es': seq<Elem>, x: nat, id: nat)
    requires AgreeBut(es, es', x) && Reachable(es, id) && Reachable(es', id)
    ensures Strip(Below(es, id), x) == Strip(Below(es', id), x)
    decreases Height(es', id), 1, 0
  {
    KidsUnder(es, id);
    KidsUnder(es', id);
    KidsAgree(es, es', x, id);
    ListAgree(es, es', x, id, Kids(es, id), Kids(es', id));
  }

  lemma {:induction false} ListAgree(es: seq<Elem>, es': seq<Elem>, x: nat, id: nat, kids: seq<Item>, kids': seq<Item>)
    requires AgreeBut(es, es', x) && HangOn(es, id, kids) && HangOn(es', id, kids')
    requires Strip(kids, x) == Strip(kids', x)
    ensures Strip(BelowList(es, id, kids), x) == Strip(BelowList(es', id, kids'), x)
    decreases Height(es', id), 0, |kids'|
  {
    if kids' == [] {
      NoneLeft(es, es', x, id, kids);
    } else {
      var front', last' := kids'[..|kids'| - 1], kids'[|kids'| - 1];
      KidsOf(es', kids', id, last');
      StripConcat(Block(es', last'), BelowList(es', id, front'), x);
      if last'.eid == x {
        ListAgree(es, es', x, id, kids, front');
        BelowNew(es, es', x);
        assert Block(es', last') == [last'];
      } else {
        LastAgrees(es, es', x, id, kids, kids');
        var front, last := kids[..|kids| - 1], kids[|kids| - 1];
        ListAgree(es, es', x, id, front, front');
        BelowAgree(es, es', x, last.eid);
        StripConcat(Block(es, last), BelowList(es, id, front), x);
        StripConcat([last], Below(es, last.eid), x);
        StripConcat([last'], Below(es', last.eid), x);
      }
    }
  }

  lemma {:induction false} NoneLeft(es: seq<Elem>, es': seq<Elem>, x: nat, id: nat, kids: seq<Item>)
    requires AgreeBut(es, es', x) && HangOn(es, id, kids) && Strip(kids, x) == []
    ensures kids == []
  {
    if kids != [] {
      KidsOf(es, kids, id, kids[|kids| - 1]);
      StripIff(kids, x, kids[|kids| - 1].eid);
    }
  }

  lemma {:induction false} LastAgrees(es: seq<Elem>, es': seq<Elem>, x: nat, id: nat, kids: seq<Item>, kids': seq<Item>)
    requires AgreeBut(es, es', x) && HangOn(es, id, kids) && kids' != [] && kids'[|kids'| - 1].eid != x
    requires Strip(kids, x) == Strip(kids', x)
    ensures kids != [] && kids[|kids| - 1].eid == kids'[|kids'| - 1].eid
    ensures Strip(kids[..|kids| - 1], x) == Strip(kids'[..|kids'| - 1], x)
  {
    var s := Strip(kids', x);
    assert s[|s| - 1] == kids'[|kids'| - 1].eid && s[..|s| - 1] == Strip(kids'[..|kids'| - 1], x);
    assert kids != [];
    KidsOf(es, kids, id, kids[|kids| - 1]);
  }

  /** Arrays that agree but for x list all other elements in the same order. */
  lemma {:induction false} OrderAgrees(es: seq<Elem>, es': seq<Elem>, x: nat)
    requires AgreeBut(es, es', x)
    ensures Strip(Order(es), x) == Strip(Order(es'), x)
  {
    HeadReachable(es);
    HeadReachable(es');
    BelowAgree(es, es', x, HEAD);
  }

  function Ids(s: seq<Item>): seq<nat> {
    if s == [] then [] else Ids(s[..|s| - 1]) + [s[|s| - 1].eid]
  }

  lemma {:induction false} IdsAt(s: seq<Item>)
    ensures |Ids(s)| == |s| && forall i :: 0 <= i < |s| ==> Ids(s)[i] == s[i].eid
  {
    if s != [] { IdsAt(s[..|s| - 1]); }
  }

  lemma {:induction false} StripNothing(s: seq<Item>, x: nat)
    requires forall i :: i in s ==> i.eid != x
    ensures Strip(s, x) == Ids(s)
  {
    if s != [] { StripNothing(s[..|s| - 1], x); }
  }

  lemma {:induction false} OrderAvoids(es: seq<Elem>, x: nat)
    requires Wf(es) && forall left :: !Placed(es, x, left)
    ensures Strip(Order(es), x) == Ids(Order(es))
  {
    OrderLists(es);
    forall i | i in Order(es) ensures i.eid != x {
      var e :| e in es && i == Item(e.eid, e.live);
      ElemPlaced(es, e);
    }
    StripNothing(Order(es), x);
  }

  lemma {:induction false} NoHead(es: seq<Elem>)
    requires Wf(es)
    ensures forall left :: !Placed(es, HEAD, left)
  {}

  /** The order of ids depends on ids and anchors only: not on how elements are listed, nor on which are live. */
  lemma {:induction false} OrderIgnoresListing(es: seq<Elem>, es': seq<Elem>)
    requires Wf(es) && Wf(es') && forall id, left :: Placed(es, id, left) <==> Placed(es', id, left)
    ensures Ids(Order(es)) == Ids(Order(es'))
  {
    OrderAgrees(es, es', HEAD);
    NoHead(es);
    NoHead(es');
    OrderAvoids(es, HEAD);
    OrderAvoids(es', HEAD);
  }

  /** Any arrangement of the same elements has the same order. */
  lemma {:induction false} OrderIgnoresArrangement(es: seq<Elem>, es': seq<Elem>)
    requires Wf(es) && Wf(es') && forall e :: e in es <==> e in es'
    ensures Order(es) == Order(es')
  {
    OrderIgnoresListing(es, es');
    OrderLists(es);
    OrderLists(es');
    var s, t := Order(es), Order(es');
    IdsAt(s);
    IdsAt(t);
    forall i | 0 <= i < |s| ensures s[i] == t[i] {
      assert s[i] in s && t[i] in t && Ids(s)[i] == Ids(t)[i];
      var d :| d in es && s[i] == Item(d.eid, d.live);
      var e :| e in es' && t[i] == Item(e.eid, e.live);
      OneElem(es, d, e);
    }
  }

  /** Inserting an element on which nothing is anchored leaves all others in their order. */
  lemma {:induction false} InsertKeepsOrder(es: seq<Elem>, es': seq<Elem>, e: Elem)
    requires Wf(es) && Wf(es') && e !in es && forall d :: d in es' <==> d in es || d == e
    requires forall d :: d in es' ==> d.left != e.eid
    ensures Strip(Order(es'), e.eid) == Ids(Order(es))
  {
    var x := e.eid;
    forall left ensures !Placed(es, x, left) {
      if Placed(es, x, left) {
        var d :| d in es && d.eid == x && d.left == left;
        OneElem(es', d, e);
      }
    }
    assert AgreeBut(es, es', x) by {
      forall id, left | id != x ensures Placed(es, id, left) <==> Placed(es', id, left) {
        if Placed(es, id, left) { var d :| d in es && d.eid == id && d.left == left; assert d in es'; }
        if Placed(es', id, left) { var d :| d in es' && d.eid == id && d.left == left; assert d in es; }
      }
    }
    OrderAgrees(es, es', x);
    OrderAvoids(es, x);
  }
}
