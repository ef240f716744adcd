/**
 * Where accepted placements end up: behind the nearest of their anchors that is
 * there when they are placed, before every child that stayed behind it.
 */
module AnchorPlaces {
  import opened AnchorOrder
  import opened Graphs
  import opened Options
  import opened PlanSpec
  import opened Structure
  import S = Sorting

  // ----- the nearest anchor ------------------------------------------------

  /** The first of the anchors that is in the list, with no start marker before it. */
  predicate Nearest(after: seq<Anchor>, list: seq<NodeRef>, i: nat) {
    && i < |after| && after[i].At? && after[i].node in list
    && forall k :: 0 <= k < i ==> after[k].At? && after[k].node !in list
  }

  /** None of the anchors before the start marker is in the list. */
  predicate NoneNear(after: seq<Anchor>, list: seq<NodeRef>, i: nat) {
    && i <= |after| && (i < |after| ==> after[i].Start?)
    && forall k :: 0 <= k < i ==> after[k].At? && after[k].node !in list
  }

  /** An accepted placement goes by its nearest anchor. */
  lemma {:induction false} ResolvesNearest(after: seq<Anchor>, list: seq<NodeRef>, i: nat)
    requires Nearest(after, list, i)
    ensures Resolve(after, list) == Some(after[i].node)
  {
    if i > 0 {
      assert after[0].At? && after[0].node !in list;
      ResolvesNearest(after[1..], list, i - 1);
    }
  }

  lemma {:induction false} ResolvesNone(after: seq<Anchor>, list: seq<NodeRef>, i: nat)
    requires NoneNear(after, list, i)
    ensures Resolve(after, list) == None
  {
    if i > 0 {
      assert after[0].At? && after[0].node !in list;
      ResolvesNone(after[1..], list, i - 1);
    }
  }

  // ----- between an anchor and what is placed on it ------------------------

  /** n stands behind x, or at the front, with only nodes of `placed` in between. */
  ghost predicate Behind(list: seq<NodeRef>, x: Option<NodeRef>, n: NodeRef, placed: set<NodeRef>) {
    && n in list && (x.Some? ==> Before(list, x.value, n))
    && forall z :: Before(list, z, n) && (x.Some? ==> Before(list, x.value, z)) ==> z in placed
  }

  /** The place where a node goes. */
  function Slot(list: seq<NodeRef>, r: Option<NodeRef>): (i: nat)
    requires r.Some? ==> r.value in list
    ensures i <= |list|
  {
    match r case None => 0 case Some(x) => IndexOf(list, x) + 1
  }

  lemma {:induction false} InsertReflects(list: seq<NodeRef>, r: Option<NodeRef>, n: NodeRef, x: NodeRef, y: NodeRef)
    requires (r.Some? ==> r.value in list) && x != n && y != n && Before(InsertAfter(list, r, n), x, y)
    ensures Before(list, x, y)
  {
    var at, out := Slot(list, r), InsertAfter(list, r, n);
    var i, j :| 0 <= i < j < |out| && out[i] == x && out[j] == y;
    assert out[at] == n;
    var i', j' := if i < at then i else i - 1, if j < at then j else j - 1;
    assert list[i'] == x && list[j'] == y;
  }

  /** Further placements only add placed nodes in between. */
  lemma {:induction false} BehindStays(list: seq<NodeRef>, r: Option<NodeRef>, m: NodeRef, x: Option<NodeRef>,
      n: NodeRef, placed: set<NodeRef>)
    requires (r.Some? ==> r.value in list) && Behind(list, x, n, placed) && m in placed && m !in list
    ensures Behind(InsertAfter(list, r, m), x, n, placed)
  {
    var out := InsertAfter(list, r, m);
    PlacedIsIn(list, r, m);
    if x.Some? { InsertKeeps(list, r, m, x.value, n); }
    forall z | Before(out, z, n) && (x.Some? ==> Before(out, x.value, z)) ensures z in placed {
      if z != m {
        InsertReflects(list, r, m, z, n);
        if x.Some? { InsertReflects(list, r, m, x.value, z); }
      }
    }
  }

  lemma {:induction false} BeforeIndex(list: seq<NodeRef>, x: NodeRef, k: nat)
    requires S.Distinct(list) && k < |list| && Before(list, x, list[k])
    ensures exists i :: 0 <= i < k && list[i] == x
  {}

  /** Nothing stands between neighbours, or before the first. */
  lemma {:induction false} NoneBetween(list: seq<NodeRef>, k: nat, z: NodeRef)
    requires S.Distinct(list) && k < |list|
    ensures !(Before(list, z, list[k]) && (k > 0 ==> Before(list, list[k - 1], z)))
  {}

  lemma {:induction false} InsertDistinct(list: seq<NodeRef>, r: Option<NodeRef>, n: NodeRef)
    requires (r.Some? ==> r.value in list) && S.Distinct(list) && n !in list
    ensures S.Distinct(InsertAfter(list, r, n)) && InsertAfter(list, r, n)[Slot(list, r)] == n
  {
    var at := Slot(list, r);
    assert forall i :: 0 <= i < at ==> list[..at][i] == list[i];
  }

  /** Directly behind its anchor, or at the front, nothing is in between. */
  lemma {:induction false} BehindAnchor(list: seq<NodeRef>, x: Option<NodeRef>, m: NodeRef, placed: set<NodeRef>)
    requires (x.Some? ==> x.value in list) && S.Distinct(list) && m !in list
    ensures Behind(InsertAfter(list, x, m), x, m, placed)
  {
    var at, out := Slot(list, x), InsertAfter(list, x, m);
    InsertDistinct(list, x, m);
    PlacedIsIn(list, x, m);
    if x.Some? {
      InsertBehind(list, x.value, m, x.value);
      assert out[at - 1] == x.value;
    }
    forall z ensures !(Before(out, z, m) && (x.Some? ==> Before(out, x.value, z))) { NoneBetween(out, at, z); }
  }

  /** What comes before a node that was put directly behind another. */
  lemma {:induction false} BeforeNew(list: seq<NodeRef>, t: NodeRef, m: NodeRef, z: NodeRef)
    requires t in list && S.Distinct(list) && m !in list && Before(InsertAfter(list, Some(t), m), z, m)
    ensures z == t || Before(list, z, t)
  {
    var at, out := Slot(list, Some(t)), InsertAfter(list, Some(t), m);
    InsertDistinct(list, Some(t), m);
    BeforeIndex(out, z, at);
    var i :| 0 <= i < at && out[i] == z;
    assert list[i] == z && list[at - 1] == t;
  }

  /** Behind the last node placed on the same anchor, only placed nodes are in between. */
  lemma {:induction false} BehindTail(list: seq<NodeRef>, x: Option<NodeRef>, t: NodeRef, m: NodeRef,
      placed: set<NodeRef>)
    requires S.Distinct(list) && m !in list && t in placed && Behind(list, x, t, placed)
    ensures Behind(InsertAfter(list, Some(t), m), x, m, placed)
  {
    var out := InsertAfter(list, Some(t), m);
    PlacedIsIn(list, Some(t), m);
    if x.Some? { InsertBehind(list, t, m, x.value); }
    forall z | Before(out, z, m) && (x.Some? ==> Before(out, x.value, z)) ensures z in placed {
      BeforeNew(list, t, m, z);
      if z != t && x.Some? { InsertReflects(list, Some(t), m, x.value, z); }
    }
  }

  // ----- all placements ----------------------------------------------------

  /** The last node placed on each anchor stands behind it. */
  ghost predicate TailsOk(s: Layout, placed: set<NodeRef>) {
    forall key :: key in s.tails ==>
      key.0 in s.children && s.tails[key] in placed && Behind(s.children[key.0], key.1, s.tails[key], placed)
  }

  lemma {:induction false} NewTail(list: seq<NodeRef>, tails: map<Key, NodeRef>, key: Key, m: NodeRef,
      placed: set<NodeRef>)
    requires (key.1.Some? ==> key.1.value in list) && S.Distinct(list) && m !in list
    requires key in tails ==> tails[key] in placed && Behind(list, key.1, tails[key], placed)
    ensures Behind(InsertAfter(list, Effective(list, tails, key), m), key.1, m, placed)
  {
    if key in tails { BehindTail(list, key.1, tails[key], m, placed); } else { BehindAnchor(list, key.1, m, placed); }
  }

  lemma {:induction false} TailsStep(s: Layout, op: Op, placed: set<NodeRef>)
    requires TailsOk(s, placed) && op.IsPlacement() && op.parent in s.children && op.node in placed
    requires S.Distinct(s.children[op.parent]) && op.node !in s.children[op.parent]
    ensures TailsOk(PlaceOne(s, op), placed)
  {
    var list, t := s.children[op.parent], PlaceOne(s, op);
    var own := (op.parent, Resolve(op.after, list));
    forall key | key in t.tails
      ensures key.0 in t.children && t.tails[key] in placed && Behind(t.children[key.0], key.1, t.tails[key], placed)
    {
      if key == own {
        NewTail(list, s.tails, own, op.node, placed);
      } else if key.0 == op.parent {
        BehindStays(list, Effective(list, s.tails, own), op.node, key.1, s.tails[key], placed);
      }
    }
  }

  lemma {:induction false} FreshAt(children: Children, chosen: seq<Change>, k: nat)
    requires Lists(children, chosen) && Active(children, chosen, k)
    ensures var s := PlaceAll(children, chosen[..k]); var op := chosen[k].op;
      && op.parent in s.children && S.Distinct(s.children[op.parent])
      && op.node !in s.children[op.parent] && op.node in MovedNodes(chosen)
    ensures PlaceAll(children, chosen[..k + 1]) == PlaceOne(PlaceAll(children, chosen[..k]), chosen[k].op)
  {
    var op := chosen[k].op;
    PrefixLists(children, chosen, k);
    PrefixLists(children, chosen, k + 1);
    LayoutOk(children, chosen[..k]);
    assert chosen[..k + 1] == chosen[..k] + [chosen[k]] && chosen[k] in chosen;
    NotPutYet(children, chosen[..k], chosen[k], op.parent);
    assert chosen[..k + 1][..k] == chosen[..k];
  }

  /** A change that is no placement, or names no known parent, places nothing. */
  lemma {:induction false} Idle(children: Children, chosen: seq<Change>, k: nat)
    requires Lists(children, chosen) && k < |chosen| && !Active(children, chosen, k)
    ensures PlaceAll(children, chosen[..k + 1]) == PlaceAll(children, chosen[..k])
  {
    PrefixLists(children, chosen, k);
    assert chosen[..k + 1][..k] == chosen[..k];
  }

  lemma {:induction false} TailsAt(children: Children, chosen: seq<Change>, k: nat)
    requires Lists(children, chosen) && k <= |chosen|
    ensures TailsOk(PlaceAll(children, chosen[..k]), MovedNodes(chosen))
  {
    if k > 0 {
      TailsAt(children, chosen, k - 1);
      if Active(children, chosen, k - 1) {
        FreshAt(children, chosen, k - 1);
        TailsStep(PlaceAll(children, chosen[..k - 1]), chosen[k - 1].op, MovedNodes(chosen));
      } else {
        Idle(children, chosen, k - 1);
      }
    }
  }

  /** After k changes, placement j stands behind its anchor. */
  ghost predicate Stands(children: Children, chosen: seq<Change>, k: nat, j: nat)
    requires Active(children, chosen, j) && k <= |chosen|
  {
    var op, lists := chosen[j].op, PlaceAll(children, chosen[..k]).children;
    op.parent in lists && Behind(lists[op.parent], KeyUsed(children, chosen, j).1, op.node, MovedNodes(chosen))
  }

  lemma {:induction false} StandsFirst(children: Children, chosen: seq<Change>, j: nat)
    requires Lists(children, chosen) && Active(children, chosen, j)
    ensures Stands(children, chosen, j + 1, j)
  {
    TailsAt(children, chosen, j + 1);
    FreshAt(children, chosen, j);
    var t := PlaceAll(children, chosen[..j + 1]);
    assert KeyUsed(children, chosen, j) in t.tails && t.tails[KeyUsed(children, chosen, j)] == chosen[j].op.node;
  }

  lemma {:induction false} StandsNext(children: Children, chosen: seq<Change>, k: nat, j: nat)
    requires Lists(children, chosen) && Active(children, chosen, j) && j < k < |chosen|
    requires Stands(children, chosen, k, j)
    ensures Stands(children, chosen, k + 1, j)
  {
    if Active(children, chosen, k) {
      FreshAt(children, chosen, k);
      var s, op := PlaceAll(children, chosen[..k]), chosen[k].op;
      if op.parent == chosen[j].op.parent {
        var list := s.children[op.parent];
        var key := (op.parent, Resolve(op.after, list));
        BehindStays(list, Effective(list, s.tails, key), op.node, KeyUsed(children, chosen, j).1, chosen[j].op.node,
          MovedNodes(chosen));
      }
    } else {
      Idle(children, chosen, k);
    }
  }

  lemma {:induction false} StandsAt(children: Children, chosen: seq<Change>, k: nat, j: nat)
    requires Lists(children, chosen) && Active(children, chosen, j) && j < k <= |chosen|
    ensures Stands(children, chosen, k, j)
  {
    if k == j + 1 {
      StandsFirst(children, chosen, j);
    } else {
      StandsAt(children, chosen, k - 1, j);
      StandsNext(children, chosen, k - 1, j);
    }
  }

  // ----- the final lists ---------------------------------------------------

  /** The children of the placement's parent at the moment it is placed. */
  function Moment(children: Children, chosen: seq<Change>, k: nat): seq<NodeRef>
    requires Active(children, chosen, k)
  {
    var lists := PlaceAll(children, chosen[..k]).children;
    if chosen[k].op.parent in lists then lists[chosen[k].op.parent] else []
  }

  /** In the end a placement stands behind its nearest anchor, and no child that was not placed is in between. */
  lemma {:induction false} PlacedBehindNearest(children: Children, chosen: seq<Change>, k: nat, i: nat)
    requires Lists(children, chosen) && Active(children, chosen, k)
    requires Nearest(chosen[k].op.after, Moment(children, chosen, k), i)
    ensures var op, lists := chosen[k].op, PlaceAll(children, chosen).children;
      op.parent in lists && Behind(lists[op.parent], Some(op.after[i].node), op.node, MovedNodes(chosen))
  {
    PrefixLists(children, chosen, k);
    ResolvesNearest(chosen[k].op.after, Moment(children, chosen, k), i);
    StandsAt(children, chosen, |chosen|, k);
    assert chosen[..|chosen|] == chosen;
  }

  /** Without such an anchor it stands before every child that was not placed. */
  lemma {:induction false} PlacedFirst(children: Children, chosen: seq<Change>, k: nat, i: nat)
    requires Lists(children, chosen) && Active(children, chosen, k)
    requires NoneNear(chosen[k].op.after, Moment(children, chosen, k), i)
    ensures var op, lists := chosen[k].op, PlaceAll(children, chosen).children;
      op.parent in lists && Behind(lists[op.parent], None, op.node, MovedNodes(chosen))
  {
    PrefixLists(children, chosen, k);
    ResolvesNone(chosen[k].op.after, Moment(children, chosen, k), i);
    StandsAt(children, chosen, |chosen|, k);
    assert chosen[..|chosen|] == chosen;
  }
}
