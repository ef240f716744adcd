/** Placements that resolve to the same anchor keep their graph order. */
module AnchorOrder {
  import opened Options
  import opened Graphs
  import opened PlanSpec
  import opened Structure
  import S = Sorting

  ghost predicate Before(list: seq<NodeRef>, x: NodeRef, y: NodeRef) {
    exists i, j :: 0 <= i < j < |list| && list[i] == x && list[j] == y
  }

  lemma {:induction false} InsertKeeps(list: seq<NodeRef>, r: Option<NodeRef>, n: NodeRef, x: NodeRef, y: NodeRef)
    requires (r.Some? ==> r.value in list) && Before(list, x, y)
    ensures Before(InsertAfter(list, r, n), x, y)
  {
    var at := match r case None => 0 case Some(z) => IndexOf(list, z) + 1;
    var out := InsertAfter(list, r, n);
    var i, j :| 0 <= i < j < |list| && list[i] == x && list[j] == y;
    var i', j' := if i < at then i else i + 1, if j < at then j else j + 1;
    assert out[i'] == x && out[j'] == y;
  }

  lemma {:induction false} InsertBehind(list: seq<NodeRef>, z: NodeRef, n: NodeRef, x: NodeRef)
    requires z in list && S.Distinct(list) && (x == z || Before(list, x, z))
    ensures Before(InsertAfter(list, Some(z), n), x, n)
  {
    var at := IndexOf(list, z) + 1;
    var out := InsertAfter(list, Some(z), n);
    assert out[at] == n;
    if x == z {
      assert out[at - 1] == x;
    } else {
      var i, j :| 0 <= i < j < |list| && list[i] == x && list[j] == z;
      assert j == at - 1 && out[i] == x;
    }
  }

  /** Placement i takes effect: it names a known parent. */
  predicate Active(children: Children, chosen: seq<Change>, i: nat) {
    i < |chosen| && chosen[i].op.IsPlacement() && chosen[i].op.parent in children
  }

  /** Parent and resolved anchor of placement i, at the moment it is placed. */
  function KeyUsed(children: Children, chosen: seq<Change>, i: nat): Key
    requires Active(children, chosen, i)
  {
    var op := chosen[i].op;
    var lists := PlaceAll(children, chosen[..i]).children;
    (op.parent, if op.parent in lists then Resolve(op.after, lists[op.parent]) else None)
  }

  /** After k placements: i is at or before the last node placed under its key. */
  ghost predicate Tracked(children: Children, chosen: seq<Change>, k: nat, i: nat)
    requires Active(children, chosen, i) && k <= |chosen|
  {
    var s := PlaceAll(children, chosen[..k]);
    var key := KeyUsed(children, chosen, i);
    && key in s.tails && chosen[i].op.parent in s.children && s.tails[key] in s.children[chosen[i].op.parent]
    && (chosen[i].op.node == s.tails[key] || Before(s.children[chosen[i].op.parent], chosen[i].op.node, s.tails[key]))
  }

  ghost predicate InOrder(children: Children, chosen: seq<Change>, k: nat, i: nat, j: nat)
    requires Active(children, chosen, i) && k <= |chosen|
  {
    var s := PlaceAll(children, chosen[..k]);
    && chosen[i].op.parent in s.children
    && Before(s.children[chosen[i].op.parent], chosen[i].op.node,
      if j < |chosen| then chosen[j].op.node else chosen[i].op.node)
  }

  ghost predicate Lists(children: Children, chosen: seq<Change>) {
    FreshPlacements(children, chosen) && forall p :: p in children ==> S.Distinct(children[p])
  }

  lemma {:induction false} PrefixLists(children: Children, chosen: seq<Change>, k: nat)
    requires Lists(children, chosen) && k <= |chosen|
    ensures Lists(children, chosen[..k])
    ensures PlaceAll(children, chosen[..k]).children.Keys == children.Keys
    ensures var ch := PlaceAll(children, chosen[..k]).children; forall p :: p in ch ==> S.Distinct(ch[p])
  {
    assert forall c :: c in chosen[..k] ==> c in chosen;
    LayoutOk(children, chosen[..k]);
  }

  /** One more placement: what was tracked stays tracked, and the new node joins. */
  lemma {:induction false} TrackStep(children: Children, chosen: seq<Change>, k: nat, i: nat)
    requires Lists(children, chosen) && i <= k < |chosen| && Active(children, chosen, i)
    requires i < k ==> Tracked(children, chosen, k, i)
    ensures Tracked(children, chosen, k + 1, i)
    ensures i < k && Active(children, chosen, k) && KeyUsed(children, chosen, i) == KeyUsed(children, chosen, k) ==>
      InOrder(children, chosen, k + 1, i, k)
  {
    PrefixLists(children, chosen, k);
    assert chosen[..k + 1][..k] == chosen[..k];
    var s := PlaceAll(children, chosen[..k]);
    var op := chosen[k].op;
    if Active(children, chosen, k) {
      var list := s.children[op.parent];
      var key := KeyUsed(children, chosen, k);
      var eff := Effective(list, s.tails, key);
      var out := InsertAfter(list, eff, op.node);
      assert PlaceAll(children, chosen[..k + 1]) == Layout(s.children[op.parent := out], s.tails[key := op.node]);
      PlacedIsIn(list, eff, op.node);
      if i < k {
        var x, own := chosen[i].op.node, KeyUsed(children, chosen, i);
        if own == key {
          assert eff == Some(s.tails[key]);
          InsertBehind(list, s.tails[key], op.node, x);
        } else if chosen[i].op.parent == op.parent {
          if x != s.tails[own] { InsertKeeps(list, eff, op.node, x, s.tails[own]); }
        }
      }
    }
  }

  lemma {:induction false} PlacedIsIn(list: seq<NodeRef>, r: Option<NodeRef>, n: NodeRef)
    requires r.Some? ==> r.value in list
    ensures n in InsertAfter(list, r, n) && forall x :: x in list ==> x in InsertAfter(list, r, n)
  {
    var i := match r case None => 0 case Some(x) => IndexOf(list, x) + 1;
    assert InsertAfter(list, r, n)[i] == n;
    assert list == list[..i] + list[i..];
  }

  lemma {:induction false} TrackedAt(children: Children, chosen: seq<Change>, k: nat, i: nat)
    requires Lists(children, chosen) && i < k <= |chosen| && Active(children, chosen, i)
    ensures Tracked(children, chosen, k, i)
  {
    if i < k - 1 { TrackedAt(children, chosen, k - 1, i); }
    TrackStep(children, chosen, k - 1, i);
  }

  lemma {:induction false} OrderKept(children: Children, chosen: seq<Change>, k: nat, i: nat, j: nat)
    requires Lists(children, chosen) && i < j < k <= |chosen| && Active(children, chosen, i) &&
      Active(children, chosen, j)
    requires KeyUsed(children, chosen, i) == KeyUsed(children, chosen, j)
    ensures InOrder(children, chosen, k, i, j)
  {
    if k == j + 1 {
      TrackedAt(children, chosen, j, i);
      TrackStep(children, chosen, j, i);
    } else {
      OrderKept(children, chosen, k - 1, i, j);
      PrefixLists(children, chosen, k - 1);
      assert chosen[..k][..k - 1] == chosen[..k - 1];
      var s := PlaceAll(children, chosen[..k - 1]);
      var op := chosen[k - 1].op;
      if op.IsPlacement() && op.parent in s.children && op.parent == chosen[i].op.parent {
        var list := s.children[op.parent];
        var key := (op.parent, Resolve(op.after, list));
        InsertKeeps(list, Effective(list, s.tails, key), op.node, chosen[i].op.node, chosen[j].op.node);
      }
    }
  }

  /** Two placements with the same parent and resolved anchor end up in graph order. */
  lemma {:induction false} SameAnchorKeepsOrder(children: Children, chosen: seq<Change>, i: nat, j: nat)
    requires Lists(children, chosen) && i < j < |chosen| && Active(children, chosen, i) && Active(children, chosen, j)
    requires KeyUsed(children, chosen, i) == KeyUsed(children, chosen, j)
    ensures var p := chosen[i].op.parent; var ch := PlaceAll(children, chosen).children;
            p == chosen[j].op.parent && p in ch && Before(ch[p], chosen[i].op.node, chosen[j].op.node)
  {
    assert chosen[..|chosen|] == chosen;
    OrderKept(children, chosen, |chosen|, i, j);
  }
}
