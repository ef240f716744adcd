/**
 * The order of children in a plan of any selection: every accepted placement
 * follows its nearest anchor, and in a graph built from a target it follows the
 * nearest of its predecessors in the target that is there.
 */
module PlanOrder {
  import opened AnchorPlaces
  import opened Graphs
  import opened Options
  import opened Planner
  import opened PlanSpec
  import opened Structure
  import opened Trees
  import O = AnchorOrder
  import R = Replay
  import S = Sorting
  import U = Build

  /** The changes of a selection, in graph order. */
  function Accepted(g: Graph, accepted: set<ChangeId>): seq<Change> {
    Chosen(g.changes, accepted)
  }

  /** The child lists before anything is placed: survivors that are not placed. */
  ghost function Kept(a: Tree, g: Graph, accepted: set<ChangeId>): Children
    requires WellFormed(a) && Succeeds(a, g, accepted)
  {
    var l := Load(a, g.changes).value;
    var sel := Select(l, g, accepted);
    Retained(l.children, Survivors(sel.parents, sel.Blocked()) - MovedNodes(sel.chosen))
  }

  lemma {:induction false} KeptLists(a: Tree, g: Graph, accepted: set<ChangeId>)
    requires WellFormed(a) && Succeeds(a, g, accepted)
    ensures O.Lists(Kept(a, g, accepted), Accepted(g, accepted))
    ensures Outcome(a, g, accepted).children == PlaceAll(Kept(a, g, accepted), Accepted(g, accepted)).children
  {
    var l := Load(a, g.changes).value;
    var sel := Select(l, g, accepted);
    var keep := Survivors(sel.parents, sel.Blocked()) - MovedNodes(sel.chosen);
    PlacementsFresh(a, l, g, accepted, keep);
    forall p | p in l.children ensures S.Distinct(Retain(l.children[p], keep)) {
      RetainedLists(a, l, g, accepted, keep, p);
    }
  }

  lemma {:induction false} PlacementActive(a: Tree, g: Graph, accepted: set<ChangeId>, k: nat)
    requires WellFormed(a) && Succeeds(a, g, accepted) && k < |Accepted(g, accepted)|
    requires Accepted(g, accepted)[k].op.IsPlacement()
    ensures O.Active(Kept(a, g, accepted), Accepted(g, accepted), k)
  {
    var c := Accepted(g, accepted)[k];
    assert c in Accepted(g, accepted);
    ChosenFacts(a, Load(a, g.changes).value, g, accepted, c);
  }

  /** The children of the parent of placement k just before it is placed. */
  ghost function Then(a: Tree, g: Graph, accepted: set<ChangeId>, k: nat): seq<NodeRef>
    requires WellFormed(a) && Succeeds(a, g, accepted) && k < |Accepted(g, accepted)|
    requires Accepted(g, accepted)[k].op.IsPlacement()
  {
    PlacementActive(a, g, accepted, k);
    Moment(Kept(a, g, accepted), Accepted(g, accepted), k)
  }

  /** In the plan, placement k stands behind x, or at the front, with only placed nodes in between. */
  ghost predicate Ends(a: Tree, g: Graph, accepted: set<ChangeId>, k: nat, x: Option<NodeRef>)
    requires WellFormed(a) && Succeeds(a, g, accepted) && k < |Accepted(g, accepted)|
    requires Accepted(g, accepted)[k].op.IsPlacement()
  {
    var op, lists := Accepted(g, accepted)[k].op, Outcome(a, g, accepted).children;
    op.parent in lists && Behind(lists[op.parent], x, op.node, MovedNodes(Accepted(g, accepted)))
  }

  /**
   * Every accepted placement of every plan ends up by its nearest anchor, before
   * the children that stayed behind it.
   */
  lemma {:induction false} PlanFollowsAnchors(a: Tree, g: Graph, accepted: set<ChangeId>, k: nat, i: nat)
    requires WellFormed(a) && Succeeds(a, g, accepted) && k < |Accepted(g, accepted)|
    requires Accepted(g, accepted)[k].op.IsPlacement()
    ensures var after := Accepted(g, accepted)[k].op.after;
      && (Nearest(after, Then(a, g, accepted, k), i) ==> Ends(a, g, accepted, k, Some(after[i].node)))
      && (NoneNear(after, Then(a, g, accepted, k), i) ==> Ends(a, g, accepted, k, None))
  {
    var base, chosen := Kept(a, g, accepted), Accepted(g, accepted);
    KeptLists(a, g, accepted);
    PlacementActive(a, g, accepted, k);
    if Nearest(chosen[k].op.after, Then(a, g, accepted, k), i) { PlacedBehindNearest(base, chosen, k, i); }
    if NoneNear(chosen[k].op.after, Then(a, g, accepted, k), i) { PlacedFirst(base, chosen, k, i); }
  }

  // ----- graphs built from a target ----------------------------------------

  /** Accepted changes are changes of the graph, in its order. */
  lemma {:induction false} ChosenAt(changes: seq<Change>, accepted: set<ChangeId>, k: nat) returns (i: nat)
    requires k < |Chosen(changes, accepted)|
    ensures i < |changes| && changes[i] == Chosen(changes, accepted)[k]
  {
    var n := |changes| - 1;
    if k < |Chosen(changes[..n], accepted)| { i := ChosenAt(changes[..n], accepted, k); } else { i := n; }
  }

  lemma {:induction false} ChosenRises(changes: seq<Change>, accepted: set<ChangeId>, j: nat, k: nat)
      returns (i: nat, i': nat)
    requires j < k < |Chosen(changes, accepted)|
    ensures i < i' < |changes| && changes[i] == Chosen(changes, accepted)[j]
    ensures changes[i'] == Chosen(changes, accepted)[k]
  {
    var n := |changes| - 1;
    if k < |Chosen(changes[..n], accepted)| {
      i, i' := ChosenRises(changes[..n], accepted, j, k);
    } else {
      i := ChosenAt(changes[..n], accepted, j);
      i' := n;
    }
  }

  /** A placement of a built graph is that of one target node. */
  lemma {:induction false} TargetOf(s: R.Case, i: nat, y: nat)
    requires s.Ok() && i < |s.ops| && s.ops[i].IsPlacement() && y < |s.b| && s.ops[i].node == s.Ref(y)
    ensures U.IsPlacement(s.raws[i]) && s.raws[i].b == y && U.Placed(s.b, s.m, y, s.ops[i])
  {
    R.OpFacts(s, i);
    R.RefInjective(s, s.raws[i].b, y);
  }

  /** Accepted placements come in target order. */
  lemma {:induction false} InTargetOrder(s: R.Case, accepted: set<ChangeId>, j: nat, k: nat, y: nat, z: nat)
    requires s.Ok() && j < k < |Accepted(s.G(), accepted)| && y < |s.b| && z < |s.b|
    requires var ch := Accepted(s.G(), accepted);
      ch[j].op.IsPlacement() && ch[j].op.node == s.Ref(y) && ch[k].op.IsPlacement() && ch[k].op.node == s.Ref(z)
    ensures y <= z
  {
    var i, i' := ChosenRises(s.G().changes, accepted, j, k);
    TargetOf(s, i, y);
    TargetOf(s, i', z);
    assert U.KeyLe(s.raws[i], s.raws[i']);
  }

  lemma {:induction false} OnePosition(b: Tree, q: nat, pos: nat, pos': nat, y: nat)
    requires WellFormed(b) && U.IsChildAt(b, q, pos, y) && U.IsChildAt(b, q, pos', y)
    ensures pos == pos'
  {
    assert ChildrenOk(b, q);
  }

  /** The anchors of an accepted placement are its predecessors in the target, nearest first. */
  lemma {:induction false} AnchorsOf(s: R.Case, accepted: set<ChangeId>, k: nat, q: nat, pos: nat, y: nat)
    requires s.Ok() && k < |Accepted(s.G(), accepted)| && U.IsChildAt(s.b, q, pos, y) && y < |s.b|
    requires var op := Accepted(s.G(), accepted)[k].op; op.IsPlacement() && op.node == s.Ref(y)
    ensures var op := Accepted(s.G(), accepted)[k].op;
      U.SiblingsInRange(s.b, q) && op.parent == s.Ref(q) && op.after == U.After(s.m, s.b[q].children, pos)
  {
    var i := ChosenAt(s.G().changes, accepted, k);
    TargetOf(s, i, y);
    assert ChildrenOk(s.b, q);
    var pos' :| U.IsChildAt(s.b, q, pos', y) && s.ops[i].after == U.After(s.m, s.b[q].children, pos');
    OnePosition(s.b, q, pos, pos', y);
  }

  /** A predecessor in the target that is placed at all is placed before. */
  lemma {:induction false} PutBefore(s: R.Case, accepted: set<ChangeId>, k: nat, z: nat, y: nat, p: NodeRef)
    requires s.Ok() && k < |Accepted(s.G(), accepted)| && z < y < |s.b|
    requires var op := Accepted(s.G(), accepted)[k].op; op.IsPlacement() && op.node == s.Ref(y)
    ensures var ch := Accepted(s.G(), accepted);
      PutUnder(ch, s.Ref(z), p) <==> PutUnder(ch[..k], s.Ref(z), p)
  {
    var ch := Accepted(s.G(), accepted);
    if PutUnder(ch, s.Ref(z), p) {
      var c :| c in ch && c.op.IsPlacement() && c.op.node == s.Ref(z) && c.op.parent == p;
      var j :| 0 <= j < |ch| && ch[j] == c;
      if k < j { InTargetOrder(s, accepted, k, j, y, z); }
      if j == k { R.RefInjective(s, z, y); }
      assert ch[..k][j] == c;
    }
    if PutUnder(ch[..k], s.Ref(z), p) {
      var c :| c in ch[..k] && c.op.IsPlacement() && c.op.node == s.Ref(z) && c.op.parent == p;
      assert c in ch;
    }
  }

  /** A predecessor in the target is among the children in the end exactly when it was there before the placement. */
  lemma {:induction false} ThereBefore(s: R.Case, accepted: set<ChangeId>, k: nat, q: nat, z: nat, y: nat)
    requires s.Ok() && Succeeds(s.a, s.G(), accepted) && k < |Accepted(s.G(), accepted)|
    requires z < y < |s.b| && q < |s.b|
    requires var op := Accepted(s.G(), accepted)[k].op;
      op.IsPlacement() && op.node == s.Ref(y) && op.parent == s.Ref(q)
    ensures s.Ref(q) in Outcome(s.a, s.G(), accepted).children
    ensures s.Ref(z) in Outcome(s.a, s.G(), accepted).children[s.Ref(q)] <==> s.Ref(z) in Then(s.a, s.G(), accepted, k)
  {
    var base, ch := Kept(s.a, s.G(), accepted), Accepted(s.G(), accepted);
    KeptLists(s.a, s.G(), accepted);
    PlacementActive(s.a, s.G(), accepted, k);
    O.PrefixLists(base, ch, k);
    LayoutOk(base, ch);
    LayoutOk(base, ch[..k]);
    PutBefore(s, accepted, k, z, y, s.Ref(q));
  }

  // ----- the nearest predecessor -------------------------------------------

  /** Position c is the last before pos whose reference is in the list. */
  predicate Last(refs: seq<NodeRef>, list: seq<NodeRef>, pos: nat, c: nat) {
    c < pos <= |refs| && refs[c] in list && forall d :: c < d < pos ==> refs[d] !in list
  }

  predicate NoneOf(refs: seq<NodeRef>, list: seq<NodeRef>, pos: nat) {
    pos <= |refs| && forall d :: 0 <= d < pos ==> refs[d] !in list
  }

  /** The references before pos, nearest first, then the start. */
  predicate AnchorsFor(after: seq<Anchor>, refs: seq<NodeRef>, pos: nat) {
    && pos <= |refs| && |after| == pos + 1 && after[pos].Start?
    && forall i :: 0 <= i < pos ==> after[i] == At(refs[pos - 1 - i])
  }

  /** As far as the references before pos go, the lists agree. */
  predicate Agree(refs: seq<NodeRef>, list: seq<NodeRef>, list': seq<NodeRef>, pos: nat) {
    pos <= |refs| && forall d :: 0 <= d < pos ==> (refs[d] in list <==> refs[d] in list')
  }

  lemma {:induction false} LastIsNearest(after: seq<Anchor>, refs: seq<NodeRef>, list: seq<NodeRef>,
      list': seq<NodeRef>, pos: nat, c: nat)
    requires AnchorsFor(after, refs, pos) && Agree(refs, list, list', pos)
    ensures Last(refs, list', pos, c) ==> Nearest(after, list, pos - 1 - c) && after[pos - 1 - c] == At(refs[c])
    ensures NoneOf(refs, list', pos) ==> NoneNear(after, list, pos)
  {
    if Last(refs, list', pos, c) {
      forall i | 0 <= i < pos - 1 - c ensures after[i].At? && after[i].node !in list {
        assert refs[pos - 1 - i] !in list';
      }
    }
  }

  /** A placement anchored on references follows the nearest of them. */
  lemma {:induction false} FollowsNearest(base: Children, chosen: seq<Change>, k: nat, refs: seq<NodeRef>,
      list: seq<NodeRef>, pos: nat, c: nat)
    requires O.Lists(base, chosen) && O.Active(base, chosen, k) && AnchorsFor(chosen[k].op.after, refs, pos)
    requires Agree(refs, Moment(base, chosen, k), list, pos)
    ensures var p, lists := chosen[k].op.parent, PlaceAll(base, chosen).children;
      && p in lists
      && (Last(refs, list, pos, c) ==> Behind(lists[p], Some(refs[c]), chosen[k].op.node, MovedNodes(chosen)))
      && (NoneOf(refs, list, pos) ==> Behind(lists[p], None, chosen[k].op.node, MovedNodes(chosen)))
  {
    var after, now := chosen[k].op.after, Moment(base, chosen, k);
    LastIsNearest(after, refs, now, list, pos, c);
    if Last(refs, list, pos, c) { PlacedBehindNearest(base, chosen, k, pos - 1 - c); }
    if NoneOf(refs, list, pos) { PlacedFirst(base, chosen, k, pos); }
    LayoutOk(base, chosen);
  }

  /** How the graph names the children of a target node. */
  function TargetChildren(s: R.Case, q: nat): seq<NodeRef>
    requires |s.m.b2a| == |s.b| && U.SiblingsInRange(s.b, q)
  {
    seq(|s.b[q].children|, i requires 0 <= i < |s.b[q].children| => s.Ref(s.b[q].children[i]))
  }

  lemma {:induction false} AfterAnchors(s: R.Case, q: nat, pos: nat)
    requires |s.m.b2a| == |s.b| && U.SiblingsInRange(s.b, q) && pos < |s.b[q].children|
    ensures AnchorsFor(U.After(s.m, s.b[q].children, pos), TargetChildren(s, q), pos)
  {}

  /** The accepted placement k is that of the child of q at position pos. */
  predicate Places(s: R.Case, accepted: set<ChangeId>, k: nat, q: nat, pos: nat)
    requires WellFormed(s.a) && |s.m.b2a| == |s.b|
  {
    && U.SiblingsInRange(s.b, q) && pos < |s.b[q].children| && k < |Accepted(s.G(), accepted)|
    && var op := Accepted(s.G(), accepted)[k].op;
       op.IsPlacement() && op.node == TargetChildren(s, q)[pos]
  }

  lemma {:induction false} PlacesOp(s: R.Case, accepted: set<ChangeId>, k: nat, q: nat, pos: nat)
    requires s.Ok() && Places(s, accepted, k, q, pos)
    ensures var op := Accepted(s.G(), accepted)[k].op;
      op.parent == s.Ref(q) && AnchorsFor(op.after, TargetChildren(s, q), pos)
  {
    AnchorsOf(s, accepted, k, q, pos, s.b[q].children[pos]);
    AfterAnchors(s, q, pos);
  }

  /** The children of a target node in the plan. */
  ghost function Planned(s: R.Case, accepted: set<ChangeId>, q: nat): seq<NodeRef>
    requires s.Ok() && Succeeds(s.a, s.G(), accepted) && q < |s.b|
  {
    var lists := Outcome(s.a, s.G(), accepted).children;
    if s.Ref(q) in lists then lists[s.Ref(q)] else []
  }

  lemma {:induction false} PlacesAgree(s: R.Case, accepted: set<ChangeId>, k: nat, q: nat, pos: nat)
    requires s.Ok() && Succeeds(s.a, s.G(), accepted) && Places(s, accepted, k, q, pos)
    ensures Agree(TargetChildren(s, q), Then(s.a, s.G(), accepted, k), Planned(s, accepted, q), pos)
  {
    var sib := s.b[q].children;
    PlacesOp(s, accepted, k, q, pos);
    forall d | 0 <= d < pos
      ensures TargetChildren(s, q)[d] in Then(s.a, s.G(), accepted, k) <==>
              TargetChildren(s, q)[d] in Planned(s, accepted, q)
    {
      Ascends(s.b, q, d, pos);
      ThereBefore(s, accepted, k, q, sib[d], sib[pos]);
    }
  }

  lemma {:induction false} Ascends(b: Tree, q: nat, d: nat, pos: nat)
    requires WellFormed(b) && q < |b| && d < pos < |b[q].children|
    ensures b[q].children[d] < b[q].children[pos] < |b|
  {
    assert ChildrenOk(b, q);
  }

  /**
   * Whatever of a built graph is accepted, a placed node stands behind the
   * nearest of its predecessors in the target that is there, and before every
   * child that stayed behind that one; with none there, it stands before every
   * child that stayed.
   */
  lemma {:induction false} FollowsTarget(s: R.Case, accepted: set<ChangeId>, k: nat, q: nat, pos: nat, c: nat)
    requires s.Ok() && Succeeds(s.a, s.G(), accepted) && Places(s, accepted, k, q, pos)
    ensures Last(TargetChildren(s, q), Planned(s, accepted, q), pos, c) ==>
      Ends(s.a, s.G(), accepted, k, Some(TargetChildren(s, q)[c]))
    ensures NoneOf(TargetChildren(s, q), Planned(s, accepted, q), pos) ==> Ends(s.a, s.G(), accepted, k, None)
  {
    PlacesOp(s, accepted, k, q, pos);
    PlacesAgree(s, accepted, k, q, pos);
    KeptLists(s.a, s.G(), accepted);
    PlacementActive(s.a, s.G(), accepted, k);
    FollowsNearest(Kept(s.a, s.G(), accepted), Accepted(s.G(), accepted), k, TargetChildren(s, q),
      Planned(s, accepted, q), pos, c);
  }
}
