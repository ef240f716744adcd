/** In every plan that succeeds, each accepted change takes effect. */
module PlanEffect {
  import opened Emission
  import opened Graphs
  import opened Model
  import opened Options
  import opened Planner
  import opened PlanOrder
  import opened PlanSpec
  import opened Structure
  import opened Trees
  import K = Compose

  /** No accepted delete leaves its node. */
  lemma {:induction false} DeletesTakeEffect(a: Tree, g: Graph, accepted: set<ChangeId>, c: Change)
    requires WellFormed(a) && Succeeds(a, g, accepted) && c in Accepted(g, accepted) && c.op.Delete?
    ensures c.op.node !in Order(Outcome(a, g, accepted), ROOT)
  {
    PlanIsTree(a, g, accepted);
    DeletedOk(Accepted(g, accepted), c.op.node);
    var st := Outcome(a, g, accepted);
    assert c.op.node in st.blocked;
  }

  lemma {:induction false} DeadShows(sel: Selection, c: Change)
    requires Closed(sel.parents) && sel.NodesKnown() && c in sel.chosen && !c.op.Delete?
    requires c.op.node !in Survivors(sel.parents, sel.Blocked())
    ensures sel.DeadGroup(c) in sel.Groups()
  {
    assert sel.DeadGroup(c) in sel.DeadTargets();
  }

  lemma {:induction false} NoDeadTarget(sel: Selection, c: Change)
    requires Closed(sel.parents) && sel.NodesKnown() && sel.Groups() == {} && c in sel.chosen && !c.op.Delete?
    ensures c.op.node in Survivors(sel.parents, sel.Blocked())
  {
    if c.op.node !in Survivors(sel.parents, sel.Blocked()) { DeadShows(sel, c); }
  }

  lemma {:induction false} TargetsSurvive(a: Tree, g: Graph, accepted: set<ChangeId>, c: Change)
    requires WellFormed(a) && Succeeds(a, g, accepted) && c in Accepted(g, accepted) && !c.op.Delete?
    ensures c.op.node in Order(Outcome(a, g, accepted), ROOT)
  {
    var l := Load(a, g.changes).value;
    var sel := Select(l, g, accepted);
    PlanIsTree(a, g, accepted);
    SelectionOk(a, l, g, accepted);
    NoDeadTarget(sel, c);
  }

  /** Every accepted placement puts its node among the children of the parent it names. */
  lemma {:induction false} PlacementsTakeEffect(a: Tree, g: Graph, accepted: set<ChangeId>, c: Change)
    requires WellFormed(a) && Succeeds(a, g, accepted) && c in Accepted(g, accepted) && c.op.IsPlacement()
    ensures var st := Outcome(a, g, accepted);
      && c.op.node in Order(st, ROOT) && st.parents[c.op.node] == Some(c.op.parent)
      && c.op.parent in st.children && c.op.node in st.children[c.op.parent]
  {
    var ch := Accepted(g, accepted);
    TargetsSurvive(a, g, accepted, c);
    PlacedParent(a, Load(a, g.changes).value, g, accepted, c);
    KeptLists(a, g, accepted);
    LayoutOk(Kept(a, g, accepted), ch);
    var k :| 0 <= k < |ch| && ch[k] == c;
    PlacementActive(a, g, accepted, k);
    assert PutUnder(ch, c.op.node, c.op.parent);
  }

  /** Every accepted change of content is part of what the node shows. */
  lemma {:induction false} PayloadsTakeEffect(a: Tree, g: Graph, accepted: set<ChangeId>, c: Change)
    requires WellFormed(a) && Succeeds(a, g, accepted) && c in Accepted(g, accepted) && c.op.IsPayload()
    ensures var st, l := Outcome(a, g, accepted), Load(a, g.changes).value;
      && c.op.node in Order(st, ROOT) && c.op in PayloadOps(Accepted(g, accepted), c.op.node)
      && c.op.node in l.shells && c.op.node in st.shells
      && K.Composed(l.shells[c.op.node], PayloadOps(Accepted(g, accepted), c.op.node)) == K.Ok(st.shells[c.op.node])
  {
    var l := Load(a, g.changes).value;
    TargetsSurvive(a, g, accepted, c);
    PayloadHas(Accepted(g, accepted), c);
    ChosenFacts(a, l, g, accepted, c);
  }

  lemma {:induction false} PayloadHas(chosen: seq<Change>, c: Change)
    requires c in chosen && c.op.IsPayload()
    ensures c.op in PayloadOps(chosen, c.op.node)
  {
    var front, last := chosen[..|chosen| - 1], chosen[|chosen| - 1];
    assert chosen == front + [last];
    if c != last { PayloadHas(front, c); }
  }

  /** No group of conflicting changes is accepted whole, and nothing is accepted that the graph does not propose. */
  lemma {:induction false} ConflictsHonoured(a: Tree, g: Graph, accepted: set<ChangeId>)
    requires WellFormed(a) && Succeeds(a, g, accepted)
    ensures forall i :: 0 <= i < |g.explicitConflicts| ==>
      exists id :: id in g.explicitConflicts[i] && id !in accepted
    ensures forall id :: id in accepted ==> exists j :: 0 <= j < |g.changes| && g.changes[j].id == id
  {
    var l := Load(a, g.changes).value;
    var sel := Select(l, g, accepted);
    LoadOk(a, g.changes);
    forall i | 0 <= i < |g.explicitConflicts| ensures exists id :: id in g.explicitConflicts[i] && id !in accepted {
      NotAllAccepted(sel, g.explicitConflicts[i]);
    }
  }

  lemma {:induction false} WholeGroupShows(sel: Selection, group: seq<ChangeId>)
    requires Closed(sel.parents) && sel.NodesKnown() && group in sel.conflicts && Elements(group) <= sel.accepted
    ensures Elements(group) in sel.Groups()
  {
    assert Elements(group) in sel.Conflicting();
  }

  lemma {:induction false} NotAllAccepted(sel: Selection, group: seq<ChangeId>)
    requires Closed(sel.parents) && sel.NodesKnown() && sel.Groups() == {} && group in sel.conflicts
    ensures exists id :: id in group && id !in sel.accepted
  {
    if Elements(group) <= sel.accepted { WholeGroupShows(sel, group); }
  }
}
