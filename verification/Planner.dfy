/** The planner: validate a selection of changes and rebuild the document. */
module Planner {
  import opened Options
  import opened Model
  import opened Trees
  import opened Graphs
  import opened PlanSpec
  import opened Emission
  import opened Structure
  import K = Compose
  import S = Sorting
  import Replay
  import Untouched
  import O = AnchorOrder
  import C = Classify
  import U = Build
  import T = TextDiff

  /** A plan: the resulting document and the order in which nodes were emitted. */
  datatype Plan = Ok(doc: Doc, order: seq<NodeRef>) | Err(error: PlanError)

  // ----- when planning succeeds --------------------------------------------

  /** The selection passes validation, resolves, composes and emits a legal document. */
  ghost predicate Succeeds(a: Tree, g: Graph, accepted: set<ChangeId>)
    requires WellFormed(a)
  {
    GraphOk(a, g, accepted) &&
    var l := Load(a, g.changes).value;
    Resolved(a, l, g, accepted) && ShellsCompose(l.shells, Select(l, g, accepted).chosen) &&
    (ResolvedIsTree(a, l, g, accepted); DocOk(Emit(FinalOf(l, g, accepted), ROOT)))
  }

  ghost function Outcome(a: Tree, g: Graph, accepted: set<ChangeId>): Final
    requires WellFormed(a) && Succeeds(a, g, accepted)
    ensures Outcome(a, g, accepted).Shaped() && Outcome(a, g, accepted).IsLive(ROOT)
  {
    var l := Load(a, g.changes).value;
    ResolvedIsTree(a, l, g, accepted);
    FinalOf(l, g, accepted)
  }

  // ----- loading and validation --------------------------------------------

  lemma {:induction false} LoadStops(a: Tree, changes: seq<Change>, i: nat)
    requires i <= |changes| && Load(a, changes[..i]).None?
    ensures Load(a, changes).None?
    decreases |changes| - i
  {
    if i == |changes| {
      assert changes[..i] == changes;
    } else {
      assert changes[..i + 1][..i] == changes[..i];
      LoadStops(a, changes, i + 1);
    }
  }

  method LoadAll(a: Tree, changes: seq<Change>) returns (r: Option<Loaded>)
    ensures r == Load(a, changes)
  {
    var l := LoadBase(a);
    for i := 0 to |changes|
      invariant Load(a, changes[..i]) == Some(l)
    {
      assert changes[..i + 1][..i] == changes[..i];
      var next := LoadOne(l, changes[i]);
      if next.None? {
        LoadStops(a, changes, i + 1);
        return None;
      }
      l := next.value;
    }
    assert changes[..|changes|] == changes;
    return Some(l);
  }

  /** The first problem with the graph or the selection. */
  method Validate(l: Loaded, g: Graph, accepted: set<ChangeId>) returns (r: Option<PlanError>)
    ensures r.None? <==>
      accepted <= l.ids &&
      (forall i :: 0 <= i < |g.changes| ==> ChangeOk(l, g.changes[i])) && ConflictsOk(l, g.explicitConflicts)
    ensures r.Some? ==> r.value.InvalidGraph? || r.value.UnknownChange? || r.value.InvalidReference?
  {
    var unknown := accepted - l.ids;
    if unknown != {} {
      var id :| id in unknown;
      return Some(UnknownChange(id));
    }
    assert accepted <= l.ids by {
      forall id | id in accepted ensures id in l.ids { assert id !in unknown; }
    }
    for i := 0 to |g.changes|
      invariant forall j :: 0 <= j < i ==> ChangeOk(l, g.changes[j])
    {
      var e := CheckChange(l, g.changes[i]);
      if e.Some? {
        assert !ChangeOk(l, g.changes[i]);
        return e;
      }
    }
    r := CheckConflicts(l, g.explicitConflicts);
  }

  method CheckConflicts(l: Loaded, conflicts: seq<seq<ChangeId>>) returns (r: Option<PlanError>)
    ensures r.None? <==> ConflictsOk(l, conflicts)
    ensures r.Some? ==> r.value.InvalidGraph? || r.value.UnknownChange?
  {
    for i := 0 to |conflicts|
      invariant forall k :: 0 <= k < i ==> |Elements(conflicts[k])| >= 2 && forall id :: id in conflicts[k] ==>
        id in l.ids
    {
      var group := conflicts[i];
      if |Elements(group)| < 2 {
        return Some(InvalidGraph);
      }
      for j := 0 to |group|
        invariant forall k :: 0 <= k < j ==> group[k] in l.ids
      {
        if group[j] !in l.ids {
          assert group[j] in conflicts[i];
          return Some(UnknownChange(group[j]));
        }
      }
    }
    return None;
  }

  // ----- selecting ---------------------------------------------------------

  method SelectAll(l: Loaded, g: Graph, accepted: set<ChangeId>) returns (sel: Selection)
    ensures sel == Select(l, g, accepted)
  {
    var chosen: seq<Change> := [];
    for i := 0 to |g.changes|
      invariant chosen == Chosen(g.changes[..i], accepted)
    {
      assert g.changes[..i + 1][..i] == g.changes[..i];
      if g.changes[i].id in accepted {
        chosen := chosen + [g.changes[i]];
      }
    }
    assert g.changes[..|g.changes|] == g.changes;
    var parents := l.parents;
    var deleted: map<NodeRef, ChangeId> := map[];
    for i := 0 to |chosen|
      invariant parents == FinalParents(l.parents, chosen[..i])
      invariant deleted == Deleted(chosen[..i])
    {
      assert chosen[..i + 1][..i] == chosen[..i];
      var op := chosen[i].op;
      if op.IsPlacement() {
        parents := parents[op.node := Some(op.parent)];
      }
      if op.Delete? {
        deleted := deleted[op.node := chosen[i].id];
      }
    }
    assert chosen[..|chosen|] == chosen;
    sel := Selection(chosen, accepted, g.explicitConflicts, parents, l.inserts, deleted);
  }

  // ----- survivors ---------------------------------------------------------

  /** Climb from n; the path is what was visited. */
  method Climb(parents: Parents, blocked: set<NodeRef>, n: NodeRef) returns (fate: Fate, path: set<NodeRef>)
    requires Closed(parents) && n in parents
    ensures fate == Walk(parents, blocked, Some(n), {})
    ensures fate == Cyclic ==> path == Visited(parents, Some(n), {})
  {
    var at := Some(n);
    path := {};
    while at.Some?
      invariant at.Some? ==> at.value in parents
      invariant path <= parents.Keys
      invariant Walk(parents, blocked, at, path) == Walk(parents, blocked, Some(n), {})
      invariant Visited(parents, at, path) == Visited(parents, Some(n), {})
      decreases parents.Keys - path
    {
      if at.value in path {
        return Cyclic, path;
      }
      if at.value in blocked {
        return Dead, path;
      }
      path := path + {at.value};
      at := parents[at.value];
    }
    fate := Live;
  }

  /** Everything on the way up, whether blocked or not. */
  method Ascend(parents: Parents, n: NodeRef) returns (path: set<NodeRef>)
    requires Closed(parents) && n in parents
    ensures path == Visited(parents, Some(n), {})
  {
    var at := Some(n);
    path := {};
    while at.Some? && at.value !in path
      invariant at.Some? ==> at.value in parents
      invariant path <= parents.Keys
      invariant Visited(parents, at, path) == Visited(parents, Some(n), {})
      decreases parents.Keys - path
    {
      path := path + {at.value};
      at := parents[at.value];
    }
  }

  /** The liveness loop: survivors, and the groups of nodes caught in cycles. */
  method FindSurvivors(sel: Selection) returns (live: set<NodeRef>, cycles: set<set<ChangeId>>)
    requires Closed(sel.parents)
    ensures live == Survivors(sel.parents, sel.Blocked())
    ensures cycles == sel.Cycles()
  {
    var missing, blocked := sel.Missing(), sel.Blocked();
    var todo := sel.parents.Keys;
    live, cycles := {}, {};
    while todo != {}
      invariant todo <= sel.parents.Keys
      invariant forall n :: n in live <==>
        n in sel.parents && n !in todo && Walk(sel.parents, blocked, Some(n), {}) == Live
      invariant cycles == set n | n in sel.parents && n !in todo && n !in missing &&
        Walk(sel.parents, blocked, Some(n), {}) == Cyclic :: sel.On(Visited(sel.parents, Some(n), {}))
    {
      var n :| n in todo;
      ghost var before := todo;
      todo := todo - {n};
      assert forall m :: m in sel.parents ==> (m !in todo <==> m == n || m !in before);
      if n in missing {
        BlockedIsDead(sel.parents, blocked, n);
      } else {
        var fate, path := Climb(sel.parents, blocked, n);
        if fate == Live {
          live := live + {n};
        } else if fate == Cyclic {
          cycles := cycles + {sel.On(path)};
        }
      }
    }
  }

  lemma {:induction false} BlockedIsDead(parents: Parents, blocked: set<NodeRef>, n: NodeRef)
    requires Closed(parents) && n in parents && n in blocked
    ensures Walk(parents, blocked, Some(n), {}) == Dead
  {
  }

  // ----- unresolved groups -------------------------------------------------

  /** Conflicts whose members are all accepted. */
  method FindConflicting(sel: Selection) returns (groups: set<set<ChangeId>>)
    ensures groups == sel.Conflicting()
  {
    groups := {};
    for i := 0 to |sel.conflicts|
      invariant groups == set g | g in sel.conflicts[..i] && Elements(g) <= sel.accepted :: Elements(g)
    {
      assert sel.conflicts[..i + 1] == sel.conflicts[..i] + [sel.conflicts[i]];
      if Elements(sel.conflicts[i]) <= sel.accepted {
        groups := groups + {Elements(sel.conflicts[i])};
      }
    }
    assert sel.conflicts[..|sel.conflicts|] == sel.conflicts;
  }

  /** Placements under missing inserts, and nodes placed twice. */
  method FindMisplaced(sel: Selection) returns (orphaned: set<set<ChangeId>>, ambiguous: set<set<ChangeId>>)
    ensures orphaned == sel.Orphaned() && ambiguous == sel.Ambiguous()
  {
    var missing := sel.Missing();
    orphaned, ambiguous := {}, {};
    for i := 0 to |sel.chosen|
      invariant orphaned == set c | c in sel.chosen[..i] && c.op.IsPlacement() &&
        c.op.parent in missing :: {c.id, missing[c.op.parent]}
      invariant ambiguous == set c | c in sel.chosen[..i] && c.op.IsPlacement() &&
        |Structural(sel.chosen, c.op.node)| > 1 :: Structural(sel.chosen, c.op.node)
    {
      var c := sel.chosen[i];
      assert sel.chosen[..i + 1] == sel.chosen[..i] + [c];
      if c.op.IsPlacement() && c.op.parent in missing {
        orphaned := orphaned + {{c.id, missing[c.op.parent]}};
      }
      if c.op.IsPlacement() && |Structural(sel.chosen, c.op.node)| > 1 {
        ambiguous := ambiguous + {Structural(sel.chosen, c.op.node)};
      }
    }
    assert sel.chosen[..|sel.chosen|] == sel.chosen;
  }

  method GroupOfDead(sel: Selection, c: Change) returns (group: set<ChangeId>)
    requires Closed(sel.parents) && c.op.node in sel.parents
    ensures group == sel.DeadGroup(c)
  {
    var missing := sel.Missing();
    var path := Ascend(sel.parents, c.op.node);
    group := {c.id} + (set n | n in path && n in sel.deleted :: sel.deleted[n]) +
      (set n | n in path && n in missing :: missing[n]);
  }

  /** Changes on nodes that do not survive. */
  method FindDeadTargets(sel: Selection, live: set<NodeRef>) returns (dead: set<set<ChangeId>>)
    requires Closed(sel.parents) && sel.NodesKnown() && live == Survivors(sel.parents, sel.Blocked())
    ensures dead == sel.DeadTargets()
  {
    dead := {};
    for i := 0 to |sel.chosen|
      invariant forall c :: c in sel.chosen[..i] ==> c in sel.chosen
      invariant dead == set c | c in sel.chosen[..i] && !c.op.Delete? && c.op.node !in live :: sel.DeadGroup(c)
    {
      var c := sel.chosen[i];
      assert sel.chosen[..i + 1] == sel.chosen[..i] + [c];
      if !c.op.Delete? && c.op.node !in live {
        var group := GroupOfDead(sel, c);
        dead := dead + {group};
      }
    }
    assert sel.chosen[..|sel.chosen|] == sel.chosen;
  }

  // ----- placing and composing ---------------------------------------------

  method Place(children: Children, chosen: seq<Change>) returns (r: Children)
    ensures r == PlaceAll(children, chosen).children
  {
    var s := Layout(children, map[]);
    for i := 0 to |chosen|
      invariant s == PlaceAll(children, chosen[..i])
    {
      assert chosen[..i + 1][..i] == chosen[..i];
      s := PlaceOne(s, chosen[i].op);
    }
    assert chosen[..|chosen|] == chosen;
    return s.children;
  }

  /** Compose the payloads of all nodes, in any order; stop at the first failure. */
  method ComposeAll(shells: Shells, chosen: seq<Change>) returns (r: Option<Shells>, error: K.Error)
    ensures r.Some? <==> ShellsCompose(shells, chosen)
    ensures r.Some? ==> r.value == FinalShells(shells, chosen)
  {
    var todo := shells.Keys;
    var out: Shells := map[];
    error := K.InvalidGraph;
    while todo != {}
      invariant todo <= shells.Keys && out.Keys == shells.Keys - todo
      invariant forall n :: n in out && PayloadOps(chosen, n) != [] ==>
        K.Composed(shells[n], PayloadOps(chosen, n)) == K.Ok(out[n])
      invariant forall n :: n in out && PayloadOps(chosen, n) == [] ==> out[n] == shells[n]
    {
      var n :| n in todo;
      var ops := PayloadOps(chosen, n);
      todo := todo - {n};
      if ops == [] {
        out := out[n := shells[n]];
      } else {
        var composed := K.ComposeShell(shells[n], ops);
        if composed.Err? {
          return None, composed.error;
        }
        out := out[n := composed.value];
      }
    }
    r := Some(out);
  }

  // ----- the planner -------------------------------------------------------

  /** Plan a selection: succeeds exactly on selections that resolve to a legal document,
      reports all unresolved groups otherwise. */
  method MakePlan(a: Tree, g: Graph, accepted: set<ChangeId>) returns (r: Plan)
    requires WellFormed(a)
    ensures r.Ok? <==> Succeeds(a, g, accepted)
    ensures r.Ok? ==> r.doc == Emit(Outcome(a, g, accepted), ROOT) && r.order == Order(Outcome(a, g, accepted), ROOT)
    ensures r.Err? && r.error.Unresolved? ==>
              GraphOk(a, g, accepted) && Validated(a, Load(a, g.changes).value, g, accepted) && 
              (SelectionOk(a, Load(a, g.changes).value, g, accepted);
               r.error.groups == Select(Load(a, g.changes).value, g, accepted).Groups() && r.error.groups != {})
  {
    if g.v != GRAPH_VERSION || g.algo != ALGO_VERSION {
      return Err(InvalidGraph);
    }
    if g.source != ToDoc(a) {
      return Err(BaseMismatch);
    }
    var loaded := LoadAll(a, g.changes);
    if loaded.None? {
      return Err(InvalidGraph);
    }
    var l := loaded.value;
    var problem := Validate(l, g, accepted);
    if problem.Some? {
      return Err(problem.value);
    }
    GraphOkValidated(a, g, accepted);
    SelectionOk(a, l, g, accepted);
    r := Resolve(a, l, g, accepted);
  }

  method Resolve(a: Tree, l: Loaded, g: Graph, accepted: set<ChangeId>) returns (r: Plan)
    requires WellFormed(a) && GraphOk(a, g, accepted) && Load(a, g.changes) == Some(l) && Validated(a, l, g, accepted)
    requires Closed(Select(l, g, accepted).parents) && Select(l, g, accepted).NodesKnown()
    ensures r.Ok? <==> Succeeds(a, g, accepted)
    ensures r.Ok? ==> r.doc == Emit(Outcome(a, g, accepted), ROOT) && r.order == Order(Outcome(a, g, accepted), ROOT)
    ensures r.Err? && r.error.Unresolved? ==> r.error.groups == Select(l, g, accepted).Groups() && r.error.groups != {}
  {
    var sel := SelectAll(l, g, accepted);
    var conflicting := FindConflicting(sel);
    var live, cycles := FindSurvivors(sel);
    var orphaned, ambiguous := FindMisplaced(sel);
    var dead := FindDeadTargets(sel, live);
    var groups := conflicting + orphaned + ambiguous + cycles + dead;
    assert groups == sel.Groups();
    if groups != {} {
      return Err(Unresolved(groups));
    }
    assert Resolved(a, l, g, accepted);
    var children := Place(Retained(l.children, live - MovedNodes(sel.chosen)), sel.chosen);
    var shells, error := ComposeAll(l.shells, sel.chosen);
    if shells.None? {
      return Err(Payload(error));
    }
    ResolvedIsTree(a, l, g, accepted);
    var st := Final(sel.parents, sel.Blocked(), children, shells.value);
    var doc := Emit(st, ROOT);
    if !DocOk(doc) {
      return Err(InvalidGraph);
    }
    r := Ok(doc, Order(st, ROOT));
  }

  // ----- what plans are ----------------------------------------------------

  /** Every successful plan is a tree: the emitted nodes are exactly the loaded nodes with an
      unblocked parent chain to the root, each emitted once. */
  lemma {:induction false} PlanIsTree(a: Tree, g: Graph, accepted: set<ChangeId>)
    requires WellFormed(a) && Succeeds(a, g, accepted)
    ensures var st := Outcome(a, g, accepted);
            && S.Distinct(Order(st, ROOT)) && (forall m :: m in Order(st, ROOT) <==> st.IsLive(m))
            && forall m :: m in Order(st, ROOT) <==> m in Survivors(st.parents, st.blocked)
  {
    var st := Outcome(a, g, accepted);
    ResolvedIsTree(a, Load(a, g.changes).value, g, accepted);
    EmitsSurvivors(st, ROOT);
    forall m ensures m in Order(st, ROOT) <==> st.IsLive(m) { LiveIff(st, m); }
  }

  /** Accepted placements with the same parent and resolved anchor stay in graph order. */
  lemma {:induction false} PlanKeepsOrder(a: Tree, g: Graph, accepted: set<ChangeId>, i: nat, j: nat)
    requires WellFormed(a) && Succeeds(a, g, accepted)
    requires var l := Load(a, g.changes).value;
             var sel := Select(l, g, accepted);
             var base := Retained(l.children, Survivors(sel.parents, sel.Blocked()) - MovedNodes(sel.chosen));
             i < j && O.Active(base, sel.chosen, i) && O.Active(base, sel.chosen, j) &&
             O.KeyUsed(base, sel.chosen, i) == O.KeyUsed(base, sel.chosen, j)
    ensures var ch := Select(Load(a, g.changes).value, g, accepted).chosen;
            var st := Outcome(a, g, accepted);
            ch[i].op.parent in st.children && O.Before(st.children[ch[i].op.parent], ch[i].op.node, ch[j].op.node)
  {
    var l := Load(a, g.changes).value;
    var sel := Select(l, g, accepted);
    var keep := Survivors(sel.parents, sel.Blocked()) - MovedNodes(sel.chosen);
    PlacementsFresh(a, l, g, accepted, keep);
    forall p | p in l.children ensures S.Distinct(Retain(l.children[p], keep)) {
      RetainedLists(a, l, g, accepted, keep, p);
    }
    O.SameAnchorKeepsOrder(Retained(l.children, keep), sel.chosen, i, j);
  }

  /** Accepting everything a matching proposes turns the base into the target. */
  lemma {:induction false} AcceptAll(s: Replay.Case)
    requires s.Ok()
    ensures Succeeds(s.a, s.G(), s.Everything())
    ensures Emit(Outcome(s.a, s.G(), s.Everything()), ROOT) == ToDoc(s.b)
  {
    Replay.AcceptAllYieldsTarget(s);
    DocAtOk(s.b, 0);
    Replay.NodesOk(s);
  }

  /** Accepting nothing leaves the base as it is. */
  lemma {:induction false} AcceptNone(a: Tree, g: Graph)
    requires WellFormed(a) && GraphOk(a, g, {})
    ensures Succeeds(a, g, {})
    ensures Emit(Outcome(a, g, {}), ROOT) == ToDoc(a)
  {
    Untouched.AcceptNoneYieldsBase(a, g);
    DocAtOk(a, 0);
  }

  /** Diff, accept everything, plan: the result is the target document. */
  method DiffAndApply(a: Tree, b: Tree, m: C.Pairing, level: T.Level, maxNd: nat) returns (r: Plan)
    requires C.Inputs(a, b, m)
    ensures r.Ok? && r.doc == ToDoc(b)
  {
    var g, moved, ord, raws, ops := U.Build(a, b, m, level, maxNd);
    ghost var s := Replay.Case(a, b, m, ord, moved, raws, ops);
    var all := set c | c in g.changes :: c.id;
    EverythingIs(ops);
    assert all == s.Everything();
    AcceptAll(s);
    r := MakePlan(a, g, all);
  }

  lemma {:induction false} EverythingIs(ops: seq<Op>)
    ensures (set c | c in U.Changes(ops) :: c.id) == set op | op in ops :: Digest(op)
  {
    var left, right := set c | c in U.Changes(ops) :: c.id, set op | op in ops :: Digest(op);
    forall op | op in ops ensures Digest(op) in left {
      var i :| 0 <= i < |ops| && ops[i] == op;
      assert U.Changes(ops)[i] in U.Changes(ops);
    }
    forall c | c in U.Changes(ops) ensures c.id in right { assert c.op in ops; }
  }
}
