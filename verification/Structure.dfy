/** A resolved selection always yields a tree. */
module Structure {
  import opened Options
  import opened Model
  import opened Trees
  import opened Graphs
  import opened PlanSpec
  import opened Emission
  import K = Compose
  import S = Sorting

  // ----- what loading produces ---------------------------------------------

  /** Change i is the insert of node n. */
  predicate InsertAt(changes: seq<Change>, i: nat, n: NodeRef) {
    i < |changes| && changes[i].op.Insert? && changes[i].op.node == n
  }

  ghost predicate BaseNode(a: Tree, l: Loaded, i: nat) {
    i < |a| && A(i) in l.shells && A(i) !in l.inserts && l.shells[A(i)] == a[i].shell &&
    A(i) in l.parents && l.parents[A(i)] == ParentRef(a[i]) && A(i) in l.children && l.children[A(i)] == ChildRefs(a[i])
  }

  ghost predicate InsertedNode(l: Loaded, changes: seq<Change>, n: NodeRef) {
    && n in l.inserts && n in l.shells && n in l.parents && n in l.children && l.children[n] == []
    && exists i: nat ::
      && InsertAt(changes, i, n) && l.inserts[n] == changes[i].id
      && l.shells[n] == changes[i].op.shell && l.parents[n] == Some(changes[i].op.parent)
  }

  ghost predicate NodesOk(a: Tree, l: Loaded, changes: seq<Change>) {
    && l.parents.Keys == l.shells.Keys && l.children.Keys == l.shells.Keys
    && (forall i :: 0 <= i < |a| ==> BaseNode(a, l, i))
    && (forall n :: n in l.shells ==> if n.A? then n.i < |a| else InsertedNode(l, changes, n))
  }

  ghost predicate IdsOk(l: Loaded, changes: seq<Change>) {
    && (forall i :: 0 <= i < |changes| ==> changes[i].id in l.ids)
    && DistinctIds(changes)
    && (forall id :: id in l.ids ==> exists i :: 0 <= i < |changes| && changes[i].id == id)
  }

  ghost predicate InsertsOk(l: Loaded, changes: seq<Change>) {
    && l.inserts.Keys <= l.shells.Keys
    && (forall i :: 0 <= i < |changes| && changes[i].op.Insert? ==>
      changes[i].op.node in l.inserts && changes[i].op.node.B?)
    && (forall i, j :: 0 <= i < j < |changes| && changes[i].op.Insert? && changes[j].op.Insert? ==>
      changes[i].op.node != changes[j].op.node)
  }

  ghost predicate LoadedOk(a: Tree, l: Loaded, changes: seq<Change>) {
    NodesOk(a, l, changes) && IdsOk(l, changes) && InsertsOk(l, changes)
  }

  lemma {:induction false} LoadBaseOk(a: Tree)
    ensures LoadedOk(a, LoadBase(a), [])
  {
  }

  lemma {:induction false} InsertedGrows(l: Loaded, l': Loaded, changes: seq<Change>, c: Change, n: NodeRef)
    requires InsertedNode(l, changes, n)
    requires n in l'.inserts && n in l'.shells && n in l'.parents && n in l'.children
    requires l'.inserts[n] == l.inserts[n] && l'.shells[n] == l.shells[n] && l'.parents[n] == l.parents[n] &&
      l'.children[n] == l.children[n]
    ensures InsertedNode(l', changes + [c], n)
  {
    var i: nat :| InsertAt(changes, i, n) && l.inserts[n] == changes[i].id &&
                  l.shells[n] == changes[i].op.shell && l.parents[n] == Some(changes[i].op.parent);
    assert InsertAt(changes + [c], i, n);
  }

  lemma {:induction false} NodesStep(a: Tree, l: Loaded, changes: seq<Change>, c: Change)
    requires NodesOk(a, l, changes) && LoadOne(l, c).Some?
    ensures NodesOk(a, LoadOne(l, c).value, changes + [c])
  {
    var l', cs := LoadOne(l, c).value, changes + [c];
    forall n | n in l'.shells ensures if n.A? then n.i < |a| else InsertedNode(l', cs, n) {
      if n.B? {
        if c.op.Insert? && n == c.op.node {
          assert InsertAt(cs, |changes|, n);
        } else {
          InsertedGrows(l, l', changes, c, n);
        }
      }
    }
    forall i | 0 <= i < |a| ensures BaseNode(a, l', i) { assert BaseNode(a, l, i); }
  }

  lemma {:induction false} IdsStep(l: Loaded, changes: seq<Change>, c: Change)
    requires IdsOk(l, changes) && LoadOne(l, c).Some?
    ensures IdsOk(LoadOne(l, c).value, changes + [c])
  {
    var l', cs := LoadOne(l, c).value, changes + [c];
    assert l'.ids == l.ids + {c.id};
    forall id | id in l'.ids ensures exists i :: 0 <= i < |cs| && cs[i].id == id {
      if id == c.id {
        assert cs[|changes|].id == id;
      } else {
        var i :| 0 <= i < |changes| && changes[i].id == id;
        assert cs[i].id == id;
      }
    }
  }

  lemma {:induction false} InsertsStep(l: Loaded, changes: seq<Change>, c: Change)
    requires InsertsOk(l, changes) && LoadOne(l, c).Some?
    ensures InsertsOk(LoadOne(l, c).value, changes + [c])
  {
  }

  lemma {:induction false} LoadOneOk(a: Tree, l: Loaded, changes: seq<Change>, c: Change)
    requires LoadedOk(a, l, changes) && LoadOne(l, c).Some?
    ensures LoadedOk(a, LoadOne(l, c).value, changes + [c])
  {
    NodesStep(a, l, changes, c);
    IdsStep(l, changes, c);
    InsertsStep(l, changes, c);
  }

  lemma {:induction false} LoadOk(a: Tree, changes: seq<Change>)
    requires Load(a, changes).Some?
    ensures LoadedOk(a, Load(a, changes).value, changes)
  {
    if changes == [] {
      LoadBaseOk(a);
    } else {
      var n := |changes| - 1;
      LoadOk(a, changes[..n]);
      LoadOneOk(a, Load(a, changes[..n]).value, changes[..n], changes[n]);
      assert changes == changes[..n] + [changes[n]];
    }
  }

  // ----- the selection -----------------------------------------------------

  predicate DistinctIds(changes: seq<Change>) {
    forall i, j :: 0 <= i < j < |changes| ==> changes[i].id != changes[j].id
  }

  /** Chosen changes are the accepted ones, with different ids. */
  lemma {:induction false} ChosenOk(changes: seq<Change>, accepted: set<ChangeId>)
    ensures forall c :: c in Chosen(changes, accepted) <==> c in changes && c.id in accepted
    ensures DistinctIds(changes) ==> DistinctIds(Chosen(changes, accepted))
  {
    if changes != [] {
      var n := |changes| - 1;
      var front := changes[..n];
      ChosenOk(front, accepted);
      assert changes == front + [changes[n]];
      if DistinctIds(changes) {
        var ch := Chosen(front, accepted);
        forall i | 0 <= i < |ch| ensures ch[i].id != changes[n].id {
          assert ch[i] in front;
          var k :| 0 <= k < n && changes[k] == ch[i];
        }
      }
    }
  }

  /** No accepted placement of n: its parent stays. */
  lemma {:induction false} ParentsKeep(parents: Parents, chosen: seq<Change>, n: NodeRef)
    requires forall c :: c in chosen && c.op.IsPlacement() ==> c.op.node != n
    requires n in parents
    ensures n in FinalParents(parents, chosen) && FinalParents(parents, chosen)[n] == parents[n]
  {
    if chosen != [] {
      assert forall c :: c in chosen[..|chosen| - 1] ==> c in chosen;
      ParentsKeep(parents, chosen[..|chosen| - 1], n);
    }
  }

  /** A node placed once ends up under that parent. */
  lemma {:induction false} ParentsPlace(parents: Parents, chosen: seq<Change>, c: Change)
    requires c in chosen && c.op.IsPlacement()
    requires forall d :: d in chosen && d.op.IsPlacement() && d.op.node == c.op.node ==> d == c
    ensures c.op.node in FinalParents(parents, chosen) && FinalParents(parents, chosen)[c.op.node] == Some(c.op.parent)
  {
    var n := |chosen| - 1;
    var last := chosen[n];
    assert chosen == chosen[..n] + [last];
    if !(last.op.IsPlacement() && last.op.node == c.op.node) {
      ParentsPlace(parents, chosen[..n], c);
    }
  }

  lemma {:induction false} ParentsKeys(parents: Parents, chosen: seq<Change>)
    requires forall c :: c in chosen && c.op.IsPlacement() ==> c.op.node in parents && c.op.parent in parents
    requires Closed(parents)
    ensures FinalParents(parents, chosen).Keys == parents.Keys && Closed(FinalParents(parents, chosen))
  {
    if chosen != [] {
      assert forall c :: c in chosen[..|chosen| - 1] ==> c in chosen;
      ParentsKeys(parents, chosen[..|chosen| - 1]);
      assert chosen[|chosen| - 1] in chosen;
    }
  }

  lemma {:induction false} DeletedOk(chosen: seq<Change>, n: NodeRef)
    ensures n in Deleted(chosen) <==> exists c :: c in chosen && c.op.Delete? && c.op.node == n
  {
    if chosen != [] {
      var front, last := chosen[..|chosen| - 1], chosen[|chosen| - 1];
      DeletedOk(front, n);
      assert chosen == front + [last];
      if n in Deleted(front) {
        var c :| c in front && c.op.Delete? && c.op.node == n;
        assert c in chosen;
      }
      if n in Deleted(chosen) && n !in Deleted(front) { assert last in chosen; }
    }
  }

  // ----- the layout --------------------------------------------------------

  lemma {:induction false} InsertAfterOk(list: seq<NodeRef>, r: Option<NodeRef>, n: NodeRef)
    requires (r.Some? ==> r.value in list) && S.Distinct(list) && n !in list
    ensures S.Distinct(InsertAfter(list, r, n))
    ensures forall x :: x in InsertAfter(list, r, n) <==> x in list || x == n
  {
    var i := match r case None => 0 case Some(x) => IndexOf(list, x) + 1;
    assert list == list[..i] + list[i..];
    SplitElements(list, i);
  }

  lemma {:induction false} SplitElements(list: seq<NodeRef>, i: nat)
    requires i <= |list|
    ensures forall x :: x in list <==> x in list[..i] || x in list[i..]
  {
    assert list == list[..i] + list[i..];
  }

  /** Some accepted placement among the first k puts x under p. */
  predicate PutUnder(chosen: seq<Change>, x: NodeRef, p: NodeRef) {
    exists c :: c in chosen && c.op.IsPlacement() && c.op.node == x && c.op.parent == p
  }

  /** Placements of different nodes, none of them in the lists yet. */
  ghost predicate FreshPlacements(children: Children, chosen: seq<Change>) {
    && (forall i, j :: 0 <= i < j < |chosen| && chosen[i].op.IsPlacement() && chosen[j].op.IsPlacement() ==>
      chosen[i].op.node != chosen[j].op.node)
    && (forall c, p :: c in chosen && c.op.IsPlacement() && p in children ==> c.op.node !in children[p])
  }

  /** The lists hold the given children and what the chosen changes put under them. */
  ghost predicate Holds(ch: Children, children: Children, chosen: seq<Change>) {
    && ch.Keys == children.Keys
    && (forall p :: p in ch ==> S.Distinct(ch[p]))
    && (forall p, x :: p in ch ==> (x in ch[p] <==> x in children[p] || PutUnder(chosen, x, p)))
  }

  lemma {:induction false} PutUnderSnoc(front: seq<Change>, last: Change, x: NodeRef, p: NodeRef)
    ensures PutUnder(front + [last], x, p) <==>
            PutUnder(front, x, p) || (last.op.IsPlacement() && last.op.node == x && last.op.parent == p)
  {
    var chosen := front + [last];
    if PutUnder(front, x, p) {
      var c :| c in front && c.op.IsPlacement() && c.op.node == x && c.op.parent == p;
      assert c in chosen;
    }
    if last.op.IsPlacement() && last.op.node == x && last.op.parent == p { assert last in chosen; }
  }

  lemma {:induction false} NotPutYet(children: Children, front: seq<Change>, last: Change, p: NodeRef)
    requires FreshPlacements(children, front + [last]) && last.op.IsPlacement() && p in children
    ensures last.op.node !in children[p] && !PutUnder(front, last.op.node, p)
  {
    var chosen := front + [last];
    assert last in chosen && chosen[|front|] == last;
    forall i | 0 <= i < |front| && front[i].op.IsPlacement() ensures front[i].op.node != last.op.node {
      assert chosen[i] == front[i];
    }
  }

  lemma {:induction false} FreshFront(children: Children, front: seq<Change>, last: Change)
    requires FreshPlacements(children, front + [last])
    ensures FreshPlacements(children, front)
  {
    var chosen := front + [last];
    forall i | 0 <= i < |front| ensures front[i] == chosen[i] {}
    forall c | c in front ensures c in chosen {}
  }

  lemma {:induction false} HoldsStep(s: Layout, children: Children, front: seq<Change>, last: Change)
    requires FreshPlacements(children, front + [last]) && Holds(s.children, children, front)
    ensures Holds(PlaceOne(s, last.op).children, children, front + [last])
  {
    forall x, p ensures PutUnder(front + [last], x, p) <==>
              PutUnder(front, x, p) || (last.op.IsPlacement() && last.op.node == x && last.op.parent == p)
    {
      PutUnderSnoc(front, last, x, p);
    }
    if last.op.IsPlacement() && last.op.parent in s.children {
      var list := s.children[last.op.parent];
      NotPutYet(children, front, last, last.op.parent);
      InsertAfterOk(list, Effective(list, s.tails, (last.op.parent, Resolve(last.op.after, list))), last.op.node);
    }
  }

  lemma {:induction false} LayoutOk(children: Children, chosen: seq<Change>)
    requires FreshPlacements(children, chosen)
    requires forall p :: p in children ==> S.Distinct(children[p])
    ensures Holds(PlaceAll(children, chosen).children, children, chosen)
  {
    if chosen != [] {
      var front, last := chosen[..|chosen| - 1], chosen[|chosen| - 1];
      assert chosen == front + [last];
      FreshFront(children, front, last);
      LayoutOk(children, front);
      HoldsStep(PlaceAll(children, front), children, front, last);
    }
  }

  lemma {:induction false} RetainDistinct(s: seq<NodeRef>, keep: set<NodeRef>)
    requires S.Distinct(s)
    ensures S.Distinct(Retain(s, keep))
  {
    if s != [] {
      RetainDistinct(s[..|s| - 1], keep);
    }
  }

  // ----- resolved selections -----------------------------------------------

  /** A change of a valid graph, in terms of the loaded nodes. */
  lemma {:induction false} ChangeFacts(a: Tree, l: Loaded, changes: seq<Change>, c: Change)
    requires LoadedOk(a, l, changes) && ChangeOk(l, c)
    ensures c.op.node in l.shells && c.op.node in l.parents
    ensures c.op.IsPlacement() ==>
      c.op.parent in l.parents && c.op.parent in l.shells && !IsLeaf(l.shells[c.op.parent].kind)
    ensures c.op.IsPlacement() || c.op.Delete? ==> c.op.node != ROOT
    ensures !c.op.Insert? ==> c.op.node.A?
  {
  }

  lemma {:induction false} LoadedClosed(a: Tree, l: Loaded, changes: seq<Change>)
    requires WellFormed(a) && LoadedOk(a, l, changes)
    requires forall i :: 0 <= i < |changes| ==> ChangeOk(l, changes[i])
    ensures Closed(l.parents)
    ensures forall n :: n in l.parents ==> (l.parents[n].None? <==> n == ROOT)
  {
    forall n | n in l.parents
      ensures l.parents[n].Some? ==> l.parents[n].value in l.parents
      ensures l.parents[n].None? <==> n == ROOT
    {
      if n.A? {
        assert BaseNode(a, l, n.i);
        if n.i > 0 {
          assert ParentOk(a, n.i);
          assert BaseNode(a, l, a[n.i].parent.value);
        }
      } else {
        assert InsertedNode(l, changes, n);
        var i: nat :| InsertAt(changes, i, n) && l.parents[n] == Some(changes[i].op.parent);
        ChangeFacts(a, l, changes, changes[i]);
      }
    }
  }

  /** The loaded graph, once validation has passed. */
  ghost predicate Validated(a: Tree, l: Loaded, g: Graph, accepted: set<ChangeId>) {
    && WellFormed(a) && LoadedOk(a, l, g.changes) && accepted <= l.ids
    && (forall i :: 0 <= i < |g.changes| ==> ChangeOk(l, g.changes[i]))
  }

  lemma {:induction false} GraphOkValidated(a: Tree, g: Graph, accepted: set<ChangeId>)
    requires WellFormed(a) && GraphOk(a, g, accepted)
    ensures Validated(a, Load(a, g.changes).value, g, accepted)
  {
    LoadOk(a, g.changes);
  }

  lemma {:induction false} ChosenFacts(a: Tree, l: Loaded, g: Graph, accepted: set<ChangeId>, c: Change)
    requires Validated(a, l, g, accepted) && c in Select(l, g, accepted).chosen
    ensures c in g.changes && c.id in accepted && ChangeOk(l, c)
    ensures c.op.node in l.shells && c.op.node in l.parents
    ensures c.op.IsPlacement() ==> c.op.parent in l.parents && !IsLeaf(l.shells[c.op.parent].kind)
    ensures c.op.IsPlacement() || c.op.Delete? ==> c.op.node != ROOT
    ensures !c.op.Insert? ==> c.op.node.A?
  {
    ChosenOk(g.changes, accepted);
    var i :| 0 <= i < |g.changes| && g.changes[i] == c;
    ChangeFacts(a, l, g.changes, c);
  }

  lemma {:induction false} SelectionOk(a: Tree, l: Loaded, g: Graph, accepted: set<ChangeId>)
    requires Validated(a, l, g, accepted)
    ensures var sel := Select(l, g, accepted);
            Closed(sel.parents) && sel.NodesKnown() && sel.parents.Keys == l.parents.Keys && DistinctIds(sel.chosen)
  {
    LoadedClosed(a, l, g.changes);
    var sel := Select(l, g, accepted);
    forall c | c in sel.chosen ensures c.op.node in l.parents && (c.op.IsPlacement() ==> c.op.parent in l.parents) {
      ChosenFacts(a, l, g, accepted, c);
    }
    ParentsKeys(l.parents, sel.chosen);
    ChosenOk(g.changes, accepted);
  }

  ghost predicate Resolved(a: Tree, l: Loaded, g: Graph, accepted: set<ChangeId>) {
    && Validated(a, l, g, accepted)
    && var sel := Select(l, g, accepted);
       Closed(sel.parents) && sel.NodesKnown() && sel.Groups() == {}
  }

  lemma {:induction false} TwoPlacementsShow(sel: Selection, c: Change, d: Change)
    requires c in sel.chosen && d in sel.chosen && c.id != d.id
    requires c.op.IsPlacement() && d.op.IsPlacement() && c.op.node == d.op.node
    ensures Structural(sel.chosen, c.op.node) in sel.Ambiguous()
  {
    var ids := Structural(sel.chosen, c.op.node);
    S.SubsetSize({c.id, d.id}, ids);
  }

  /** In a resolved selection every node is placed at most once. */
  lemma {:induction false} PlacedOnce(a: Tree, l: Loaded, g: Graph, accepted: set<ChangeId>, c: Change, d: Change)
    requires Resolved(a, l, g, accepted)
    requires var ch := Select(l, g, accepted).chosen; c in ch && d in ch
    requires c.op.IsPlacement() && d.op.IsPlacement() && c.op.node == d.op.node
    ensures c == d
  {
    var sel := Select(l, g, accepted);
    SelectionOk(a, l, g, accepted);
    if c.id != d.id {
      TwoPlacementsShow(sel, c, d);
    } else {
      SameId(sel.chosen, c, d);
    }
  }

  lemma {:induction false} SameId(chosen: seq<Change>, c: Change, d: Change)
    requires DistinctIds(chosen) && c in chosen && d in chosen && c.id == d.id
    ensures c == d
  {
    var i :| 0 <= i < |chosen| && chosen[i] == c;
    var j :| 0 <= j < |chosen| && chosen[j] == d;
    assert i == j;
  }

  /** In a resolved selection what is placed survives. */
  lemma {:induction false} PlacedSurvives(a: Tree, l: Loaded, g: Graph, accepted: set<ChangeId>, c: Change)
    requires Resolved(a, l, g, accepted)
    requires c in Select(l, g, accepted).chosen && !c.op.Delete?
    ensures var sel := Select(l, g, accepted); c.op.node in Survivors(sel.parents, sel.Blocked())
  {
    DeadShows(Select(l, g, accepted), c);
  }

  lemma {:induction false} DeadShows(sel: Selection, c: Change)
    requires Closed(sel.parents) && sel.NodesKnown() && c in sel.chosen && !c.op.Delete?
    ensures c.op.node !in Survivors(sel.parents, sel.Blocked()) ==> sel.DeadGroup(c) in sel.DeadTargets()
  {
  }

  /** The final structure of a selection. */
  ghost function FinalOf(l: Loaded, g: Graph, accepted: set<ChangeId>): Final
    requires Closed(Select(l, g, accepted).parents) && ShellsCompose(l.shells, Select(l, g, accepted).chosen)
  {
    var sel := Select(l, g, accepted);
    var keep := Survivors(sel.parents, sel.Blocked()) - MovedNodes(sel.chosen);
    Final(sel.parents, sel.Blocked(), PlaceAll(Retained(l.children, keep), sel.chosen).children,
      FinalShells(l.shells, sel.chosen))
  }

  /** The final parent of a node that is not placed is its original parent. */
  lemma {:induction false} UnplacedParent(a: Tree, l: Loaded, g: Graph, accepted: set<ChangeId>, n: NodeRef)
    requires Validated(a, l, g, accepted) && n in l.parents
    requires n !in MovedNodes(Select(l, g, accepted).chosen)
    ensures var sel := Select(l, g, accepted); n in sel.parents && sel.parents[n] == l.parents[n]
  {
    ParentsKeep(l.parents, Select(l, g, accepted).chosen, n);
  }

  lemma {:induction false} PlacedParent(a: Tree, l: Loaded, g: Graph, accepted: set<ChangeId>, c: Change)
    requires Resolved(a, l, g, accepted)
    requires c in Select(l, g, accepted).chosen && c.op.IsPlacement()
    ensures var sel := Select(l, g, accepted); c.op.node in sel.parents && sel.parents[c.op.node] == Some(c.op.parent)
  {
    var sel := Select(l, g, accepted);
    forall d | d in sel.chosen && d.op.IsPlacement() && d.op.node == c.op.node ensures d == c {
      PlacedOnce(a, l, g, accepted, c, d);
    }
    ParentsPlace(l.parents, sel.chosen, c);
  }

  /** A surviving inserted node was placed by its own insert. */
  lemma {:induction false} InsertIsPlaced(a: Tree, l: Loaded, g: Graph, accepted: set<ChangeId>, n: NodeRef)
    requires Validated(a, l, g, accepted) && n in l.shells && n.B?
    requires n !in Select(l, g, accepted).Missing()
    ensures n in MovedNodes(Select(l, g, accepted).chosen)
  {
    assert InsertedNode(l, g.changes, n);
    var i: nat :| InsertAt(g.changes, i, n) && l.inserts[n] == g.changes[i].id;
    ChosenOk(g.changes, accepted);
    assert g.changes[i] in g.changes && g.changes[i] in Select(l, g, accepted).chosen;
  }

  // ----- the tree theorem --------------------------------------------------

  /** Child lists before placement hold base children that survive unplaced. */
  lemma {:induction false} RetainedLists(a: Tree, l: Loaded, g: Graph, accepted: set<ChangeId>, keep: set<NodeRef>,
      p: NodeRef)
    requires Validated(a, l, g, accepted) && p in l.children
    ensures var ch := Retained(l.children, keep);
            && S.Distinct(ch[p])
            && (forall c :: c in ch[p] <==> c in keep && c.A? && c in l.parents && l.parents[c] == Some(p))
  {
    if p.A? {
      assert BaseNode(a, l, p.i) && ChildrenOk(a, p.i);
      RetainDistinct(l.children[p], keep);
      forall c: NodeRef ensures c in l.children[p] <==> c.A? && c in l.parents && l.parents[c] == Some(p) {
        if c.A? && c in l.parents && l.parents[c] == Some(p) {
          assert BaseNode(a, l, c.i);
          assert c.i > 0 && ParentOk(a, c.i);
          var j :| 0 <= j < |a[p.i].children| && a[p.i].children[j] == c.i;
          assert l.children[p][j] == c;
        }
        if c in l.children[p] {
          var j :| 0 <= j < |l.children[p]| && l.children[p][j] == c;
          assert BaseNode(a, l, c.i);
        }
      }
    } else {
      assert InsertedNode(l, g.changes, p);
      forall c: NodeRef | c.A? && c in l.parents ensures l.parents[c] != Some(p) { assert BaseNode(a, l, c.i); }
    }
  }

  /** Placements of a resolved selection are of different nodes that left their lists. */
  lemma {:induction false} PlacementsFresh(a: Tree, l: Loaded, g: Graph, accepted: set<ChangeId>, keep: set<NodeRef>)
    requires Resolved(a, l, g, accepted)
    requires keep !! MovedNodes(Select(l, g, accepted).chosen)
    ensures FreshPlacements(Retained(l.children, keep), Select(l, g, accepted).chosen)
  {
    var sel := Select(l, g, accepted);
    SelectionOk(a, l, g, accepted);
    var ch := sel.chosen;
    forall i, j | 0 <= i < j < |ch| && ch[i].op.IsPlacement() && ch[j].op.IsPlacement()
      ensures ch[i].op.node != ch[j].op.node
    {
      if ch[i].op.node == ch[j].op.node { PlacedOnce(a, l, g, accepted, ch[i], ch[j]); }
    }
  }

  lemma {:induction false} FinalLists(a: Tree, l: Loaded, g: Graph, accepted: set<ChangeId>, p: NodeRef)
    requires Resolved(a, l, g, accepted) && p in l.children
    ensures var sel := Select(l, g, accepted);
            var live := Survivors(sel.parents, sel.Blocked());
            var ch := PlaceAll(Retained(l.children, live - MovedNodes(sel.chosen)), sel.chosen).children;
            && p in ch && S.Distinct(ch[p])
            && forall c :: c in ch[p] <==> c in live && sel.parents[c] == Some(p)
  {
    var sel := Select(l, g, accepted);
    SelectionOk(a, l, g, accepted);
    var live := Survivors(sel.parents, sel.Blocked());
    var keep := live - MovedNodes(sel.chosen);
    var base := Retained(l.children, keep);
    PlacementsFresh(a, l, g, accepted, keep);
    forall q | q in base ensures S.Distinct(base[q]) { RetainedLists(a, l, g, accepted, keep, q); }
    LayoutOk(base, sel.chosen);
    RetainedLists(a, l, g, accepted, keep, p);
    forall c ensures (c in base[p] || PutUnder(sel.chosen, c, p)) <==> c in live && sel.parents[c] == Some(p) {
      ListMember(a, l, g, accepted, p, c);
    }
  }

  lemma {:induction false} ListMember(a: Tree, l: Loaded, g: Graph, accepted: set<ChangeId>, p: NodeRef, c: NodeRef)
    requires Resolved(a, l, g, accepted) && p in l.children
    ensures var sel := Select(l, g, accepted);
            var live := Survivors(sel.parents, sel.Blocked());
            c in Retained(l.children, live - MovedNodes(sel.chosen))[p] || PutUnder(sel.chosen, c, p) <==>
              c in live && sel.parents[c] == Some(p)
  {
    var sel := Select(l, g, accepted);
    var live := Survivors(sel.parents, sel.Blocked());
    RetainedLists(a, l, g, accepted, live - MovedNodes(sel.chosen), p);
    if c in MovedNodes(sel.chosen) {
      MemberPlaced(a, l, g, accepted, p, c);
    } else if c in live {
      MemberKept(a, l, g, accepted, c);
    }
  }

  /** A placed node survives, under the parent it was put under. */
  lemma {:induction false} MemberPlaced(a: Tree, l: Loaded, g: Graph, accepted: set<ChangeId>, p: NodeRef, c: NodeRef)
    requires Resolved(a, l, g, accepted) && c in MovedNodes(Select(l, g, accepted).chosen)
    ensures var sel := Select(l, g, accepted);
            c in Survivors(sel.parents, sel.Blocked()) && (PutUnder(sel.chosen, c, p) <==> sel.parents[c] == Some(p))
  {
    var sel := Select(l, g, accepted);
    var x :| x in sel.chosen && x.op.IsPlacement() && x.op.node == c;
    PlacedParent(a, l, g, accepted, x);
    PlacedSurvives(a, l, g, accepted, x);
    if PutUnder(sel.chosen, c, p) {
      var y :| y in sel.chosen && y.op.IsPlacement() && y.op.node == c && y.op.parent == p;
      PlacedOnce(a, l, g, accepted, x, y);
    }
  }

  /** A survivor that was not placed is a base node under its base parent. */
  lemma {:induction false} MemberKept(a: Tree, l: Loaded, g: Graph, accepted: set<ChangeId>, c: NodeRef)
    requires Resolved(a, l, g, accepted) && c !in MovedNodes(Select(l, g, accepted).chosen)
    requires var sel := Select(l, g, accepted); c in Survivors(sel.parents, sel.Blocked())
    ensures c.A? && c in l.parents && Select(l, g, accepted).parents[c] == l.parents[c]
  {
    var sel := Select(l, g, accepted);
    SelectionOk(a, l, g, accepted);
    UnplacedParent(a, l, g, accepted, c);
    if c.B? {
      SurvivorUnblocked(sel.parents, sel.Blocked(), c);
      InsertIsPlaced(a, l, g, accepted, c);
    }
  }

  lemma {:induction false} SurvivorUnblocked(parents: Parents, blocked: set<NodeRef>, n: NodeRef)
    requires Closed(parents) && n in Survivors(parents, blocked)
    ensures n !in blocked
  {
  }

  /** Leaves have text and nothing else does. */
  lemma {:induction false} LeafText(a: Tree, l: Loaded, g: Graph, accepted: set<ChangeId>, p: NodeRef)
    requires Validated(a, l, g, accepted) && p in l.shells
    ensures IsLeaf(l.shells[p].kind) <==> l.shells[p].text.Some?
  {
    if p.A? {
      assert BaseNode(a, l, p.i) && NodeOk(a[p.i]);
    } else {
      assert InsertedNode(l, g.changes, p);
      var i: nat :| InsertAt(g.changes, i, p) && l.shells[p] == g.changes[i].op.shell;
      assert ChangeOk(l, g.changes[i]);
    }
  }

  /** Leaves stay without children. */
  lemma {:induction false} LeafLists(a: Tree, l: Loaded, g: Graph, accepted: set<ChangeId>, p: NodeRef)
    requires Resolved(a, l, g, accepted) && p in l.children && l.shells[p].text.Some?
    ensures var sel := Select(l, g, accepted); forall c :: c in sel.parents ==> sel.parents[c] != Some(p)
  {
    var sel := Select(l, g, accepted);
    SelectionOk(a, l, g, accepted);
    LeafText(a, l, g, accepted, p);
    forall c | c in sel.parents ensures sel.parents[c] != Some(p) {
      if c in MovedNodes(sel.chosen) {
        var x :| x in sel.chosen && x.op.IsPlacement() && x.op.node == c;
        PlacedParent(a, l, g, accepted, x);
        ChosenFacts(a, l, g, accepted, x);
      } else {
        UnplacedParent(a, l, g, accepted, c);
        if c.A? {
          assert BaseNode(a, l, c.i);
          if c.i > 0 {
            assert ParentOk(a, c.i);
            var q := a[c.i].parent.value;
            assert BaseNode(a, l, q) && NodeOk(a[q]);
          }
        } else {
          assert InsertedNode(l, g.changes, c);
          var i: nat :| InsertAt(g.changes, i, c) && l.parents[c] == Some(g.changes[i].op.parent);
          ChangeFacts(a, l, g.changes, g.changes[i]);
        }
      }
    }
  }

  lemma {:induction false} RootStays(a: Tree, l: Loaded, g: Graph, accepted: set<ChangeId>)
    requires Validated(a, l, g, accepted)
    ensures var sel := Select(l, g, accepted);
            && Chain(sel.parents, sel.Blocked(), ROOT, 0)
            && (forall n :: n in sel.parents && sel.parents[n].None? ==> n == ROOT)
  {
    var sel := Select(l, g, accepted);
    SelectionOk(a, l, g, accepted);
    LoadedClosed(a, l, g.changes);
    assert BaseNode(a, l, 0);
    forall c | c in sel.chosen && (c.op.IsPlacement() || c.op.Delete?) ensures c.op.node != ROOT {
      ChosenFacts(a, l, g, accepted, c);
    }
    UnplacedParent(a, l, g, accepted, ROOT);
    DeletedOk(sel.chosen, ROOT);
    forall n | n in sel.parents && sel.parents[n].None? ensures n == ROOT {
      if n !in MovedNodes(sel.chosen) {
        UnplacedParent(a, l, g, accepted, n);
      } else {
        NonRootParent(l.parents, sel.chosen, n);
      }
    }
  }

  lemma {:induction false} NonRootParent(parents: Parents, chosen: seq<Change>, n: NodeRef)
    requires exists c :: c in chosen && c.op.IsPlacement() && c.op.node == n
    ensures n in FinalParents(parents, chosen) && FinalParents(parents, chosen)[n].Some?
  {
    var k := |chosen| - 1;
    assert chosen == chosen[..k] + [chosen[k]];
    if !(chosen[k].op.IsPlacement() && chosen[k].op.node == n) { NonRootParent(parents, chosen[..k], n); }
  }

  /** Every resolved selection whose payloads compose is a tree under the root. */
  lemma {:induction false} ResolvedIsTree(a: Tree, l: Loaded, g: Graph, accepted: set<ChangeId>)
    requires Resolved(a, l, g, accepted) && ShellsCompose(l.shells, Select(l, g, accepted).chosen)
    ensures var st := FinalOf(l, g, accepted);
            st.Shaped() && st.IsLive(ROOT) && forall n :: n in st.parents && st.parents[n].None? ==> n == ROOT
  {
    var sel := Select(l, g, accepted);
    var st := FinalOf(l, g, accepted);
    RootStays(a, l, g, accepted);
    SelectionOk(a, l, g, accepted);
    forall p | st.IsLive(p) ensures st.ListsOk(p) {
      FinalLists(a, l, g, accepted, p);
      forall c ensures st.IsLive(c) <==> c in Survivors(sel.parents, sel.Blocked()) { LiveIff(st, c); }
      if PayloadOps(sel.chosen, p) != [] { K.ComposedKeeps(l.shells[p], PayloadOps(sel.chosen, p)); }
      if l.shells[p].text.Some? {
        LeafLists(a, l, g, accepted, p);
        NobodyHangs(st.children[p], sel.parents, p);
      }
    }
  }

  lemma {:induction false} NobodyHangs(children: seq<NodeRef>, parents: Parents, p: NodeRef)
    requires forall c :: c in children ==> c in parents && parents[c] == Some(p)
    requires forall c :: c in parents ==> parents[c] != Some(p)
    ensures children == []
  {
    if children != [] { FirstIn(children); }
  }

  lemma {:induction false} FirstIn(s: seq<NodeRef>)
    requires s != []
    ensures s[0] in s
  {}
}
