/** Accepting every change of a built graph reproduces the target tree. */
module Replay {
  import opened Options
  import opened Model
  import opened Trees
  import opened Graphs
  import opened PlanSpec
  import opened Emission
  import opened Structure
  import C = Classify
  import K = Compose
  import Y = Layouts
  import S = Sorting
  import U = Build

  /** A matched pair of trees with its classification and operations. */
  datatype Case = Case(a: Tree, b: Tree, m: C.Pairing, ord: seq<nat>, moved: seq<bool>,
    raws: seq<C.Raw>, ops: seq<Op>) {
    ghost predicate Ok() {
      C.Inputs(a, b, m) && C.MovedOk(a, b, m, ord, moved) && U.BuiltFrom(a, b, m, moved, raws, ops)
    }

    function G(): Graph
      requires WellFormed(a)
    {
      U.GraphOf(a, ops)
    }

    function Everything(): set<ChangeId> {
      set op | op in ops :: Digest(op)
    }

    /** Node y of the target is placed by an operation. */
    predicate Places(y: nat)
      requires |m.b2a| == |b| && |moved| == |a| && y < |b|
    {
      y > 0 && (m.b2a[y].None? || (m.b2a[y].value < |a| && moved[m.b2a[y].value]))
    }

    function Ref(y: nat): NodeRef
      requires y < |m.b2a|
    {
      U.BRef(m, y)
    }
  }

  lemma {:induction false} RefInjective(s: Case, y: nat, z: nat)
    requires s.Ok() && y < |s.b| && z < |s.b| && s.Ref(y) == s.Ref(z)
    ensures y == z
  {
  }

  /** The raw placement of y. */
  function RawFor(s: Case, y: nat): C.Raw
    requires y < |s.m.b2a|
  {
    match s.m.b2a[y] case Some(x) => C.Move(x, y) case None => C.Insert(y)
  }

  lemma {:induction false} PlacementLegal(s: Case, y: nat)
    requires s.Ok() && y < |s.b| && s.Places(y)
    ensures RawFor(s, y) in s.raws && U.IsPlacement(RawFor(s, y)) && RawFor(s, y).b == y
  {
    assert C.RawOk(s.a, s.b, s.m, s.moved, RawFor(s, y));
  }

  /** What the i-th operation is. */
  lemma {:induction false} OpFacts(s: Case, i: nat)
    requires s.Ok() && i < |s.raws|
    ensures C.RawOk(s.a, s.b, s.m, s.moved, s.raws[i]) && U.OpFor(s.a, s.b, s.m, s.raws[i], s.ops[i])
    ensures s.ops[i].IsPlacement() <==> U.IsPlacement(s.raws[i])
    ensures U.IsPlacement(s.raws[i]) ==>
              var y := s.raws[i].b;
              0 < y < |s.b| && s.Places(y) && s.ops[i].node == s.Ref(y) &&
                U.Placed(s.b, s.m, y, s.ops[i]) && s.raws[i] == RawFor(s, y)
  {
    assert s.raws[i] in s.raws;
  }

  lemma {:induction false} OpsDistinct(s: Case, i: nat, j: nat)
    requires s.Ok() && i < j < |s.ops|
    ensures s.ops[i] != s.ops[j]
    ensures s.ops[i].IsPlacement() && s.ops[j].IsPlacement() ==> s.ops[i].node != s.ops[j].node
  {
    OpFacts(s, i);
    OpFacts(s, j);
    assert s.raws[i] != s.raws[j];
  }

  // ----- validation passes -------------------------------------------------

  lemma {:induction false} LoadedId(l: Loaded, cs: seq<Change>, id: ChangeId) returns (i: nat)
    requires IdsOk(l, cs) && id in l.ids
    ensures i < |cs| && cs[i].id == id
  {
    i :| 0 <= i < |cs| && cs[i].id == id;
  }

  lemma {:induction false} LoadedInsert(a: Tree, l: Loaded, cs: seq<Change>, n: NodeRef) returns (i: nat)
    requires LoadedOk(a, l, cs) && n.B? && n in l.shells
    ensures InsertAt(cs, i, n)
  {
    assert InsertedNode(l, cs, n);
    i :| InsertAt(cs, i, n);
  }

  /** Operation k is fresh with respect to the operations before it. */
  lemma {:induction false} LoadsStep(s: Case, k: nat, l: Loaded)
    requires s.Ok() && k < |s.ops|
    requires LoadedOk(s.a, l, U.Changes(s.ops)[..k])
    ensures LoadOne(l, U.Changes(s.ops)[k]).Some?
  {
    var cs := U.Changes(s.ops);
    if cs[k].id in l.ids {
      var i := LoadedId(l, cs[..k], cs[k].id);
      OpsDistinct(s, i, k);
    }
    if cs[k].op.Insert? {
      OpFacts(s, k);
      if cs[k].op.node in l.shells {
        var i := LoadedInsert(s.a, l, cs[..k], cs[k].op.node);
        OpsDistinct(s, i, k);
      }
    }
  }

  lemma {:induction false} LoadSnoc(a: Tree, cs: seq<Change>, k: nat)
    requires 0 < k <= |cs| && Load(a, cs[..k - 1]).Some?
    ensures Load(a, cs[..k]) == LoadOne(Load(a, cs[..k - 1]).value, cs[k - 1])
  {
    assert cs[..k][..k - 1] == cs[..k - 1];
  }

  lemma {:induction false} LoadsNext(s: Case, k: nat)
    requires s.Ok() && 0 < k <= |s.ops| && Load(s.a, U.Changes(s.ops)[..k - 1]).Some?
    ensures Load(s.a, U.Changes(s.ops)[..k]).Some?
  {
    var cs := U.Changes(s.ops);
    LoadOk(s.a, cs[..k - 1]);
    LoadsStep(s, k - 1, Load(s.a, cs[..k - 1]).value);
    LoadSnoc(s.a, cs, k);
  }

  lemma {:induction false} LoadsPrefix(s: Case, k: nat)
    requires s.Ok() && k <= |s.ops|
    ensures Load(s.a, U.Changes(s.ops)[..k]).Some?
  {
    if k > 0 {
      LoadsPrefix(s, k - 1);
      LoadsNext(s, k);
    }
  }

  function Nodes(s: Case): Loaded
    requires s.Ok()
  {
    LoadsPrefix(s, |s.ops|);
    assert U.Changes(s.ops)[..|s.ops|] == U.Changes(s.ops);
    Load(s.a, U.Changes(s.ops)).value
  }

  lemma {:induction false} NodesOk(s: Case)
    requires s.Ok()
    ensures Load(s.a, s.G().changes) == Some(Nodes(s)) && LoadedOk(s.a, Nodes(s), U.Changes(s.ops))
  {
    LoadsPrefix(s, |s.ops|);
    assert U.Changes(s.ops)[..|s.ops|] == U.Changes(s.ops);
    LoadOk(s.a, U.Changes(s.ops));
  }

  /** Every node of the target is among the loaded nodes, with the right kind. */
  lemma {:induction false} TargetLoaded(s: Case, y: nat)
    requires s.Ok() && y < |s.b|
    ensures s.Ref(y) in Nodes(s).shells && Nodes(s).shells[s.Ref(y)].kind == s.b[y].shell.kind
  {
    NodesOk(s);
    if s.m.b2a[y].Some? {
      assert BaseNode(s.a, Nodes(s), s.m.b2a[y].value);
    } else {
      InsertLoaded(s, y);
    }
  }

  lemma {:induction false} InsertLoaded(s: Case, y: nat)
    requires s.Ok() && y < |s.b| && s.m.b2a[y].None?
    ensures B(y) in Nodes(s).shells && Nodes(s).shells[B(y)] == s.b[y].shell
    ensures B(y) in Nodes(s).children && Nodes(s).children[B(y)] == []
  {
    var l := Nodes(s);
    var cs := U.Changes(s.ops);
    NodesOk(s);
    PlacementLegal(s, y);
    var i :| 0 <= i < |s.raws| && s.raws[i] == RawFor(s, y);
    OpFacts(s, i);
    assert cs[i].op.Insert? && B(y) in l.inserts;
    assert InsertedNode(l, cs, B(y));
    var j: nat :| InsertAt(cs, j, B(y)) && l.shells[B(y)] == cs[j].op.shell;
    OpFacts(s, j);
  }

  lemma {:induction false} ChangesOk(s: Case, i: nat)
    requires s.Ok() && i < |s.ops|
    ensures ChangeOk(Nodes(s), U.Changes(s.ops)[i])
  {
    NodesOk(s);
    OpFacts(s, i);
    if s.ops[i].IsPlacement() {
      PlacementOk(s, i);
    } else {
      BaseOpOk(s.a, s.b, s.m, s.moved, Nodes(s), s.raws[i], s.ops[i]);
    }
  }

  lemma {:induction false} BaseOpOk(a: Tree, b: Tree, m: C.Pairing, moved: seq<bool>, l: Loaded, r: C.Raw, op: Op)
    requires C.Inputs(a, b, m) && |moved| == |a| && C.RawOk(a, b, m, moved, r) && !U.IsPlacement(r) &&
      U.OpFor(a, b, m, r, op)
    requires BaseNode(a, l, r.a)
    ensures ChangeOk(l, Change(Digest(op), op))
  {
    assert NodeOk(a[r.a]);
    if !r.Delete? { assert NodeOk(b[r.b]); }
  }

  lemma {:induction false} PlacementOk(s: Case, i: nat)
    requires s.Ok() && i < |s.ops| && s.ops[i].IsPlacement()
    ensures ChangeOk(Nodes(s), U.Changes(s.ops)[i])
  {
    OpFacts(s, i);
    var y := s.raws[i].b;
    var q := s.b[y].parent.value;
    TargetLoaded(s, y);
    TargetLoaded(s, q);
    AnchorsLoaded(s, y, s.ops[i]);
    ContainerKind(s.b, y);
    assert NodeOk(s.b[y]);
    assert s.ops[i].node != ROOT;
    assert K.PayloadOk(s.ops[i], Nodes(s).shells[s.ops[i].node]);
  }

  /** A node with a child is no leaf. */
  lemma {:induction false} ContainerKind(b: Tree, y: nat)
    requires WellFormed(b) && 0 < y < |b|
    ensures b[y].parent.Some? && b[y].parent.value < |b| && !IsLeaf(b[b[y].parent.value].shell.kind)
  {
    assert ParentOk(b, y);
    assert NodeOk(b[b[y].parent.value]);
  }

  lemma {:induction false} AnchorsFrom(l: Loaded, m: C.Pairing, siblings: seq<nat>, pos: nat)
    requires pos <= |siblings| && forall i :: 0 <= i < |siblings| ==> siblings[i] < |m.b2a|
    requires forall k :: 0 <= k < pos ==> U.After(m, siblings, pos)[k].node in l.shells
    ensures var after := U.After(m, siblings, pos); AnchorsKnown(l, after) && after != [] && after[|after| - 1] == Start
  {}

  lemma {:induction false} AnchorsLoaded(s: Case, y: nat, op: Op)
    requires s.Ok() && op.IsPlacement() && U.Placed(s.b, s.m, y, op)
    ensures AnchorsKnown(Nodes(s), op.after) && op.after != [] && op.after[|op.after| - 1] == Start
  {
    var q := s.b[y].parent.value;
    var pos: nat :| U.IsChildAt(s.b, q, pos, y) && U.SiblingsInRange(s.b, q) &&
      op.after == U.After(s.m, s.b[q].children, pos);
    var siblings := s.b[q].children;
    forall k | 0 <= k < pos ensures U.After(s.m, siblings, pos)[k].node in Nodes(s).shells {
      AnchorLoaded(s, siblings, pos, k);
    }
    AnchorsFrom(Nodes(s), s.m, siblings, pos);
  }

  lemma {:induction false} AnchorLoaded(s: Case, siblings: seq<nat>, pos: nat, k: nat)
    requires s.Ok() && pos <= |siblings| && (forall i :: 0 <= i < |siblings| ==> siblings[i] < |s.b|) && k < pos
    ensures U.After(s.m, siblings, pos)[k].node in Nodes(s).shells
  {
    var z := siblings[pos - 1 - k];
    TargetLoaded(s, z);
    AfterAt(s.m, siblings, pos, k);
  }

  lemma {:induction false} AfterAt(m: C.Pairing, siblings: seq<nat>, pos: nat, k: nat)
    requires k < pos <= |siblings| && forall i :: 0 <= i < |siblings| ==> siblings[i] < |m.b2a|
    ensures U.After(m, siblings, pos)[k] == At(U.BRef(m, siblings[pos - 1 - k]))
  {
  }

  lemma {:induction false} GraphPasses(s: Case, accepted: set<ChangeId>)
    requires s.Ok() && accepted <= s.Everything()
    ensures GraphOk(s.a, s.G(), accepted) && Validated(s.a, Nodes(s), s.G(), accepted)
  {
    NodesOk(s);
    var l := Nodes(s);
    forall i | 0 <= i < |s.G().changes| ensures ChangeOk(l, s.G().changes[i]) { ChangesOk(s, i); }
    forall id | id in accepted ensures id in l.ids {
      var i :| 0 <= i < |s.ops| && Digest(s.ops[i]) == id;
      assert U.Changes(s.ops)[i].id in l.ids;
    }
  }

  // ----- everything is chosen ----------------------------------------------

  lemma {:induction false} ChosenAll(changes: seq<Change>, accepted: set<ChangeId>)
    requires forall c :: c in changes ==> c.id in accepted
    ensures Chosen(changes, accepted) == changes
  {
    if changes != [] {
      var n := |changes| - 1;
      ChosenAll(changes[..n], accepted);
      assert changes == changes[..n] + [changes[n]];
    }
  }

  lemma {:induction false} AllChosen(s: Case)
    requires s.Ok()
    ensures Select(Nodes(s), s.G(), s.Everything()).chosen == U.Changes(s.ops)
  {
    forall c | c in U.Changes(s.ops) ensures c.id in s.Everything() {
      var i :| 0 <= i < |s.ops| && U.Changes(s.ops)[i] == c;
      assert s.ops[i] in s.ops;
    }
    ChosenAll(U.Changes(s.ops), s.Everything());
  }

  // ----- the survivors are the target's nodes ------------------------------

  function Sel(s: Case): Selection
    requires s.Ok()
  {
    Select(Nodes(s), s.G(), s.Everything())
  }

  /** The change that places y. */
  lemma {:induction false} PlacingChange(s: Case, y: nat) returns (i: nat)
    requires s.Ok() && y < |s.b| && s.Places(y)
    ensures i < |s.ops| && s.raws[i] == RawFor(s, y) && s.ops[i].IsPlacement() && s.ops[i].node == s.Ref(y) &&
      s.raws[i].b == y
    ensures s.b[y].parent.Some? && s.b[y].parent.value < |s.b| && s.ops[i].parent == s.Ref(s.b[y].parent.value)
  {
    PlacementLegal(s, y);
    i :| 0 <= i < |s.raws| && s.raws[i] == RawFor(s, y);
    OpFacts(s, i);
  }

  /** The node of a placement operation is placed by nothing else. */
  lemma {:induction false} UniquePlacement(s: Case, i: nat, d: Change)
    requires s.Ok() && i < |s.ops| && s.ops[i].IsPlacement()
    requires d in U.Changes(s.ops) && d.op.IsPlacement() && d.op.node == s.ops[i].node
    ensures d == U.Changes(s.ops)[i]
  {
    var j :| 0 <= j < |s.ops| && U.Changes(s.ops)[j] == d;
    SameNode(s, i, j);
  }

  lemma {:induction false} SameNode(s: Case, i: nat, j: nat)
    requires s.Ok() && i < |s.ops| && j < |s.ops| && s.ops[i].IsPlacement() && s.ops[j].IsPlacement() &&
      s.ops[i].node == s.ops[j].node
    ensures i == j
  {
    if i < j { OpsDistinct(s, i, j); }
    if j < i { OpsDistinct(s, j, i); }
  }

  /** Placed nodes are exactly the target nodes that need placing. */
  lemma {:induction false} PlacedNodes(s: Case, n: NodeRef)
    requires s.Ok()
    ensures n in MovedNodes(U.Changes(s.ops)) <==> exists y :: 0 <= y < |s.b| && s.Places(y) && s.Ref(y) == n
  {
    var cs := U.Changes(s.ops);
    if n in MovedNodes(cs) {
      var c :| c in cs && c.op.IsPlacement() && c.op.node == n;
      var i :| 0 <= i < |s.ops| && cs[i] == c;
      OpFacts(s, i);
    }
    if y :| 0 <= y < |s.b| && s.Places(y) && s.Ref(y) == n {
      var i := PlacingChange(s, y);
      assert cs[i] in cs;
    }
  }

  /** Final parents follow the target tree. */
  lemma {:induction false} TargetPlaced(s: Case, y: nat)
    requires s.Ok() && 0 < y < |s.b| && s.b[y].parent.Some? && s.b[y].parent.value < y && s.Places(y)
    ensures s.Ref(y) in Sel(s).parents && Sel(s).parents[s.Ref(y)] == Some(s.Ref(s.b[y].parent.value))
  {
    AllChosen(s);
    var cs := U.Changes(s.ops);
    var i := PlacingChange(s, y);
    forall d | d in cs && d.op.IsPlacement() && d.op.node == cs[i].op.node ensures d == cs[i] {
      UniquePlacement(s, i, d);
    }
    ParentsPlace(Nodes(s).parents, cs, cs[i]);
  }

  /** No operation places a node that stays. */
  lemma {:induction false} StayerNotPlaced(s: Case, y: nat, c: Change)
    requires s.Ok() && y < |s.b| && !s.Places(y) && c in U.Changes(s.ops) && c.op.IsPlacement()
    ensures c.op.node != s.Ref(y)
  {
    var i :| 0 <= i < |s.ops| && U.Changes(s.ops)[i] == c;
    OpFacts(s, i);
    if c.op.node == s.Ref(y) { RefInjective(s, y, s.raws[i].b); }
  }

  /** A node that stays hangs under the partner of its partner's parent. */
  lemma {:induction false} HomeParent(a: Tree, b: Tree, m: C.Pairing, x: nat, y: nat)
    requires C.Inputs(a, b, m) && 0 < x < |a| && m.a2b[x] == Some(y) && C.AtHome(a, b, m, x)
    ensures y < |b| && a[x].parent.Some? && b[y].parent.Some? && b[y].parent.value < |b|
    ensures U.BRef(m, y) == A(x) && U.BRef(m, b[y].parent.value) == A(a[x].parent.value)
  {
    assert ParentOk(a, x);
    C.NonRoot(a, b, m, x);
    assert ParentOk(b, y);
  }

  lemma {:induction false} StayerParent(s: Case, y: nat)
    requires s.Ok() && 0 < y < |s.b| && s.b[y].parent.Some? && s.b[y].parent.value < y && !s.Places(y)
    ensures s.Ref(y) in Nodes(s).parents && Nodes(s).parents[s.Ref(y)] == Some(s.Ref(s.b[y].parent.value))
  {
    NodesOk(s);
    StayerPartner(s, y);
    var x := s.m.b2a[y].value;
    BaseParent(s.a, Nodes(s), U.Changes(s.ops), x);
    HomeParent(s.a, s.b, s.m, x, y);
  }

  lemma {:induction false} StayerPartner(s: Case, y: nat)
    requires s.Ok() && 0 < y < |s.b| && !s.Places(y)
    ensures s.m.b2a[y].Some? && 0 < s.m.b2a[y].value < |s.a|
    ensures var x := s.m.b2a[y].value; !s.moved[x] && s.m.a2b[x] == Some(y) && C.AtHome(s.a, s.b, s.m, x)
  {}

  lemma {:induction false} TargetStayed(s: Case, y: nat)
    requires s.Ok() && 0 < y < |s.b| && s.b[y].parent.Some? && s.b[y].parent.value < y && !s.Places(y)
    ensures s.Ref(y) in Sel(s).parents && Sel(s).parents[s.Ref(y)] == Some(s.Ref(s.b[y].parent.value))
  {
    AllChosen(s);
    StayerParent(s, y);
    forall c | c in U.Changes(s.ops) && c.op.IsPlacement() ensures c.op.node != s.Ref(y) { StayerNotPlaced(s, y, c); }
    ParentsKeep(Nodes(s).parents, U.Changes(s.ops), s.Ref(y));
  }

  lemma {:induction false} TargetParent(s: Case, y: nat)
    requires s.Ok() && 0 < y < |s.b|
    ensures s.b[y].parent.Some? && s.b[y].parent.value < y
    ensures s.Ref(y) in Sel(s).parents && Sel(s).parents[s.Ref(y)] == Some(s.Ref(s.b[y].parent.value))
  {
    assert ParentOk(s.b, y);
    if s.Places(y) { TargetPlaced(s, y); } else { TargetStayed(s, y); }
  }


  /** Nothing the target keeps is deleted, and no insert is missing. */
  lemma {:induction false} Unblocked(s: Case, y: nat)
    requires s.Ok() && y < |s.b|
    ensures s.Ref(y) !in Sel(s).Blocked()
  {
    NoneMissing(s);
    AllChosen(s);
    DeletedOk(U.Changes(s.ops), s.Ref(y));
    if s.Ref(y) in Deleted(U.Changes(s.ops)) {
      var c :| c in U.Changes(s.ops) && c.op.Delete? && c.op.node == s.Ref(y);
      var i :| 0 <= i < |s.ops| && U.Changes(s.ops)[i] == c;
      OpFacts(s, i);
    }
  }

  lemma {:induction false} NoneMissing(s: Case)
    requires s.Ok()
    ensures Sel(s).Missing() == map[]
  {
    var l := Nodes(s);
    NodesOk(s);
    forall n | n in l.inserts ensures l.inserts[n] in s.Everything() { InsertAccepted(s, n); }
  }

  lemma {:induction false} InsertAccepted(s: Case, n: NodeRef)
    requires s.Ok() && n in Nodes(s).inserts
    ensures Nodes(s).inserts[n] in s.Everything()
  {
    var l, cs := Nodes(s), U.Changes(s.ops);
    NodesOk(s);
    assert n in l.shells && (n.A? ==> BaseNode(s.a, l, n.i));
    assert InsertedNode(l, cs, n);
    var i: nat :| InsertAt(cs, i, n) && l.inserts[n] == cs[i].id;
    assert s.ops[i] in s.ops;
  }

  lemma {:induction false} RootParent(s: Case)
    requires s.Ok()
    ensures s.Ref(0) == ROOT && ROOT in Sel(s).parents && Sel(s).parents[ROOT].None?
  {
    GraphPasses(s, s.Everything());
    RootStays(s.a, Nodes(s), s.G(), s.Everything());
    assert Chain(Sel(s).parents, Sel(s).Blocked(), ROOT, 0);
  }

  /** Node y stands under its target parent, unblocked. */
  ghost predicate Follows(parents: Parents, blocked: set<NodeRef>, b: Tree, refs: seq<NodeRef>, y: nat) {
    && y < |b| == |refs| && refs[y] in parents && refs[y] !in blocked
    && (if y == 0 then parents[refs[y]].None?
        else b[y].parent.Some? && b[y].parent.value < y && parents[refs[y]] == Some(refs[b[y].parent.value]))
  }

  lemma {:induction false} FollowsSurvive(parents: Parents, blocked: set<NodeRef>, b: Tree, refs: seq<NodeRef>,
      y: nat) returns (k: nat)
    requires y < |b| == |refs| && forall z :: 0 <= z <= y ==> Follows(parents, blocked, b, refs, z)
    ensures Chain(parents, blocked, refs[y], k)
    decreases y
  {
    assert Follows(parents, blocked, b, refs, y);
    if y == 0 {
      k := 0;
    } else {
      k := FollowsSurvive(parents, blocked, b, refs, b[y].parent.value);
      k := k + 1;
    }
  }

  function AllRefs(m: C.Pairing): seq<NodeRef> {
    seq(|m.b2a|, y requires 0 <= y < |m.b2a| => U.BRef(m, y))
  }

  lemma {:induction false} TargetFollows(s: Case, y: nat)
    requires s.Ok() && y < |s.b|
    ensures Follows(Sel(s).parents, Sel(s).Blocked(), s.b, AllRefs(s.m), y)
  {
    Unblocked(s, y);
    if y == 0 { RootParent(s); } else { TargetParent(s, y); }
  }

  /** Every node of the target survives. */
  lemma {:induction false} TargetSurvives(s: Case, y: nat) returns (k: nat)
    requires s.Ok() && y < |s.b|
    ensures Chain(Sel(s).parents, Sel(s).Blocked(), s.Ref(y), k)
  {
    forall z | 0 <= z <= y ensures Follows(Sel(s).parents, Sel(s).Blocked(), s.b, AllRefs(s.m), z) {
      TargetFollows(s, z);
    }
    k := FollowsSurvive(Sel(s).parents, Sel(s).Blocked(), s.b, AllRefs(s.m), y);
  }

  lemma {:induction false} UnmatchedStays(s: Case, x: nat, c: Change)
    requires s.Ok() && x < |s.a| && s.m.a2b[x].None? && c in U.Changes(s.ops) && c.op.IsPlacement()
    ensures c.op.node != A(x)
  {
    var i :| 0 <= i < |s.ops| && U.Changes(s.ops)[i] == c;
    OpFacts(s, i);
  }

  lemma {:induction false} BaseParent(a: Tree, l: Loaded, cs: seq<Change>, x: nat)
    requires WellFormed(a) && LoadedOk(a, l, cs) && 0 < x < |a|
    ensures a[x].parent.Some? && a[x].parent.value < x
    ensures A(x) in l.parents && l.parents[A(x)] == Some(A(a[x].parent.value))
  {
    assert ParentOk(a, x) && BaseNode(a, l, x);
  }

  lemma {:induction false} RootMatched(s: Case)
    requires s.Ok()
    ensures WellFormed(s.a) && |s.m.a2b| == |s.a| > 0 && s.m.a2b[0].Some?
  {}

  lemma {:induction false} UnmatchedParent(s: Case, x: nat)
    requires s.Ok() && x < |s.a| && s.m.a2b[x].None?
    ensures x > 0 && s.a[x].parent.Some? && s.a[x].parent.value < x
    ensures A(x) in Nodes(s).parents && Nodes(s).parents[A(x)] == Some(A(s.a[x].parent.value))
  {
    NodesOk(s);
    RootMatched(s);
    BaseParent(s.a, Nodes(s), U.Changes(s.ops), x);
  }

  /** An unmatched base node keeps its parent, and is deleted if the parent is matched. */
  lemma {:induction false} UnmatchedFate(s: Case, x: nat)
    requires s.Ok() && x < |s.a| && s.m.a2b[x].None?
    ensures x > 0 && s.a[x].parent.Some? && s.a[x].parent.value < x
    ensures A(x) in Sel(s).parents && Sel(s).parents[A(x)] == Some(A(s.a[x].parent.value))
    ensures s.m.a2b[s.a[x].parent.value].Some? ==> A(x) in Sel(s).Blocked()
  {
    AllChosen(s);
    UnmatchedParent(s, x);
    forall c | c in U.Changes(s.ops) && c.op.IsPlacement() ensures c.op.node != A(x) { UnmatchedStays(s, x, c); }
    ParentsKeep(Nodes(s).parents, U.Changes(s.ops), A(x));
    if s.m.a2b[s.a[x].parent.value].Some? {
      DeleteListed(s, x);
    }
  }

  lemma {:induction false} DeleteListed(s: Case, x: nat)
    requires s.Ok() && C.RawOk(s.a, s.b, s.m, s.moved, C.Delete(x))
    ensures A(x) in Sel(s).Blocked()
  {
    AllChosen(s);
    assert C.Delete(x) in s.raws;
    var i :| 0 <= i < |s.raws| && s.raws[i] == C.Delete(x);
    OpFacts(s, i);
    var cs := U.Changes(s.ops);
    assert cs[i] in cs && cs[i].op.Delete? && cs[i].op.node == A(x);
    DeletedOk(cs, A(x));
  }

  /** Unmatched base nodes die without meeting a cycle. */
  lemma {:induction false} UnmatchedDies(s: Case, x: nat, path: set<NodeRef>)
    requires s.Ok() && x < |s.a| && s.m.a2b[x].None?
    requires forall n :: n in path ==> n.A? && n.i > x
    requires Closed(Sel(s).parents) && A(x) in Sel(s).parents
    ensures Walk(Sel(s).parents, Sel(s).Blocked(), Some(A(x)), path) == Dead
  {
    UnmatchedFate(s, x);
    var p := s.a[x].parent.value;
    if s.m.a2b[p].None? {
      UnmatchedDies(s, p, path + {A(x)});
    }
  }

  /** n names a node of the target. */
  ghost predicate IsTarget(s: Case, n: NodeRef)
    requires s.Ok()
  {
    exists y :: 0 <= y < |s.b| && s.Ref(y) == n
  }

  /** Loaded nodes are target nodes or unmatched base nodes. */
  lemma {:induction false} NodeCases(s: Case, n: NodeRef)
    requires s.Ok() && n in Nodes(s).shells
    ensures IsTarget(s, n) || (n.A? && n.i < |s.a| && s.m.a2b[n.i].None?)
  {
    NodesOk(s);
    if n.A? {
      if s.m.a2b[n.i].Some? { assert s.Ref(s.m.a2b[n.i].value) == n; }
    } else {
      var cs := U.Changes(s.ops);
      assert InsertedNode(Nodes(s), cs, n);
      var i: nat :| InsertAt(cs, i, n);
      OpFacts(s, i);
      assert s.Ref(s.raws[i].b) == n;
    }
  }

  lemma {:induction false} SelFacts(s: Case)
    requires s.Ok()
    ensures Closed(Sel(s).parents) && Sel(s).NodesKnown() && Sel(s).parents.Keys == Nodes(s).shells.Keys
  {
    GraphPasses(s, s.Everything());
    SelectionOk(s.a, Nodes(s), s.G(), s.Everything());
  }

  /** Survivors are exactly the target's nodes; nothing runs in a cycle. */
  lemma {:induction false} FateOf(s: Case, n: NodeRef)
    requires s.Ok() && Closed(Sel(s).parents) && n in Sel(s).parents
    ensures Walk(Sel(s).parents, Sel(s).Blocked(), Some(n), {}) == if IsTarget(s, n) then Live else Dead
  {
    SelFacts(s);
    NodeCases(s, n);
    if IsTarget(s, n) {
      var y :| 0 <= y < |s.b| && s.Ref(y) == n;
      var k := TargetSurvives(s, y);
      ChainIsLive(Sel(s).parents, Sel(s).Blocked(), n, k, {});
    } else {
      UnmatchedDies(s, n.i, {});
    }
  }

  lemma {:induction false} SurvivorsAre(s: Case, n: NodeRef)
    requires s.Ok()
    ensures Closed(Sel(s).parents)
    ensures n in Survivors(Sel(s).parents, Sel(s).Blocked()) <==> IsTarget(s, n)
  {
    SelFacts(s);
    if n in Sel(s).parents {
      FateOf(s, n);
    } else if IsTarget(s, n) {
      var y :| 0 <= y < |s.b| && s.Ref(y) == n;
      TargetLoaded(s, y);
    }
  }

  lemma {:induction false} NoCycles(s: Case)
    requires s.Ok() && Closed(Sel(s).parents)
    ensures Sel(s).Cycles() == {}
  {
    forall n | n in Sel(s).parents ensures Walk(Sel(s).parents, Sel(s).Blocked(), Some(n), {}) != Cyclic {
      FateOf(s, n);
    }
  }

  lemma {:induction false} NoDeadTargets(s: Case)
    requires s.Ok() && Closed(Sel(s).parents) && Sel(s).NodesKnown()
    ensures Sel(s).DeadTargets() == {}
  {
    forall c | c in Sel(s).chosen && !c.op.Delete? ensures c.op.node in Survivors(Sel(s).parents, Sel(s).Blocked()) {
      AllChosen(s);
      var i :| 0 <= i < |s.ops| && U.Changes(s.ops)[i] == c;
      OpTarget(s, i);
      SurvivorsAre(s, c.op.node);
    }
  }

  /** Operations other than deletions are about target nodes. */
  lemma {:induction false} OpTarget(s: Case, i: nat)
    requires s.Ok() && i < |s.ops| && !s.ops[i].Delete?
    ensures IsTarget(s, s.ops[i].node)
  {
    OpFacts(s, i);
    assert s.Ref(s.raws[i].b) == s.ops[i].node;
  }

  lemma {:induction false} NoAmbiguity(s: Case)
    requires s.Ok()
    ensures Sel(s).Ambiguous() == {}
  {
    AllChosen(s);
    var cs := U.Changes(s.ops);
    forall c | c in cs && c.op.IsPlacement() ensures |Structural(cs, c.op.node)| <= 1 {
      var i :| 0 <= i < |s.ops| && cs[i] == c;
      forall d | d in cs && d.op.IsPlacement() && d.op.node == c.op.node ensures d.id == c.id {
        UniquePlacement(s, i, d);
      }
      assert Structural(cs, c.op.node) <= {c.id};
      S.SubsetSize(Structural(cs, c.op.node), {c.id});
    }
  }

  /** Accepting everything is a resolved selection. */
  lemma {:induction false} AllResolved(s: Case)
    requires s.Ok()
    ensures Resolved(s.a, Nodes(s), s.G(), s.Everything())
  {
    GraphPasses(s, s.Everything());
    SelFacts(s);
    NoCycles(s);
    NoDeadTargets(s);
    NoAmbiguity(s);
    NoneMissing(s);
    assert Sel(s).Conflicting() == {} && Sel(s).Orphaned() == {};
  }

  // ----- child lists -------------------------------------------------------

  lemma {:induction false} TargetOk(s: Case)
    requires s.Ok()
    ensures Y.Target(s.m, s.b)
  {
    forall y, z | 0 <= y < z < |s.m.b2a| ensures U.BRef(s.m, y) != U.BRef(s.m, z) {
      if s.Ref(y) == s.Ref(z) { RefInjective(s, y, z); }
    }
  }

  /** Target nodes that are not placed: matched and staying. */
  function Stay(s: Case): set<nat>
    requires s.Ok()
  {
    set y | 0 <= y < |s.b| && !s.Places(y)
  }

  ghost function Keep(s: Case): set<NodeRef>
    requires s.Ok() && Closed(Sel(s).parents)
  {
    Survivors(Sel(s).parents, Sel(s).Blocked()) - MovedNodes(Sel(s).chosen)
  }

  /** Kept base nodes are the matched, unmoved ones. */
  lemma {:induction false} KeepIs(s: Case, c: nat)
    requires s.Ok() && Closed(Sel(s).parents) && c < |s.a|
    ensures A(c) in Keep(s) <==> s.m.a2b[c].Some? && !s.moved[c]
  {
    AllChosen(s);
    SurvivorsAre(s, A(c));
    PlacedNodes(s, A(c));
    if s.m.a2b[c].Some? {
      var y := s.m.a2b[c].value;
      assert s.Ref(y) == A(c);
      assert IsTarget(s, A(c));
      assert s.moved[c] ==> s.Places(y);
    }
  }

  /** Partners of kept children: a staying child of the partner, and back. */
  lemma {:induction false} StayingChild(s: Case, x: nat, q: nat, c: nat)
    requires s.Ok() && x < |s.a| && s.m.a2b[x] == Some(q) && c in s.a[x].children && c < |s.a| && s.m.a2b[c].Some? &&
      !s.moved[c]
    ensures s.m.a2b[c].value in s.b[q].children && s.m.a2b[c].value in Stay(s)
  {
    assert ChildrenOk(s.a, x);
    assert C.AtHome(s.a, s.b, s.m, c);
    C.NonRoot(s.a, s.b, s.m, c);
    assert ParentOk(s.b, s.m.a2b[c].value);
  }

  /** A child that stays has its partner among the children of its parent's partner. */
  lemma {:induction false} HomeChild(a: Tree, b: Tree, m: C.Pairing, q: nat, y: nat, c: nat)
    requires C.Inputs(a, b, m) && q < |b| && y in b[q].children && y < |b| && m.b2a[y] == Some(c) && c < |a| &&
      C.AtHome(a, b, m, c)
    ensures m.b2a[q].Some? && m.b2a[q].value < |a| && c in a[m.b2a[q].value].children
  {
    assert ChildrenOk(b, q);
    assert ParentOk(a, c);
  }

  lemma {:induction false} NotRoot(b: Tree, q: nat, y: nat)
    requires WellFormed(b) && q < |b| && y in b[q].children
    ensures 0 < y < |b|
  {
    assert ChildrenOk(b, q);
  }

  lemma {:induction false} StayingBack(s: Case, q: nat, y: nat)
    requires s.Ok() && q < |s.b| && y in s.b[q].children && y in Stay(s)
    ensures s.m.b2a[q].Some? && s.m.b2a[y].Some?
    ensures var c := s.m.b2a[y].value; c in s.a[s.m.b2a[q].value].children && !s.moved[c] && s.m.a2b[c] == Some(y)
  {
    NotRoot(s.b, q, y);
    StayerPartner(s, y);
    HomeChild(s.a, s.b, s.m, q, y, s.m.b2a[y].value);
  }

  lemma {:induction false} RetainedUnmatched(s: Case, q: nat)
    requires s.Ok() && q < |s.b| && s.m.b2a[q].None?
    ensures Y.FilterIn(s.b[q].children, Stay(s)) == []
  {
    var t := Y.FilterIn(s.b[q].children, Stay(s));
    if t != [] { StayingBack(s, q, t[0]); }
  }

  /** Kept children of x, as target nodes, are the staying children of its partner. */
  lemma {:induction false} RetainedMatched(s: Case, x: nat, q: nat, inc: set<nat>)
    requires s.Ok() && x < |s.a| && s.m.a2b[x] == Some(q)
    requires forall c :: c in inc <==> c in s.a[x].children && c < |s.a| && s.m.a2b[c].Some? && !s.moved[c]
    ensures var kept := Y.FilterIn(s.a[x].children, inc);
            && (forall i :: 0 <= i < |kept| ==> kept[i] < |s.m.a2b| && s.m.a2b[kept[i]].Some?)
            && Y.Partners(s.m, kept) == Y.FilterIn(s.b[q].children, Stay(s))
  {
    var kept := Y.FilterIn(s.a[x].children, inc);
    var staying := Y.FilterIn(s.b[q].children, Stay(s));
    assert forall i :: 0 <= i < |kept| ==> kept[i] in inc;
    var t := Y.Partners(s.m, kept);
    KeptAscend(s, x, inc);
    TargetOk(s);
    Y.KidsOk(s.m, s.b, q);
    Y.FilterAscending(s.b[q].children, Stay(s));
    forall y ensures y in t <==> y in staying {
      if y in t {
        var i :| 0 <= i < |t| && t[i] == y;
        StayingChild(s, x, q, kept[i]);
      }
      if y in staying {
        StayingBack(s, q, y);
        var c := s.m.b2a[y].value;
        assert c in inc && c in kept by { KeptHas(s, x, inc, c); }
        var i :| 0 <= i < |kept| && kept[i] == c;
        assert t[i] == y;
      }
    }
    S.AscendingUnique(t, staying);
  }

  lemma {:induction false} KeptHas(s: Case, x: nat, inc: set<nat>, c: nat)
    requires s.Ok() && x < |s.a| && c in s.a[x].children && c in inc
    ensures c in Y.FilterIn(s.a[x].children, inc)
  {
    assert ChildrenOk(s.a, x);
    Y.FilterAscending(s.a[x].children, inc);
  }

  lemma {:induction false} KeptAscend(s: Case, x: nat, inc: set<nat>)
    requires s.Ok() && x < |s.a|
    requires forall c :: c in inc ==> c in s.a[x].children && c < |s.a| && s.m.a2b[c].Some? && !s.moved[c]
    ensures var kept := Y.FilterIn(s.a[x].children, inc);
            (forall i :: 0 <= i < |kept| ==> kept[i] < |s.m.a2b| && s.m.a2b[kept[i]].Some?) &&
              S.Ascending(Y.Partners(s.m, kept))
  {
    var kept := Y.FilterIn(s.a[x].children, inc);
    assert ChildrenOk(s.a, x);
    Y.FilterAscending(s.a[x].children, inc);
    forall i, j | 0 <= i < j < |kept| ensures s.m.a2b[kept[i]].value < s.m.a2b[kept[j]].value {
      assert kept[i] in inc && kept[j] in inc;
      C.StaysOrdered(s.a, s.b, s.m, s.ord, s.moved, kept[i], kept[j]);
    }
  }

  /** References of kept children are the references of their partners. */
  lemma {:induction false} PartnerRefs(s: Case, kept: seq<nat>)
    requires s.Ok() && forall i :: 0 <= i < |kept| ==> kept[i] < |s.m.a2b| && s.m.a2b[kept[i]].Some?
    ensures Y.InRange(s.m, Y.Partners(s.m, kept)) && Y.Refs(s.m, Y.Partners(s.m, kept)) == Y.BaseRefs(kept)
  {
    forall i | 0 <= i < |kept| ensures s.m.a2b[kept[i]].value < |s.b| && s.Ref(s.m.a2b[kept[i]].value) == A(kept[i]) {
    }
  }

  /** Before placement, each list holds its staying children. */
  lemma {:induction false} BaseList(s: Case, q: nat)
    requires s.Ok() && Closed(Sel(s).parents) && q < |s.b|
    ensures Y.Target(s.m, s.b) && Y.ListIs(s.m, s.b, Retained(Nodes(s).children, Keep(s)), Stay(s), q)
  {
    TargetOk(s);
    Y.KidsOk(s.m, s.b, q);
    TargetLoaded(s, q);
    if s.m.b2a[q].None? {
      InsertLoaded(s, q);
      RetainedUnmatched(s, q);
    } else {
      BaseListMatched(s, s.m.b2a[q].value, q);
    }
  }

  lemma {:induction false} BaseListMatched(s: Case, x: nat, q: nat)
    requires s.Ok() && Closed(Sel(s).parents) && x < |s.a| && s.m.a2b[x] == Some(q) && Y.InRange(s.m, s.b[q].children)
    ensures A(x) in Nodes(s).children &&
      Retain(Nodes(s).children[A(x)], Keep(s)) == Y.ListOf(s.m, s.b[q].children, Stay(s))
  {
    NodesOk(s);
    assert BaseNode(s.a, Nodes(s), x);
    KeptRefs(s, x, q);
    assert ChildRefs(s.a[x]) == Y.BaseRefs(s.a[x].children);
  }

  lemma {:induction false} KeptRefs(s: Case, x: nat, q: nat)
    requires s.Ok() && Closed(Sel(s).parents) && x < |s.a| && s.m.a2b[x] == Some(q) && Y.InRange(s.m, s.b[q].children)
    ensures Retain(Y.BaseRefs(s.a[x].children), Keep(s)) == Y.ListOf(s.m, s.b[q].children, Stay(s))
  {
    var cs := s.a[x].children;
    var inc := set c | c in cs && c < |s.a| && s.m.a2b[c].Some? && !s.moved[c];
    KeptInc(s, x, inc);
    Y.RetainIsFilter(cs, Keep(s), inc);
    RetainedMatched(s, x, q, inc);
    PartnerRefs(s, Y.FilterIn(cs, inc));
  }

  lemma {:induction false} KeptInc(s: Case, x: nat, inc: set<nat>)
    requires s.Ok() && Closed(Sel(s).parents) && x < |s.a|
    requires forall c :: c in inc <==> c in s.a[x].children && c < |s.a| && s.m.a2b[c].Some? && !s.moved[c]
    ensures var cs := s.a[x].children; forall i :: 0 <= i < |cs| ==> (cs[i] in inc <==> A(cs[i]) in Keep(s))
  {
    var cs := s.a[x].children;
    assert ChildrenOk(s.a, x);
    forall i | 0 <= i < |cs| ensures cs[i] in inc <==> A(cs[i]) in Keep(s) { KeepIs(s, cs[i]); }
  }

  /** Target nodes placed by the first k operations. */
  function Done(s: Case, k: nat): set<nat>
    requires s.Ok() && k <= |s.raws|
  {
    set i | 0 <= i < k && U.IsPlacement(s.raws[i]) :: s.raws[i].b
  }

  /** Operation k comes after the placements of all earlier siblings. */
  lemma {:induction false} EarlierDone(s: Case, k: nat, z: nat)
    requires s.Ok() && k < |s.raws| && U.IsPlacement(s.raws[k]) && z < s.raws[k].b < |s.b| && s.Places(z)
    ensures z in Done(s, k)
  {
    PlacementLegal(s, z);
    var i :| 0 <= i < |s.raws| && s.raws[i] == RawFor(s, z);
    SortedBefore(s.raws, i, k);
  }

  lemma {:induction false} SortedBefore(raws: seq<C.Raw>, i: nat, k: nat)
    requires S.SortedBy(raws, U.KeyLe) && i < |raws| && k < |raws| && U.IsPlacement(raws[i]) &&
      U.IsPlacement(raws[k]) && raws[i].b < raws[k].b
    ensures i < k
  {
    assert k < i ==> U.KeyLe(raws[k], raws[i]);
  }

  lemma {:induction false} NotYetDone(s: Case, k: nat)
    requires s.Ok() && k < |s.raws| && U.IsPlacement(s.raws[k])
    ensures s.raws[k].b !in Done(s, k) && s.raws[k].b !in Stay(s)
  {
    OpFacts(s, k);
    if s.raws[k].b in Done(s, k) {
      var i :| 0 <= i < k && U.IsPlacement(s.raws[i]) && s.raws[i].b == s.raws[k].b;
      OpFacts(s, i);
      OpsDistinct(s, i, k);
    }
  }

  ghost function LayoutAt(s: Case, k: nat): Layout
    requires s.Ok() && Closed(Sel(s).parents) && k <= |s.ops|
  {
    PlaceAll(Retained(Nodes(s).children, Keep(s)), U.Changes(s.ops)[..k])
  }

  /** The layout after the first k operations: stayed and placed children, in target order. */
  ghost predicate Laid(s: Case, k: nat, layout: Layout)
    requires s.Ok() && k <= |s.ops|
  {
    && Y.Target(s.m, s.b) && Y.LaidOut(s.m, s.b, layout.children, Stay(s) + Done(s, k))
    && Y.TailsFrom(s.m, s.b, layout.tails, Done(s, k))
  }

  lemma {:induction false} LaysOutFrom(s: Case, start: Children, k: nat)
    requires s.Ok() && k <= |s.ops| && Laid(s, 0, PlaceAll(start, U.Changes(s.ops)[..0]))
    ensures Laid(s, k, PlaceAll(start, U.Changes(s.ops)[..k]))
  {
    if k > 0 {
      LaysOutFrom(s, start, k - 1);
      PlaceAllSnoc(start, s.ops, k);
      LaysOutStep(s, k - 1, PlaceAll(start, U.Changes(s.ops)[..k - 1]));
    }
  }

  lemma {:induction false} LaysOut(s: Case, k: nat)
    requires s.Ok() && Closed(Sel(s).parents) && k <= |s.ops|
    ensures Laid(s, k, LayoutAt(s, k))
  {
    LaysOutBase(s);
    LaysOutFrom(s, Retained(Nodes(s).children, Keep(s)), k);
  }

  lemma {:induction false} LaysOutBase(s: Case)
    requires s.Ok() && Closed(Sel(s).parents)
    ensures Laid(s, 0, LayoutAt(s, 0))
  {
    TargetOk(s);
    assert Stay(s) + Done(s, 0) == Stay(s);
    forall q | 0 <= q < |s.b| ensures Y.ListIs(s.m, s.b, LayoutAt(s, 0).children, Stay(s), q) { BaseList(s, q); }
  }

  lemma {:induction false} PlaceAllSnoc(start: Children, ops: seq<Op>, k: nat)
    requires 0 < k <= |ops|
    ensures PlaceAll(start, U.Changes(ops)[..k]) == PlaceOne(PlaceAll(start, U.Changes(ops)[..k - 1]), ops[k - 1])
  {
    var cs := U.Changes(ops);
    assert cs[..k][..k - 1] == cs[..k - 1];
  }

  lemma {:induction false} LaysOutStep(s: Case, k: nat, before: Layout)
    requires s.Ok() && k < |s.ops| && Laid(s, k, before)
    ensures Laid(s, k + 1, PlaceOne(before, s.ops[k]))
  {
    OpFacts(s, k);
    if s.ops[k].IsPlacement() {
      var y := s.raws[k].b;
      var q := s.b[y].parent.value;
      var pos: nat :| U.IsChildAt(s.b, q, pos, y) && U.SiblingsInRange(s.b, q) &&
        s.ops[k].after == U.After(s.m, s.b[q].children, pos);
      NotYetDone(s, k);
      EarlierSiblings(s, k, q, pos);
      Y.PlaceOneOk(s.m, s.b, before, Stay(s) + Done(s, k), Done(s, k), s.ops[k], y, q, pos);
      assert Done(s, k + 1) == Done(s, k) + {y};
      assert Stay(s) + Done(s, k) + {y} == Stay(s) + Done(s, k + 1);
    } else {
      assert Done(s, k + 1) == Done(s, k);
    }
  }

  lemma {:induction false} EarlierSiblings(s: Case, k: nat, q: nat, pos: nat)
    requires s.Ok() && k < |s.raws| && U.IsPlacement(s.raws[k]) && s.raws[k].b < |s.b| &&
      U.IsChildAt(s.b, q, pos, s.raws[k].b)
    ensures forall i :: 0 <= i < pos ==> s.b[q].children[i] in Stay(s) + Done(s, k)
  {
    assert ChildrenOk(s.b, q);
    forall i | 0 <= i < pos ensures s.b[q].children[i] in Stay(s) + Done(s, k) {
      var z := s.b[q].children[i];
      if s.Places(z) { EarlierDone(s, k, z); }
    }
  }

  /** After all placements every child list is the target's. */
  lemma {:induction false} FinalList(s: Case, q: nat)
    requires s.Ok() && Closed(Sel(s).parents) && q < |s.b|
    ensures Y.InRange(s.m, s.b[q].children) && s.Ref(q) in LayoutAt(s, |s.ops|).children
    ensures LayoutAt(s, |s.ops|).children[s.Ref(q)] == Y.Refs(s.m, s.b[q].children)
  {
    LaysOut(s, |s.ops|);
    Y.KidsOk(s.m, s.b, q);
    assert ChildrenOk(s.b, q);
    var inc := Stay(s) + Done(s, |s.ops|);
    assert Y.ListIs(s.m, s.b, LayoutAt(s, |s.ops|).children, inc, q);
    forall i | 0 <= i < |s.b[q].children| ensures s.b[q].children[i] in inc {
      var z := s.b[q].children[i];
      if s.Places(z) { AllDone(s, z); }
    }
    Y.FilterAll(s.b[q].children, inc);
  }

  lemma {:induction false} AllDone(s: Case, z: nat)
    requires s.Ok() && z < |s.b| && s.Places(z)
    ensures z in Done(s, |s.ops|)
  {
    PlacementLegal(s, z);
    var i :| 0 <= i < |s.raws| && s.raws[i] == RawFor(s, z);
    assert U.IsPlacement(s.raws[i]) && s.raws[i].b == z;
  }

  // ----- shells ------------------------------------------------------------

  lemma {:induction false} PayloadMember(cs: seq<Change>, n: NodeRef, op: Op)
    ensures op in PayloadOps(cs, n) <==> op.IsPayload() && op.node == n && exists i :: 0 <= i < |cs| && cs[i].op == op
  {
    if cs != [] {
      var k := |cs| - 1;
      PayloadMember(cs[..k], n, op);
      assert forall i :: 0 <= i < k ==> cs[..k][i] == cs[i];
      if op in PayloadOps(cs[..k], n) {
        var i :| 0 <= i < k && cs[..k][i].op == op;
        assert cs[i].op == op;
      }
      if i :| 0 <= i < |cs| && cs[i].op == op {
        if i < k { assert cs[..k][i].op == op; }
      }
    }
  }

  /** Operations of one node differ in being about attributes or text. */
  predicate Alternate(ops: seq<Op>) {
    forall i, j :: 0 <= i < j < |ops| ==> ops[i].SetAttrs? != ops[j].SetAttrs?
  }

  lemma {:induction false} AtMostTwo(ops: seq<Op>)
    requires Alternate(ops)
    ensures |ops| <= 2
  {
    TwoOfThree(AboutAttrs(ops, 0), AboutAttrs(ops, 1), AboutAttrs(ops, 2));
  }

  predicate AboutAttrs(ops: seq<Op>, i: nat) {
    i < |ops| && ops[i].SetAttrs?
  }

  lemma {:induction false} TwoOfThree(p: bool, q: bool, r: bool)
    ensures p == q || q == r || p == r
  {
  }

  /** Two payload operations of one node are not of the same sort. */
  lemma {:induction false} PayloadKinds(s: Case, i: nat, j: nat)
    requires s.Ok() && i < j < |s.ops| && s.ops[i].IsPayload() && s.ops[j].IsPayload() && s.ops[i].node == s.ops[j].node
    ensures s.ops[i].SetAttrs? != s.ops[j].SetAttrs?
  {
    OpFacts(s, i);
    OpFacts(s, j);
    assert s.raws[i] != s.raws[j];
  }

  lemma {:induction false} PayloadAlternate(s: Case, n: NodeRef, k: nat)
    requires s.Ok() && k <= |s.ops|
    ensures Alternate(PayloadOps(U.Changes(s.ops)[..k], n))
  {
    if k > 0 {
      PayloadAlternate(s, n, k - 1);
      AlternateNext(s, n, k);
    }
  }

  lemma {:induction false} AlternateNext(s: Case, n: NodeRef, k: nat)
    requires s.Ok() && 0 < k <= |s.ops| && Alternate(PayloadOps(U.Changes(s.ops)[..k - 1], n))
    ensures Alternate(PayloadOps(U.Changes(s.ops)[..k], n))
  {
    PayloadSnoc(s.ops, n, k);
    if s.ops[k - 1].IsPayload() && s.ops[k - 1].node == n {
      var front := PayloadOps(U.Changes(s.ops)[..k - 1], n);
      AllDiffer(s, n, k - 1, front);
      AlternateSnoc(front, s.ops[k - 1]);
    }
  }

  predicate Differ(front: seq<Op>, op: Op) {
    forall i :: 0 <= i < |front| ==> front[i].SetAttrs? != op.SetAttrs?
  }

  lemma {:induction false} AllDiffer(s: Case, n: NodeRef, k: nat, front: seq<Op>)
    requires s.Ok() && k < |s.ops| && s.ops[k].IsPayload() && s.ops[k].node == n
    requires front == PayloadOps(U.Changes(s.ops)[..k], n)
    ensures Differ(front, s.ops[k])
  {
    forall i | 0 <= i < |front| ensures front[i].SetAttrs? != s.ops[k].SetAttrs? { PayloadNext(s, n, k, front[i]); }
  }

  lemma {:induction false} PayloadSnoc(ops: seq<Op>, n: NodeRef, k: nat)
    requires 0 < k <= |ops|
    ensures var front := PayloadOps(U.Changes(ops)[..k - 1], n);
      PayloadOps(U.Changes(ops)[..k], n) == if ops[k - 1].IsPayload() && ops[k - 1].node == n
        then front + [ops[k - 1]] else front
  {
    var cs := U.Changes(ops);
    assert cs[..k][..k - 1] == cs[..k - 1];
  }

  lemma {:induction false} AlternateSnoc(front: seq<Op>, op: Op)
    requires Alternate(front) && Differ(front, op)
    ensures Alternate(front + [op])
  {}

  lemma {:induction false} PayloadNext(s: Case, n: NodeRef, k: nat, op: Op)
    requires s.Ok() && k < |s.ops| && s.ops[k].IsPayload() && s.ops[k].node == n &&
      op in PayloadOps(U.Changes(s.ops)[..k], n)
    ensures op.SetAttrs? != s.ops[k].SetAttrs?
  {
    var front := U.Changes(s.ops)[..k];
    PayloadMember(front, n, op);
    var j :| 0 <= j < |front| && front[j].op == op;
    assert front[j] == U.Changes(s.ops)[j];
    PayloadKinds(s, j, k);
  }

  lemma {:induction false} PayloadAt(s: Case, n: NodeRef, op: Op) returns (i: nat)
    requires s.Ok() && op in PayloadOps(U.Changes(s.ops), n)
    ensures i < |s.ops| && s.ops[i] == op && op.IsPayload() && op.node == n
  {
    PayloadMember(U.Changes(s.ops), n, op);
    i :| 0 <= i < |s.ops| && U.Changes(s.ops)[i].op == op;
  }

  lemma {:induction false} PayloadListed(s: Case, r: C.Raw) returns (op: Op)
    requires s.Ok() && C.RawOk(s.a, s.b, s.m, s.moved, r) && !U.IsPlacement(r) && !r.Delete?
    ensures op in PayloadOps(U.Changes(s.ops), A(r.a)) && (op.SetAttrs? <==> r.SetAttrs?)
  {
    assert r in s.raws;
    var i :| 0 <= i < |s.raws| && s.raws[i] == r;
    OpFacts(s, i);
    op := s.ops[i];
    assert U.Changes(s.ops)[i].op == op;
    PayloadMember(U.Changes(s.ops), A(r.a), op);
  }

  /** One operation from shell f towards shell t. */
  ghost predicate OpLeads(f: Shell, t: Shell, op: Op) {
    match op
    case SetAttrs(_, o, n) => o == f.attrs && n == t.attrs && f.attrs != t.attrs
    case Modify(_, es, o, n) =>
      f.text == Some(o) && t.text == Some(n) && o.x != n.x && K.T.Apply(o.x, es) == K.T.Ok(n.x)
    case Format(_, o, n) =>
      && f.text.Some? && t.text.Some? && f.text.value.x == t.text.value.x
      && o == f.text.value.f && n == t.text.value.f && o != n
    case _ => true
  }

  lemma {:induction false} LeadsFrom(ops: seq<Op>, n: NodeRef, f: Shell, t: Shell)
    requires Alternate(ops) && forall op :: op in ops ==> op.node == n && op.IsPayload() && OpLeads(f, t, op)
    requires f.attrs != t.attrs ==> exists op :: op in ops && op.SetAttrs?
    requires f.text != t.text ==> exists op :: op in ops && !op.SetAttrs?
    ensures K.Leads(ops, n, f, t)
  {
    AtMostTwo(ops);
  }

  lemma {:induction false} PayloadOpLeads(s: Case, x: nat, y: nat, op: Op)
    requires s.Ok() && x < |s.a| && s.m.a2b[x] == Some(y) && op in PayloadOps(U.Changes(s.ops), A(x))
    ensures op.node == A(x) && op.IsPayload() && OpLeads(s.a[x].shell, s.b[y].shell, op)
  {
    var i := PayloadAt(s, A(x), op);
    OpFacts(s, i);
    assert s.raws[i].a == x && s.raws[i].b == y;
  }

  /** The payload operations of a matched node lead to the shell of its partner. */
  lemma {:induction false} PayloadLeads(s: Case, x: nat, y: nat)
    requires s.Ok() && x < |s.a| && s.m.a2b[x] == Some(y)
    ensures K.Leads(PayloadOps(U.Changes(s.ops), A(x)), A(x), s.a[x].shell, s.b[y].shell)
  {
    var cs := U.Changes(s.ops);
    var ops := PayloadOps(cs, A(x));
    PayloadAlternate(s, A(x), |s.ops|);
    assert cs[..|s.ops|] == cs;
    forall op | op in ops ensures op.node == A(x) && op.IsPayload() && OpLeads(s.a[x].shell, s.b[y].shell, op) {
      PayloadOpLeads(s, x, y, op);
    }
    AttrsListed(s, x, y);
    TextListed(s, x, y);
    LeadsFrom(ops, A(x), s.a[x].shell, s.b[y].shell);
  }

  lemma {:induction false} AttrsListed(s: Case, x: nat, y: nat)
    requires s.Ok() && x < |s.a| && s.m.a2b[x] == Some(y)
    ensures s.a[x].shell.attrs != s.b[y].shell.attrs ==>
      exists op :: op in PayloadOps(U.Changes(s.ops), A(x)) && op.SetAttrs?
  {
    if s.a[x].shell.attrs != s.b[y].shell.attrs {
      var op := PayloadListed(s, C.SetAttrs(x, y));
    }
  }

  lemma {:induction false} TextListed(s: Case, x: nat, y: nat)
    requires s.Ok() && x < |s.a| && s.m.a2b[x] == Some(y)
    ensures s.a[x].shell.text != s.b[y].shell.text ==>
      exists op :: op in PayloadOps(U.Changes(s.ops), A(x)) && !op.SetAttrs?
  {
    assert NodeOk(s.a[x]) && NodeOk(s.b[y]);
    if s.a[x].shell.text != s.b[y].shell.text {
      if s.a[x].shell.text.value.x != s.b[y].shell.text.value.x {
        var op := PayloadListed(s, C.Modify(x, y));
      } else {
        var op := PayloadListed(s, C.Format(x, y));
      }
    }
  }

  lemma {:induction false} NoPayload(s: Case, n: NodeRef)
    requires s.Ok() && (n.B? || n.i >= |s.a| || s.m.a2b[n.i].None?)
    ensures PayloadOps(U.Changes(s.ops), n) == []
  {
    var ops := PayloadOps(U.Changes(s.ops), n);
    if ops != [] {
      var i := PayloadAt(s, n, ops[0]);
      OpFacts(s, i);
    }
  }

  /** All payloads compose. */
  lemma {:induction false} AllCompose(s: Case, n: NodeRef)
    requires s.Ok() && n in Nodes(s).shells && PayloadOps(U.Changes(s.ops), n) != []
    ensures K.Composed(Nodes(s).shells[n], PayloadOps(U.Changes(s.ops), n)).Ok?
  {
    if n.A? && n.i < |s.a| && s.m.a2b[n.i].Some? {
      MatchedShell(s, n.i, s.m.a2b[n.i].value);
    } else {
      NoPayload(s, n);
    }
  }

  lemma {:induction false} MatchedShell(s: Case, x: nat, y: nat)
    requires s.Ok() && x < |s.a| && s.m.a2b[x] == Some(y)
    ensures A(x) in Nodes(s).shells &&
      K.Composed(Nodes(s).shells[A(x)], PayloadOps(U.Changes(s.ops), A(x))) == K.Ok(s.b[y].shell)
    ensures PayloadOps(U.Changes(s.ops), A(x)) == [] ==> Nodes(s).shells[A(x)] == s.b[y].shell
  {
    NodesOk(s);
    assert BaseNode(s.a, Nodes(s), x) && NodeOk(s.a[x]) && NodeOk(s.b[y]);
    PayloadLeads(s, x, y);
    K.ComposedReaches(PayloadOps(U.Changes(s.ops), A(x)), A(x), s.a[x].shell, s.b[y].shell);
  }

  lemma {:induction false} AllShellsCompose(s: Case)
    requires s.Ok()
    ensures ShellsCompose(Nodes(s).shells, Sel(s).chosen)
  {
    AllChosen(s);
    forall n | n in Nodes(s).shells && PayloadOps(U.Changes(s.ops), n) != []
      ensures K.Composed(Nodes(s).shells[n], PayloadOps(U.Changes(s.ops), n)).Ok?
    {
      AllCompose(s, n);
    }
  }

  lemma {:induction false} FinalShell(s: Case, y: nat)
    requires s.Ok() && y < |s.b| && ShellsCompose(Nodes(s).shells, U.Changes(s.ops))
    ensures s.Ref(y) in Nodes(s).shells && FinalShells(Nodes(s).shells, U.Changes(s.ops))[s.Ref(y)] == s.b[y].shell
  {
    if s.m.b2a[y].Some? {
      MatchedShell(s, s.m.b2a[y].value, y);
    } else {
      InsertLoaded(s, y);
      NoPayload(s, B(y));
    }
  }

  // ----- the document ------------------------------------------------------

  lemma {:induction false} EmitListAt(st: Final, n: NodeRef, k: nat, i: nat)
    requires st.Shaped() && st.IsLive(n) && i < k <= |st.children[n]|
    ensures st.IsLive(st.children[n][i]) && EmitList(st, n, k)[i] == Emit(st, st.children[n][i])
    decreases k
  {
    ChildDeeper(st, n, st.children[n][k - 1]);
    if i < k - 1 { EmitListAt(st, n, k - 1, i); }
  }

  /** The structure shows node q of b under the name refs[q]. */
  ghost predicate Shows(st: Final, b: Tree, refs: seq<NodeRef>, q: nat) {
    && q < |b| == |refs| && st.IsLive(refs[q]) && refs[q] in st.shells && st.shells[refs[q]] == b[q].shell
    && refs[q] in st.children && |st.children[refs[q]]| == |b[q].children|
    && forall i :: 0 <= i < |b[q].children| ==>
      b[q].children[i] < |b| && st.children[refs[q]][i] == refs[b[q].children[i]]
  }

  lemma {:induction false} EmitsDoc(st: Final, b: Tree, refs: seq<NodeRef>, q: nat)
    requires WellFormed(b) && st.Shaped() && q < |b| == |refs|
    requires forall z :: 0 <= z < |b| ==> Shows(st, b, refs, z)
    ensures st.IsLive(refs[q]) && Emit(st, refs[q]) == DocAt(b, q)
    decreases |b| - q
  {
    assert Shows(st, b, refs, q) && ChildrenOk(b, q);
    var n := refs[q];
    var kids := b[q].children;
    assert st.ListsOk(n);
    var out := EmitList(st, n, |kids|);
    forall i | 0 <= i < |kids| ensures out[i] == DocAt(b, kids[i]) {
      EmitListAt(st, n, |kids|, i);
      EmitsDoc(st, b, refs, kids[i]);
    }
    assert out == DocAt(b, q).children;
  }

  /** The final structure after accepting everything. */
  ghost function Outcome(s: Case): Final
    requires s.Ok()
  {
    SelFacts(s);
    AllShellsCompose(s);
    FinalOf(Nodes(s), s.G(), s.Everything())
  }

  lemma {:induction false} OutcomeShows(s: Case, q: nat)
    requires s.Ok() && q < |s.b|
    ensures Shows(Outcome(s), s.b, AllRefs(s.m), q)
  {
    SelFacts(s);
    AllChosen(s);
    AllShellsCompose(s);
    assert U.Changes(s.ops)[..|s.ops|] == U.Changes(s.ops);
    FinalList(s, q);
    FinalShell(s, q);
    var k := TargetSurvives(s, q);
    DepthIs(Outcome(s), s.Ref(q), k);
    assert ChildrenOk(s.b, q);
  }

  /** Accepting every change of the graph built from any matching of a and b resolves to b. */
  lemma {:induction false} AcceptAllYieldsTarget(s: Case)
    requires s.Ok()
    ensures GraphOk(s.a, s.G(), s.Everything())
    ensures Resolved(s.a, Nodes(s), s.G(), s.Everything())
    ensures ShellsCompose(Nodes(s).shells, Sel(s).chosen)
    ensures Outcome(s).Shaped() && Outcome(s).IsLive(ROOT) && Emit(Outcome(s), ROOT) == ToDoc(s.b)
  {
    GraphPasses(s, s.Everything());
    AllResolved(s);
    AllShellsCompose(s);
    ResolvedIsTree(s.a, Nodes(s), s.G(), s.Everything());
    forall q | 0 <= q < |s.b| ensures Shows(Outcome(s), s.b, AllRefs(s.m), q) { OutcomeShows(s, q); }
    EmitsDoc(Outcome(s), s.b, AllRefs(s.m), 0);
    RootParent(s);
  }
}
