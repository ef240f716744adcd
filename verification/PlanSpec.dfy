/** What planning a selection of changes means: validation, survivors, placement, emission. */
module PlanSpec {
  import opened Options
  import opened Model
  import opened Trees
  import opened Graphs
  import K = Compose

  type Parents = map<NodeRef, Option<NodeRef>>
  type Children = map<NodeRef, seq<NodeRef>>
  type Shells = map<NodeRef, Shell>

  datatype PlanError =
    | InvalidGraph
    | BaseMismatch
    | UnknownChange(id: ChangeId)
    | InvalidReference(node: NodeRef)
    | Unresolved(groups: set<set<ChangeId>>)
    | Payload(error: K.Error)

  // ----- loading the base tree and the inserts -----------------------------

  const ROOT := A(0)

  /** The working nodes: the base tree and every proposed insert. */
  datatype Loaded = Loaded(parents: Parents, children: Children, shells: Shells,
    inserts: map<NodeRef, ChangeId>, ids: set<ChangeId>)

  function ParentRef(n: Node): Option<NodeRef> {
    match n.parent case None => None case Some(p) => Some(A(p))
  }

  function ChildRefs(n: Node): seq<NodeRef> {
    seq(|n.children|, i requires 0 <= i < |n.children| => A(n.children[i]))
  }

  function LoadBase(a: Tree): Loaded {
    Loaded(map i | 0 <= i < |a| :: A(i) := ParentRef(a[i]),
           map i | 0 <= i < |a| :: A(i) := ChildRefs(a[i]),
           map i | 0 <= i < |a| :: A(i) := a[i].shell,
           map[], {})
  }

  function LoadOne(l: Loaded, c: Change): Option<Loaded> {
    if c.id in l.ids then None
    else if !c.op.Insert? then Some(l.(ids := l.ids + {c.id}))
    else if !c.op.node.B? || c.op.node in l.shells then None
    else Some(Loaded(l.parents[c.op.node := Some(c.op.parent)], l.children[c.op.node := []],
      l.shells[c.op.node := c.op.shell],
                     l.inserts[c.op.node := c.id], l.ids + {c.id}))
  }

  /** None for a repeated change id or an insert that is not a fresh node. */
  function Load(a: Tree, changes: seq<Change>): Option<Loaded> {
    if changes == [] then Some(LoadBase(a))
    else
      match Load(a, changes[..|changes| - 1])
      case None => None
      case Some(l) => LoadOne(l, changes[|changes| - 1])
  }

  // ----- validating references ---------------------------------------------

  predicate AnchorsKnown(l: Loaded, after: seq<Anchor>) {
    forall i :: 0 <= i < |after| && after[i].At? ==> after[i].node in l.shells
  }

  /** The first anchor that names no node. */
  function UnknownAnchor(l: Loaded, after: seq<Anchor>): NodeRef
    requires !AnchorsKnown(l, after)
  {
    if after[0].At? && after[0].node !in l.shells then after[0].node
    else UnknownAnchor(l, after[1..])
  }

  function CheckChange(l: Loaded, c: Change): Option<PlanError> {
    var n := c.op.node;
    if n !in l.shells then Some(InvalidReference(n))
    else if !K.PayloadOk(c.op, l.shells[n]) then Some(InvalidGraph)
    else if !c.op.Insert? && !n.A? then Some(InvalidReference(n))
    else if c.op.IsPlacement() && c.op.parent !in l.shells then Some(InvalidReference(c.op.parent))
    else if c.op.IsPlacement() && IsLeaf(l.shells[c.op.parent].kind) then Some(InvalidGraph)
    else if c.op.IsPlacement() && (c.op.after == [] || c.op.after[|c.op.after| - 1] != Start) then Some(InvalidGraph)
    else if c.op.IsPlacement() && !AnchorsKnown(l, c.op.after) then Some(InvalidReference(UnknownAnchor(l, c.op.after)))
    else if n == ROOT && (c.op.Delete? || c.op.IsPlacement()) then Some(InvalidGraph)
    else None
  }

  /** A change that passed validation. */
  predicate ChangeOk(l: Loaded, c: Change) {
    CheckChange(l, c).None?
  }

  predicate ConflictsOk(l: Loaded, conflicts: seq<seq<ChangeId>>) {
    forall i :: 0 <= i < |conflicts| ==>
      |Elements(conflicts[i])| >= 2 && forall id :: id in conflicts[i] ==> id in l.ids
  }

  function Elements<T>(s: seq<T>): set<T> {
    set x | x in s
  }

  /** Everything that is checked before the selection is resolved. */
  predicate GraphOk(a: Tree, g: Graph, accepted: set<ChangeId>)
    requires WellFormed(a)
  {
    && g.v == GRAPH_VERSION && g.algo == ALGO_VERSION && g.source == ToDoc(a)
    && var l := Load(a, g.changes);
       && l.Some? && accepted <= l.value.ids
       && (forall i :: 0 <= i < |g.changes| ==> ChangeOk(l.value, g.changes[i]))
       && ConflictsOk(l.value, g.explicitConflicts)
  }

  // ----- the selection -----------------------------------------------------

  /** Accepted changes in graph order. */
  function Chosen(changes: seq<Change>, accepted: set<ChangeId>): seq<Change> {
    if changes == [] then []
    else
      var front := Chosen(changes[..|changes| - 1], accepted);
      var c := changes[|changes| - 1];
      if c.id in accepted then front + [c] else front
  }

  /** Final parents: each accepted placement overrides. */
  function FinalParents(parents: Parents, chosen: seq<Change>): Parents {
    if chosen == [] then parents
    else
      var front := FinalParents(parents, chosen[..|chosen| - 1]);
      var c := chosen[|chosen| - 1];
      if c.op.IsPlacement() then front[c.op.node := Some(c.op.parent)] else front
  }

  function Deleted(chosen: seq<Change>): map<NodeRef, ChangeId> {
    if chosen == [] then map[]
    else
      var front := Deleted(chosen[..|chosen| - 1]);
      var c := chosen[|chosen| - 1];
      if c.op.Delete? then front[c.op.node := c.id] else front
  }

  /** Inserts that were not accepted. */
  function Unaccepted(inserts: map<NodeRef, ChangeId>, accepted: set<ChangeId>): map<NodeRef, ChangeId> {
    map n | n in inserts && inserts[n] !in accepted :: inserts[n]
  }

  /** Accepted placements of one node. */
  function Structural(chosen: seq<Change>, n: NodeRef): set<ChangeId> {
    set c | c in chosen && c.op.IsPlacement() && c.op.node == n :: c.id
  }

  // ----- survivors ---------------------------------------------------------

  predicate Closed(parents: Parents) {
    forall n :: n in parents && parents[n].Some? ==> parents[n].value in parents
  }

  datatype Fate = Live | Dead | Cyclic

  /** Follow the parents of n until the root, a blocked node or a node already on the path. */
  function Walk(parents: Parents, blocked: set<NodeRef>, n: Option<NodeRef>, path: set<NodeRef>): Fate
    requires Closed(parents) && (n.Some? ==> n.value in parents)
    decreases parents.Keys - path
  {
    match n
    case None => Live
    case Some(r) =>
      if r in path then Cyclic
      else if r in blocked then Dead
      else Walk(parents, blocked, parents[r], path + {r})
  }

  /** All nodes on the way up from n. */
  function Visited(parents: Parents, n: Option<NodeRef>, seen: set<NodeRef>): set<NodeRef>
    requires Closed(parents) && (n.Some? ==> n.value in parents)
    decreases parents.Keys - seen
  {
    match n
    case None => seen
    case Some(r) => if r in seen then seen else Visited(parents, parents[r], seen + {r})
  }

  function Survivors(parents: Parents, blocked: set<NodeRef>): set<NodeRef>
    requires Closed(parents)
  {
    set n | n in parents && Walk(parents, blocked, Some(n), {}) == Live
  }

  // ----- unresolved groups -------------------------------------------------

  /** The selection with everything resolving it needs. */
  datatype Selection = Selection(
    chosen: seq<Change>, accepted: set<ChangeId>, conflicts: seq<seq<ChangeId>>,
    parents: Parents, inserts: map<NodeRef, ChangeId>, deleted: map<NodeRef, ChangeId>)
  {
    function Missing(): map<NodeRef, ChangeId> { Unaccepted(inserts, accepted) }

    function Blocked(): set<NodeRef> { deleted.Keys + Missing().Keys }

    function Conflicting(): set<set<ChangeId>> {
      set g | g in conflicts && Elements(g) <= accepted :: Elements(g)
    }

    /** Placements under an insert that was not accepted. */
    function Orphaned(): set<set<ChangeId>> {
      set c | c in chosen && c.op.IsPlacement() && c.op.parent in Missing() :: {c.id, Missing()[c.op.parent]}
    }

    /** Nodes placed more than once. */
    function Ambiguous(): set<set<ChangeId>> {
      set c | c in chosen && c.op.IsPlacement() && |Structural(chosen, c.op.node)| > 1 :: Structural(chosen, c.op.node)
    }

    function On(path: set<NodeRef>): set<ChangeId> {
      set c | c in chosen && c.op.IsPlacement() && c.op.node in path :: c.id
    }

    function Cycles(): set<set<ChangeId>>
      requires Closed(parents)
    {
      set n | n in parents && n !in Missing() && Walk(parents, Blocked(), Some(n), {}) == Cyclic ::
        On(Visited(parents, Some(n), {}))
    }

    /** A change on a node that does not survive, with what removed it. */
    function DeadGroup(c: Change): set<ChangeId>
      requires Closed(parents) && c.op.node in parents
    {
      var path := Visited(parents, Some(c.op.node), {});
      {c.id} + (set n | n in path && n in deleted :: deleted[n]) + (set n | n in path && n in Missing() :: Missing()[n])
    }

    function DeadTargets(): set<set<ChangeId>>
      requires Closed(parents) && NodesKnown()
    {
      set c | c in chosen && !c.op.Delete? && c.op.node !in Survivors(parents, Blocked()) :: DeadGroup(c)
    }

    predicate NodesKnown() {
      forall c :: c in chosen ==> c.op.node in parents
    }

    /** Everything that keeps the selection from being applied. */
    function Groups(): set<set<ChangeId>>
      requires Closed(parents) && NodesKnown()
    {
      Conflicting() + Orphaned() + Ambiguous() + Cycles() + DeadTargets()
    }
  }

  function Select(l: Loaded, g: Graph, accepted: set<ChangeId>): Selection {
    var chosen := Chosen(g.changes, accepted);
    Selection(chosen, accepted, g.explicitConflicts, FinalParents(l.parents, chosen), l.inserts, Deleted(chosen))
  }

  // ----- placement ---------------------------------------------------------

  /** Nodes with an accepted placement. */
  function MovedNodes(chosen: seq<Change>): set<NodeRef> {
    set c | c in chosen && c.op.IsPlacement() :: c.op.node
  }

  /** Keep the children that survive and are not placed anew. */
  function Retain(s: seq<NodeRef>, keep: set<NodeRef>): (r: seq<NodeRef>)
    ensures forall x :: x in r <==> x in s && x in keep
  {
    if s == [] then []
    else
      var front := Retain(s[..|s| - 1], keep);
      assert s == s[..|s| - 1] + [s[|s| - 1]];
      if s[|s| - 1] in keep then front + [s[|s| - 1]] else front
  }

  /** The first anchor present in the list; None at the start marker. */
  function Resolve(after: seq<Anchor>, list: seq<NodeRef>): (r: Option<NodeRef>)
    ensures r.Some? ==> r.value in list
  {
    if after == [] || after[0].Start? then None
    else if after[0].node in list then Some(after[0].node)
    else Resolve(after[1..], list)
  }

  function IndexOf(list: seq<NodeRef>, r: NodeRef): (i: nat)
    requires r in list
    ensures i < |list| && list[i] == r
  {
    if list[0] == r then 0 else 1 + IndexOf(list[1..], r)
  }

  type Key = (NodeRef, Option<NodeRef>)

  /** Child lists and, per parent and resolved anchor, the node placed last. */
  datatype Layout = Layout(children: Children, tails: map<Key, NodeRef>)

  function Effective(list: seq<NodeRef>, tails: map<Key, NodeRef>, key: Key): (r: Option<NodeRef>)
    requires key.1.Some? ==> key.1.value in list
    ensures r.Some? ==> r.value in list
  {
    if key in tails && tails[key] in list then Some(tails[key]) else key.1
  }

  function InsertAfter(list: seq<NodeRef>, r: Option<NodeRef>, n: NodeRef): seq<NodeRef>
    requires r.Some? ==> r.value in list
  {
    var i := match r case None => 0 case Some(x) => IndexOf(list, x) + 1;
    list[..i] + [n] + list[i..]
  }

  function PlaceOne(s: Layout, op: Op): Layout {
    if !op.IsPlacement() || op.parent !in s.children then s
    else
      var list := s.children[op.parent];
      var key := (op.parent, Resolve(op.after, list));
      Layout(s.children[op.parent := InsertAfter(list, Effective(list, s.tails, key), op.node)],
        s.tails[key := op.node])
  }

  function PlaceAll(children: Children, chosen: seq<Change>): Layout {
    if chosen == [] then Layout(children, map[])
    else PlaceOne(PlaceAll(children, chosen[..|chosen| - 1]), chosen[|chosen| - 1].op)
  }

  function Retained(children: Children, keep: set<NodeRef>): Children {
    map p | p in children :: Retain(children[p], keep)
  }

  // ----- shells ------------------------------------------------------------

  /** Accepted payload changes of one node, in graph order. */
  function PayloadOps(chosen: seq<Change>, n: NodeRef): seq<Op> {
    if chosen == [] then []
    else
      var front := PayloadOps(chosen[..|chosen| - 1], n);
      var op := chosen[|chosen| - 1].op;
      if op.IsPayload() && op.node == n then front + [op] else front
  }

  predicate ShellsCompose(shells: Shells, chosen: seq<Change>) {
    forall n :: n in shells && PayloadOps(chosen, n) != [] ==> K.Composed(shells[n], PayloadOps(chosen, n)).Ok?
  }

  function FinalShells(shells: Shells, chosen: seq<Change>): Shells
    requires ShellsCompose(shells, chosen)
  {
    map n | n in shells :: if PayloadOps(chosen, n) == [] then shells[n]
      else K.Composed(shells[n], PayloadOps(chosen, n)).value
  }
}
