/** From a matching to a change graph. */
module Build {
  import opened Options
  import opened Model
  import opened Trees
  import opened Graphs
  import C = Classify
  import S = Sorting
  import T = TextDiff

  /** How the graph names a node of the target tree. */
  function BRef(m: C.Pairing, y: nat): NodeRef
    requires y < |m.b2a|
  {
    match m.b2a[y]
    case Some(x) => A(x)
    case None => B(y)
  }

  /** The anchors of the child at position pos: its predecessors, nearest first, then the start. */
  function After(m: C.Pairing, siblings: seq<nat>, pos: nat): seq<Anchor>
    requires pos <= |siblings| && forall i :: 0 <= i < |siblings| ==> siblings[i] < |m.b2a|
  {
    seq(pos, i requires 0 <= i < pos => At(BRef(m, siblings[pos - 1 - i]))) + [Start]
  }

  predicate IsChildAt(b: Tree, q: nat, pos: nat, y: nat) {
    q < |b| && pos < |b[q].children| && b[q].children[pos] == y
  }

  /** `op` is the operation for the raw change r. */
  ghost predicate OpFor(a: Tree, b: Tree, m: C.Pairing, r: C.Raw, op: Op)
    requires C.Inputs(a, b, m)
  {
    match r
    case Move(x, y) => op.Move? && op.node == A(x) && Placed(b, m, y, op)
    case Insert(y) => op.Insert? && op.node == B(y) && y < |b| && op.shell == b[y].shell && Placed(b, m, y, op)
    case Delete(x) => op == Op.Delete(A(x))
    case Modify(x, y) =>
      x < |a| && y < |b| && op.Modify? && op.node == A(x) && a[x].shell.text == Some(op.before) &&
        b[y].shell.text == Some(op.now) &&
      T.Apply(op.before.x, op.edits) == T.Ok(op.now.x)
    case Format(x, y) =>
      x < |a| && y < |b| && a[x].shell.text.Some? && b[y].shell.text.Some? &&
        op == Op.Format(A(x), a[x].shell.text.value.f, b[y].shell.text.value.f)
    case SetAttrs(x, y) => x < |a| && y < |b| && op == Op.SetAttrs(A(x), a[x].shell.attrs, b[y].shell.attrs)
  }

  /** The placement puts node y of the target under its parent, after its predecessors. */
  ghost predicate Placed(b: Tree, m: C.Pairing, y: nat, op: Op)
    requires WellFormed(b) && |m.b2a| == |b| && op.IsPlacement()
  {
    && 0 < y < |b| && b[y].parent.Some? && b[y].parent.value < |b|
    && var q := b[y].parent.value;
       && op.parent == BRef(m, q)
       && exists pos :: IsChildAt(b, q, pos, y) && SiblingsInRange(b, q) && op.after == After(m, b[q].children, pos)
  }

  predicate SiblingsInRange(b: Tree, q: nat) {
    q < |b| && forall i :: 0 <= i < |b[q].children| ==> b[q].children[i] < |b|
  }

  // ----- operation order ---------------------------------------------------

  predicate IsPlacement(r: C.Raw) { r.Move? || r.Insert? }

  /** Placements first, in target order; the rest keeps its order. */
  predicate KeyLe(r: C.Raw, s: C.Raw) {
    (IsPlacement(r) && IsPlacement(s) && r.b <= s.b) || !IsPlacement(s)
  }

  lemma {:induction false} KeyOrder()
    ensures S.TotalPreorder(KeyLe)
  {
  }

  /** Operations for the legal raw changes, each once, placements in target order. */
  ghost predicate BuiltFrom(a: Tree, b: Tree, m: C.Pairing, moved: seq<bool>, raws: seq<C.Raw>, ops: seq<Op>)
    requires C.Inputs(a, b, m) && |moved| == |a|
  {
    && |ops| == |raws|
    && S.Distinct(raws)
    && (forall r :: r in raws <==> C.RawOk(a, b, m, moved, r))
    && S.SortedBy(raws, KeyLe)
    && (forall i :: 0 <= i < |raws| ==> OpFor(a, b, m, raws[i], ops[i]))
  }

  function Changes(ops: seq<Op>): seq<Change> {
    seq(|ops|, i requires 0 <= i < |ops| => Change(Digest(ops[i]), ops[i]))
  }

  function GraphOf(a: Tree, ops: seq<Op>): Graph
    requires WellFormed(a)
  {
    Graph(GRAPH_VERSION, ALGO_VERSION, ToDoc(a), Changes(ops), [])
  }

  lemma {:induction false} PositionOf(b: Tree, ord: seq<nat>, y: nat)
    requires WellFormed(b) && C.OrdOk(b, ord) && 0 < y < |b|
    ensures b[y].parent.Some? && IsChildAt(b, b[y].parent.value, ord[y], y) && SiblingsInRange(b, b[y].parent.value)
  {
    assert ParentOk(b, y);
    var q := b[y].parent.value;
    assert ChildrenOk(b, q);
    var i :| 0 <= i < |b[q].children| && b[q].children[i] == y;
  }

  /** The edits of a modification leave as much of the text in place as the budget affords. */
  ghost predicate Fine(op: Op, level: T.Level, maxNd: nat) {
    op.Modify? && op.before.x != op.now.x && !level.Sen? && T.Affords(op.before.x, op.now.x, maxNd) ==>
      T.FollowsLongest(op.before.x, op.now.x, level, op.edits)
  }

  ghost predicate AllFine(ops: seq<Op>, level: T.Level, maxNd: nat) {
    forall i :: 0 <= i < |ops| ==> Fine(ops[i], level, maxNd)
  }

  method OpOf(a: Tree, b: Tree, m: C.Pairing, ghost moved: seq<bool>, ord: seq<nat>, r: C.Raw, level: T.Level,
      maxNd: nat) returns (op: Op)
    requires C.Inputs(a, b, m) && C.OrdOk(b, ord) && |moved| == |a| && C.RawOk(a, b, m, moved, r)
    requires r.Move? ==> r.a > 0
    ensures OpFor(a, b, m, r, op) && Fine(op, level, maxNd)
  {
    match r
    case Move(x, y) =>
      PositionOf(b, ord, y);
      var q := b[y].parent.value;
      op := Op.Move(A(x), BRef(m, q), After(m, b[q].children, ord[y]));
      assert Placed(b, m, y, op);
    case Insert(y) =>
      PositionOf(b, ord, y);
      var q := b[y].parent.value;
      op := Op.Insert(BRef(m, y), BRef(m, q), After(m, b[q].children, ord[y]), b[y].shell);
      assert Placed(b, m, y, op);
    case Delete(x) => op := Op.Delete(A(x));
    case Modify(x, y) =>
      var before, now := a[x].shell.text.value, b[y].shell.text.value;
      var edits := T.DiffText(before.x, now.x, level, maxNd);
      op := Op.Modify(A(x), edits, before, now);
    case Format(x, y) => op := Op.Format(A(x), a[x].shell.text.value.f, b[y].shell.text.value.f);
    case SetAttrs(x, y) => op := Op.SetAttrs(A(x), a[x].shell.attrs, b[y].shell.attrs);
  }

  /** The legal raw changes, each once, in the order of the graph. */
  ghost predicate Legal(a: Tree, b: Tree, m: C.Pairing, moved: seq<bool>, raws: seq<C.Raw>)
    requires C.Inputs(a, b, m) && |moved| == |a|
  {
    S.Distinct(raws) && S.SortedBy(raws, KeyLe) && forall r :: r in raws <==> C.RawOk(a, b, m, moved, r)
  }

  lemma {:induction false} SortedLegal(a: Tree, b: Tree, m: C.Pairing, moved: seq<bool>, raws: seq<C.Raw>)
    requires C.Inputs(a, b, m) && |moved| == |a| && S.Distinct(raws) &&
      forall r :: r in raws <==> C.RawOk(a, b, m, moved, r)
    ensures Legal(a, b, m, moved, S.Sort(raws, KeyLe))
  {
    KeyOrder();
    S.SortSorted(raws, KeyLe);
    S.SameElements(raws, S.Sort(raws, KeyLe));
  }

  lemma {:induction false} LegalAt(a: Tree, b: Tree, m: C.Pairing, ord: seq<nat>, moved: seq<bool>, raws: seq<C.Raw>,
      i: nat)
    requires C.Inputs(a, b, m) && C.MovedOk(a, b, m, ord, moved) && Legal(a, b, m, moved, raws) && i < |raws|
    ensures C.RawOk(a, b, m, moved, raws[i]) && (raws[i].Move? ==> raws[i].a > 0)
  {
    assert raws[i] in raws;
  }

  /** The first operations are those of the first raw changes. */
  ghost predicate OpsUpTo(a: Tree, b: Tree, m: C.Pairing, raws: seq<C.Raw>, ops: seq<Op>) {
    C.Inputs(a, b, m) && |ops| <= |raws| && forall k :: 0 <= k < |ops| ==> OpFor(a, b, m, raws[k], ops[k])
  }

  lemma {:induction false} OpsNext(a: Tree, b: Tree, m: C.Pairing, raws: seq<C.Raw>, ops: seq<Op>, op: Op)
    requires OpsUpTo(a, b, m, raws, ops) && |ops| < |raws| && OpFor(a, b, m, raws[|ops|], op)
    ensures OpsUpTo(a, b, m, raws, ops + [op])
  {}

  method OpAt(a: Tree, b: Tree, m: C.Pairing, ghost ord: seq<nat>, ghost moved: seq<bool>, positions: seq<nat>,
              raws: seq<C.Raw>, i: nat, level: T.Level, maxNd: nat) returns (op: Op)
    requires C.Inputs(a, b, m) && C.MovedOk(a, b, m, ord, moved) && Legal(a, b, m, moved, raws) && i < |raws|
    requires C.OrdOk(b, positions)
    ensures OpFor(a, b, m, raws[i], op) && Fine(op, level, maxNd)
  {
    LegalAt(a, b, m, ord, moved, raws, i);
    op := OpOf(a, b, m, moved, positions, raws[i], level, maxNd);
  }

  /** The operation of every raw change. */
  method OpsOf(a: Tree, b: Tree, m: C.Pairing, ghost ord: seq<nat>, ghost moved: seq<bool>, raws: seq<C.Raw>,
      level: T.Level, maxNd: nat)
    returns (ops: seq<Op>)
    requires C.Inputs(a, b, m) && C.MovedOk(a, b, m, ord, moved) && Legal(a, b, m, moved, raws)
    ensures BuiltFrom(a, b, m, moved, raws, ops) && AllFine(ops, level, maxNd)
  {
    var positions := C.Ordinals(b);
    ops := [];
    while |ops| < |raws|
      invariant OpsUpTo(a, b, m, raws, ops) && AllFine(ops, level, maxNd)
      decreases |raws| - |ops|
    {
      var op := OpAt(a, b, m, ord, moved, positions, raws, |ops|, level, maxNd);
      OpsNext(a, b, m, raws, ops, op);
      ops := ops + [op];
    }
  }

  /** Build the change graph of a matching. */
  method Build(a: Tree, b: Tree, m: C.Pairing, level: T.Level, maxNd: nat)
    returns (g: Graph, ghost moved: seq<bool>, ghost ord: seq<nat>, ghost raws: seq<C.Raw>, ghost ops: seq<Op>)
    requires C.Inputs(a, b, m)
    ensures C.MovedOk(a, b, m, ord, moved)
    ensures BuiltFrom(a, b, m, moved, raws, ops) && AllFine(ops, level, maxNd)
    ensures g == GraphOf(a, ops)
  {
    var classified, flags, o := C.Run(a, b, m);
    moved, ord := flags, o;
    var sorted := S.Sort(classified, KeyLe);
    SortedLegal(a, b, m, flags, classified);
    raws := sorted;
    var out := OpsOf(a, b, m, o, flags, sorted, level, maxNd);
    ops := out;
    g := GraphOf(a, out);
  }
}
