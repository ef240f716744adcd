/**
 * What a document depends on: the records that show, and the anchors of the
 * arrays that show. It does not depend on dead elements' values, on orphans or
 * stale records, or on the order in which records are read.
 */
module JsonOrder {
  import opened Options
  import opened Lex
  import opened JsonDoc
  import opened JsonBuild
  import J = JsonTrip
  import L = RgaLaws
  import Q = RgaStable
  import R = Rga
  import S = Sorting
  import W = RgaWalk

  // ----- records that show -------------------------------------------------

  /** The record at a path holds val, is alive, and so is every container above it. */
  ghost predicate Shown(nodes: seq<Record>, path: Path, val: JVal)
    decreases |path|
  {
    if path == [] then Record([], MapNode(val)) in nodes
    else
      var parent, seg := path[..|path| - 1], path[|path| - 1];
      || (seg.Field? && Record(path, MapNode(val)) in nodes && exists v: JVal :: v.JObj? && Shown(nodes, parent, v))
      || (seg.Elem? && LiveAt(nodes, path, val) && exists v: JVal :: v.JArr? && Shown(nodes, parent, v))
  }

  ghost predicate LiveAt(nodes: seq<Record>, path: Path, val: JVal) {
    exists left: nat :: Record(path, ArrNode(left, val, true)) in nodes
  }

  /** The same records show, and shown arrays have the same elements, dead or alive, on the same anchors. */
  ghost predicate ShowSame(nodes: seq<Record>, nodes': seq<Record>) {
    && Keyed(nodes) && Keyed(nodes')
    && (forall path, val :: Shown(nodes, path, val) <==> Shown(nodes', path, val))
    && forall path, val: JVal, e :: val.JArr? && Shown(nodes, path, val) ==>
         (e in Elements(nodes, path) <==> e in Elements(nodes', path))
  }

  lemma {:induction false} FieldShown(nodes: seq<Record>, path: Path, val: JVal, k: Kid)
    requires val.JObj? && Shown(nodes, path, val)
    ensures k in Fields(nodes, path) <==> k.seg.Field? && Shown(nodes, path + [k.seg], k.val)
  {
    FieldsIff(nodes, path, k);
    var p := path + [k.seg];
    assert p[..|p| - 1] == path && p[|p| - 1] == k.seg;
    if k in Fields(nodes, path) {
      var r :| r in nodes && IsMember(r, path) && k == Kid(r.path[|path|], r.node.val);
      assert r.path == p && r == Record(p, MapNode(k.val));
    }
    if k.seg.Field? && Shown(nodes, p, k.val) {
      assert IsMember(Record(p, MapNode(k.val)), path);
    }
  }

  lemma {:induction false} ElementShown(nodes: seq<Record>, path: Path, val: JVal, r: Record)
    requires val.JArr? && Shown(nodes, path, val) && r in nodes && IsElement(r, path) && r.node.live
    ensures r.path == path + [r.path[|path|]] && Shown(nodes, r.path, r.node.val)
  {
    assert r.path == path + [r.path[|path|]] && r.path[..|r.path| - 1] == path;
    assert r == Record(r.path, ArrNode(r.node.left, r.node.val, true));
  }

  // ----- fields ------------------------------------------------------------

  lemma {:induction false} OneName(nodes: seq<Record>, path: Path, k: Kid, k': Kid)
    requires Keyed(nodes) && k in Fields(nodes, path) && k' in Fields(nodes, path) && NameOf(k) == NameOf(k')
    ensures k == k'
  {
    FieldsIff(nodes, path, k);
    FieldsIff(nodes, path, k');
    var r :| r in nodes && IsMember(r, path) && k == Kid(r.path[|path|], r.node.val);
    var r' :| r' in nodes && IsMember(r', path) && k' == Kid(r'.path[|path|], r'.node.val);
    SamePath(r.path, r'.path, path);
    OneRecord(nodes, r, r');
  }

  lemma {:induction false} OneRecord(nodes: seq<Record>, r: Record, r': Record)
    requires Keyed(nodes) && r in nodes && r' in nodes && r.path == r'.path
    ensures r == r'
  {
    var i :| 0 <= i < |nodes| && nodes[i] == r;
    var j :| 0 <= j < |nodes| && nodes[j] == r';
  }

  lemma {:induction false} SortedFields(nodes: seq<Record>, path: Path)
    requires Keyed(nodes)
    ensures var s := S.Sort(Fields(nodes, path), NameLe);
      J.ByName(s) && S.SortedBy(s, NameLe) && S.Distinct(s) && forall k :: k in s <==> k in Fields(nodes, path)
  {
    var fs := Fields(nodes, path);
    var s := S.Sort(fs, NameLe);
    J.NameOrder();
    S.SortSorted(fs, NameLe);
    J.FieldsDistinct(nodes, path);
    S.SameElements(fs, s);
    forall i, j | 0 <= i < j < |s| ensures Lt(NameOf(s[i]), NameOf(s[j])) {
      assert NameLe(s[i], s[j]) && s[i] in s && s[j] in s && s[i] != s[j];
      if NameOf(s[i]) == NameOf(s[j]) { OneName(nodes, path, s[i], s[j]); }
    }
  }

  lemma {:induction false} SameFields(nodes: seq<Record>, nodes': seq<Record>, path: Path, val: JVal)
    requires ShowSame(nodes, nodes') && val.JObj? && Shown(nodes, path, val)
    ensures S.Sort(Fields(nodes, path), NameLe) == S.Sort(Fields(nodes', path), NameLe)
  {
    SortedFields(nodes, path);
    SortedFields(nodes', path);
    forall k ensures k in Fields(nodes, path) <==> k in Fields(nodes', path) {
      FieldShown(nodes, path, val, k);
      FieldShown(nodes', path, val, k);
    }
    J.ByNameUnique(S.Sort(Fields(nodes, path), NameLe), S.Sort(Fields(nodes', path), NameLe));
  }

  // ----- elements ----------------------------------------------------------

  lemma {:induction false} SameOrder(nodes: seq<Record>, nodes': seq<Record>, path: Path, val: JVal)
    requires ShowSame(nodes, nodes') && val.JArr? && Shown(nodes, path, val)
    ensures R.Wf(Elements(nodes, path)) && R.Wf(Elements(nodes', path))
    ensures R.Order(Elements(nodes, path)) == R.Order(Elements(nodes', path))
  {
    ElementsWf(nodes, path);
    ElementsWf(nodes', path);
    Q.OrderIgnoresArrangement(Elements(nodes, path), Elements(nodes', path));
  }

  lemma {:induction false} LiveRecord(nodes: seq<Record>, path: Path, val: JVal, e: R.Elem) returns (r: Record)
    requires val.JArr? && Shown(nodes, path, val) && e in Elements(nodes, path) && e.live
    ensures r in nodes && IsElement(r, path) && r.path == path + [Elem(e.eid)] && Shown(nodes, r.path, r.node.val)
  {
    ElementsIff(nodes, path, e);
    r :| r in nodes && IsElement(r, path) && e == R.Elem(r.path[|path|].eid, r.node.left, r.node.live);
    ElementShown(nodes, path, val, r);
  }

  lemma {:induction false} ShownLive(nodes: seq<Record>, path: Path, eid: nat, val: JVal)
    requires Keyed(nodes) && Shown(nodes, path + [Elem(eid)], val)
    ensures ValAt(nodes, path, eid) == val
  {
    var p := path + [Elem(eid)];
    var left: nat :| Record(p, ArrNode(left, val, true)) in nodes;
    assert p[..|path|] == path;
    ValAtIs(nodes, path, Record(p, ArrNode(left, val, true)));
  }

  lemma {:induction false} SameValAt(nodes: seq<Record>, nodes': seq<Record>, path: Path, val: JVal, e: R.Elem)
    requires ShowSame(nodes, nodes') && val.JArr? && Shown(nodes, path, val) && e in Elements(nodes, path) && e.live
    ensures ValAt(nodes, path, e.eid) == ValAt(nodes', path, e.eid)
    ensures Shown(nodes, path + [Elem(e.eid)], ValAt(nodes, path, e.eid))
  {
    var r := LiveRecord(nodes, path, val, e);
    ShownLive(nodes, path, e.eid, r.node.val);
    ShownLive(nodes', path, e.eid, r.node.val);
  }

  lemma {:induction false} SameLiveKids(nodes: seq<Record>, nodes': seq<Record>, path: Path, val: JVal,
      order: seq<R.Item>)
    requires ShowSame(nodes, nodes') && val.JArr? && Shown(nodes, path, val)
    requires forall i :: i in order ==> exists e :: e in Elements(nodes, path) && i == R.Item(e.eid, e.live)
    ensures LiveKids(nodes, path, order) == LiveKids(nodes', path, order)
    ensures forall k :: k in LiveKids(nodes, path, order) ==> Shown(nodes, path + [k.seg], k.val)
  {
    if order != [] {
      var front, last := order[..|order| - 1], order[|order| - 1];
      assert last in order && forall i :: i in front ==> i in order;
      SameLiveKids(nodes, nodes', path, val, front);
      var e :| e in Elements(nodes, path) && last == R.Item(e.eid, e.live);
      if e.live { SameValAt(nodes, nodes', path, val, e); }
    }
  }

  // ----- documents ---------------------------------------------------------

  lemma {:induction false} SameKids(nodes: seq<Record>, nodes': seq<Record>, path: Path, val: JVal)
    requires ShowSame(nodes, nodes') && Shown(nodes, path, val)
    ensures Kids(nodes, path, val) == Kids(nodes', path, val)
    ensures forall k :: k in Kids(nodes, path, val) ==> Shown(nodes, path + [k.seg], k.val)
  {
    if val.JObj? {
      SameFields(nodes, nodes', path, val);
      SortedFields(nodes, path);
      forall k | k in Fields(nodes, path) ensures Shown(nodes, path + [k.seg], k.val) {
        FieldShown(nodes, path, val, k);
      }
    } else if val.JArr? {
      SameOrder(nodes, nodes', path, val);
      OrderFrom(Elements(nodes, path));
      SameLiveKids(nodes, nodes', path, val, R.Order(Elements(nodes, path)));
    }
  }

  /** An element is tied to the head of its array by anchors. */
  ghost predicate Tied(nodes: seq<Record>, path: Path, eid: nat) {
    R.Reachable(Elements(nodes, path), eid)
  }

  lemma {:induction false} ElementListed(nodes: seq<Record>, path: Path, val: JVal, eid: nat, v: JVal)
    requires Keyed(nodes) && val.JArr? && Shown(nodes, path, val) && Shown(nodes, path + [Elem(eid)], v)
    requires Tied(nodes, path, eid)
    ensures Kid(Elem(eid), v) in Kids(nodes, path, val)
  {
    var p, es := path + [Elem(eid)], Elements(nodes, path);
    var left: nat :| Record(p, ArrNode(left, v, true)) in nodes;
    var r := Record(p, ArrNode(left, v, true));
    assert p[..|path|] == path && IsElement(r, path);
    ElementsIff(nodes, path, R.Elem(eid, left, true));
    ElementsWf(nodes, path);
    W.OrderLists(es);
    assert L.IsItem(es, R.Item(eid, true));
    ShownLive(nodes, path, eid, v);
    LiveKidsIff(nodes, path, R.Order(es), Kid(Elem(eid), v));
  }

  lemma {:induction false} KidTied(nodes: seq<Record>, path: Path, val: JVal, k: Kid)
    requires Keyed(nodes) && val.JArr? && k in Kids(nodes, path, val)
    ensures k.seg.Elem? && Tied(nodes, path, k.seg.eid)
  {
    var es := Elements(nodes, path);
    ElementsWf(nodes, path);
    LiveKidsIff(nodes, path, R.Order(es), k);
    var i :| i in R.Order(es) && i.live && k == Kid(Elem(i.eid), ValAt(nodes, path, i.eid));
    W.OrderLists(es);
  }

  /** A container that shows holds exactly the fields, or the tied elements, that show. */
  lemma {:induction false} KidsAreShown(nodes: seq<Record>, path: Path, val: JVal, k: Kid)
    requires Keyed(nodes) && Shown(nodes, path, val)
    ensures k in Kids(nodes, path, val) <==>
            && Shown(nodes, path + [k.seg], k.val)
            && (if k.seg.Field? then val.JObj? else val.JArr? && Tied(nodes, path, k.seg.eid))
  {
    SameKids(nodes, nodes, path, val);
    if val.JObj? {
      SortedFields(nodes, path);
      FieldShown(nodes, path, val, k);
    } else if val.JArr? {
      if k in Kids(nodes, path, val) { KidTied(nodes, path, val, k); }
      if k.seg.Elem? && Shown(nodes, path + [k.seg], k.val) && Tied(nodes, path, k.seg.eid) {
        ElementListed(nodes, path, val, k.seg.eid, k.val);
      }
    }
  }

  lemma {:induction false} Unfolded(nodes: seq<Record>, path: Path, val: JVal, kids: seq<Kid>)
    requires Keyed(nodes) && kids == Kids(nodes, path, val)
    ensures Recorded(nodes, path, kids) && Materialize(nodes, path, val) ==
            Assemble(path, val, kids, MaterializeAll(nodes, path, kids), Last(nodes, path))
  {
    KidsRecorded(nodes, path, val);
  }

  /** Only arrays look at their last element. */
  lemma {:induction false} SameAssembly(nodes: seq<Record>, nodes': seq<Record>, path: Path, val: JVal, kids: seq<Kid>,
      docs: seq<Doc>)
    requires ShowSame(nodes, nodes') && Shown(nodes, path, val) && |docs| == |kids|
    ensures Assemble(path, val, kids, docs, Last(nodes, path)) == Assemble(path, val, kids, docs, Last(nodes', path))
  {
    if val.JArr? { SameOrder(nodes, nodes', path, val); }
  }

  lemma {:induction false} SameUnfolded(nodes: seq<Record>, nodes': seq<Record>, path: Path, val: JVal, kids: seq<Kid>)
    requires ShowSame(nodes, nodes') && Shown(nodes, path, val)
    requires kids == Kids(nodes, path, val) == Kids(nodes', path, val)
    requires Recorded(nodes, path, kids) && Recorded(nodes', path, kids)
    requires MaterializeAll(nodes, path, kids) == MaterializeAll(nodes', path, kids)
    ensures Materialize(nodes, path, val) == Materialize(nodes', path, val)
  {
    Unfolded(nodes, path, val, kids);
    Unfolded(nodes', path, val, kids);
    SameAssembly(nodes, nodes', path, val, kids, MaterializeAll(nodes, path, kids));
  }

  lemma {:induction false} SameNode(nodes: seq<Record>, nodes': seq<Record>, path: Path, val: JVal)
    requires ShowSame(nodes, nodes') && Shown(nodes, path, val)
    ensures Materialize(nodes, path, val) == Materialize(nodes', path, val)
    decreases Room(nodes, path), 1, 0
  {
    var kids := Kids(nodes, path, val);
    SameKids(nodes, nodes', path, val);
    KidsRecorded(nodes, path, val);
    KidsRecorded(nodes', path, val);
    SameNodes(nodes, nodes', path, kids, |kids|);
    assert kids[..|kids|] == kids;
    SameUnfolded(nodes, nodes', path, val, kids);
  }

  lemma {:induction false} SameNodes(nodes: seq<Record>, nodes': seq<Record>, path: Path, kids: seq<Kid>, n: nat)
    requires ShowSame(nodes, nodes') && Recorded(nodes, path, kids) && Recorded(nodes', path, kids) && n <= |kids|
    requires forall k :: k in kids ==> Shown(nodes, path + [k.seg], k.val)
    ensures Recorded(nodes, path, kids[..n]) && Recorded(nodes', path, kids[..n])
    ensures MaterializeAll(nodes, path, kids[..n]) == MaterializeAll(nodes', path, kids[..n])
    decreases Room(nodes, path), 0, n
  {
    if n > 0 {
      assert kids[n - 1] in kids;
      SameNodes(nodes, nodes', path, kids, n - 1);
      AllSnoc(nodes, path, kids, n - 1);
      AllSnoc(nodes', path, kids, n - 1);
      SameNode(nodes, nodes', path + [kids[n - 1].seg], kids[n - 1].val);
    }
  }

  lemma {:induction false} RootAmong(nodes: seq<Record>)
    ensures RootOf(nodes).Some? ==> Record([], RootOf(nodes).value) in nodes
    ensures RootOf(nodes).None? ==> forall r :: r in nodes ==> r.path != []
  {
    if nodes != [] {
      RootAmong(nodes[..|nodes| - 1]);
      assert nodes == nodes[..|nodes| - 1] + [nodes[|nodes| - 1]];
    }
  }

  /** A document that has a root shows it. */
  lemma {:induction false} RootShown(nodes: seq<Record>, val: JVal)
    requires Keyed(nodes)
    ensures RootOf(nodes) == Some(MapNode(val)) <==> Shown(nodes, [], val)
  {
    RootAmong(nodes);
    if Shown(nodes, [], val) {
      assert Record([], MapNode(val)) in nodes;
      OneRecord(nodes, Record([], MapNode(val)), Record([], RootOf(nodes).value));
    }
  }

  predicate HasRoot(nodes: seq<Record>) {
    RootOf(nodes).Some? && RootOf(nodes).value.MapNode?
  }

  lemma {:induction false} SameRoot(nodes: seq<Record>, nodes': seq<Record>)
    requires Keyed(nodes) && Keyed(nodes') && HasRoot(nodes)
    requires forall val :: Shown(nodes, [], val) ==> Shown(nodes', [], val)
    ensures RootOf(nodes) == RootOf(nodes')
  {
    RootShown(nodes, RootOf(nodes).value.val);
    RootShown(nodes', RootOf(nodes).value.val);
  }

  lemma {:induction false} Rootless(nodes: seq<Record>)
    requires Keyed(nodes) && !HasRoot(nodes)
    ensures Built(nodes) == None
  {}

  /** Records that do not show, and the values of dead elements, do not matter. */
  lemma {:induction false} ShownDecides(nodes: seq<Record>, nodes': seq<Record>)
    requires ShowSame(nodes, nodes')
    ensures Built(nodes) == Built(nodes')
  {
    if HasRoot(nodes) {
      SameRoot(nodes, nodes');
      RootShown(nodes, RootOf(nodes).value.val);
      SameNode(nodes, nodes', [], RootOf(nodes).value.val);
    } else if HasRoot(nodes') {
      SameRoot(nodes', nodes);
    } else {
      Rootless(nodes);
      Rootless(nodes');
    }
  }

  // ----- the order of records ----------------------------------------------

  lemma {:induction false} ShownAmong(nodes: seq<Record>, nodes': seq<Record>, path: Path, val: JVal)
    requires forall r :: r in nodes ==> r in nodes'
    ensures Shown(nodes, path, val) ==> Shown(nodes', path, val)
    decreases |path|
  {
    if path != [] && Shown(nodes, path, val) {
      var parent := path[..|path| - 1];
      forall v ensures Shown(nodes, parent, v) ==> Shown(nodes', parent, v) { ShownAmong(nodes, nodes', parent, v); }
    }
  }

  /** A set of records denotes one document in whatever order it is read. */
  lemma {:induction false} BuildIgnoresOrder(nodes: seq<Record>, nodes': seq<Record>)
    requires Keyed(nodes) && multiset(nodes) == multiset(nodes')
    ensures Keyed(nodes') && Built(nodes) == Built(nodes')
  {
    S.SameElements(nodes, nodes');
    J.KeyedArrangement(nodes', nodes);
    forall path, val ensures Shown(nodes, path, val) <==> Shown(nodes', path, val) {
      ShownAmong(nodes, nodes', path, val);
      ShownAmong(nodes', nodes, path, val);
    }
    forall path, e ensures e in Elements(nodes, path) <==> e in Elements(nodes', path) {
      ElementsIff(nodes, path, e);
      ElementsIff(nodes', path, e);
    }
    ShownDecides(nodes, nodes');
  }
}
