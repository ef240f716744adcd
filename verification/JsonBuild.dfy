/** Materializing a document from its records. */
module JsonBuild {
  import opened Options
  import opened JsonDoc
  import S = Sorting
  import R = Rga
  import L = RgaLaws
  import W = RgaWalk

  function Longest(nodes: seq<Record>): nat {
    if nodes == [] then 0
    else
      var front, len := Longest(nodes[..|nodes| - 1]), |nodes[|nodes| - 1].path|;
      if len > front then len else front
  }

  lemma {:induction false} LongestBounds(nodes: seq<Record>, r: Record)
    requires r in nodes
    ensures |r.path| <= Longest(nodes)
  {
    var front, last := nodes[..|nodes| - 1], nodes[|nodes| - 1];
    assert nodes == front + [last];
    if r != last { LongestBounds(front, r); }
  }

  /** How much deeper than a path records can lie. */
  function Room(nodes: seq<Record>, path: Path): nat {
    if |path| <= Longest(nodes) then Longest(nodes) - |path| else 0
  }

  predicate Recorded(nodes: seq<Record>, path: Path, kids: seq<Kid>) {
    forall k :: k in kids ==> exists r :: r in nodes && r.path == path + [k.seg]
  }

  lemma {:induction false} RoomShrinks(nodes: seq<Record>, path: Path, kids: seq<Kid>, k: Kid)
    requires Recorded(nodes, path, kids) && k in kids
    ensures Room(nodes, path + [k.seg]) < Room(nodes, path)
  {
    var r :| r in nodes && r.path == path + [k.seg];
    LongestBounds(nodes, r);
  }

  lemma {:induction false} LiveKidsIff(nodes: seq<Record>, path: Path, order: seq<R.Item>, k: Kid)
    ensures k in LiveKids(nodes, path, order) <==>
            exists i :: i in order && i.live && k == Kid(Elem(i.eid), ValAt(nodes, path, i.eid))
  {
    if order != [] {
      var front, last := order[..|order| - 1], order[|order| - 1];
      LiveKidsIff(nodes, path, front, k);
      assert order == front + [last];
      if k in LiveKids(nodes, path, front) {
        var i :| i in front && i.live && k == Kid(Elem(i.eid), ValAt(nodes, path, i.eid));
        assert i in order;
      }
    }
  }

  lemma {:induction false} MemberRecorded(nodes: seq<Record>, path: Path, k: Kid)
    requires k in Fields(nodes, path)
    ensures exists r :: r in nodes && r.path == path + [k.seg]
  {
    FieldsIff(nodes, path, k);
    var r :| r in nodes && IsMember(r, path) && k == Kid(r.path[|path|], r.node.val);
    assert r.path == path + [k.seg];
  }

  lemma {:induction false} FieldRecorded(nodes: seq<Record>, path: Path)
    ensures Recorded(nodes, path, S.Sort(Fields(nodes, path), NameLe))
  {
    var fields := Fields(nodes, path);
    S.SameElements(fields, S.Sort(fields, NameLe));
    forall k | k in S.Sort(fields, NameLe) ensures exists r :: r in nodes && r.path == path + [k.seg] {
      MemberRecorded(nodes, path, k);
    }
  }

  lemma {:induction false} ItemRecorded(nodes: seq<Record>, path: Path, e: R.Elem)
    requires e in Elements(nodes, path)
    ensures exists r :: r in nodes && r.path == path + [Elem(e.eid)]
  {
    ElementsIff(nodes, path, e);
    var r :| r in nodes && IsElement(r, path) && e == R.Elem(r.path[|path|].eid, r.node.left, r.node.live);
    assert r.path == path + [Elem(e.eid)];
  }

  lemma {:induction false} ElementRecorded(nodes: seq<Record>, path: Path, order: seq<R.Item>)
    requires forall i :: i in order ==> exists e :: e in Elements(nodes, path) && i == R.Item(e.eid, e.live)
    ensures Recorded(nodes, path, LiveKids(nodes, path, order))
  {
    forall k | k in LiveKids(nodes, path, order) ensures exists r :: r in nodes && r.path == path + [k.seg] {
      LiveKidsIff(nodes, path, order, k);
      var i :| i in order && i.live && k == Kid(Elem(i.eid), ValAt(nodes, path, i.eid));
      var e :| e in Elements(nodes, path) && i == R.Item(e.eid, e.live);
      ItemRecorded(nodes, path, e);
    }
  }

  lemma {:induction false} OrderFrom(es: seq<R.Elem>)
    requires R.Wf(es)
    ensures forall i :: i in R.Order(es) ==> exists e :: e in es && i == R.Item(e.eid, e.live)
  {
    W.OrderLists(es);
    forall i | i in R.Order(es) ensures exists e :: e in es && i == R.Item(e.eid, e.live) {
      assert L.IsItem(es, i);
    }
  }

  lemma {:induction false} KidsRecorded(nodes: seq<Record>, path: Path, val: JVal)
    requires Keyed(nodes)
    ensures Recorded(nodes, path, Kids(nodes, path, val))
  {
    ElementsWf(nodes, path);
    FieldRecorded(nodes, path);
    OrderFrom(Elements(nodes, path));
    ElementRecorded(nodes, path, R.Order(Elements(nodes, path)));
  }

  ghost function Last(nodes: seq<Record>, path: Path): nat
    requires Keyed(nodes)
  {
    ElementsWf(nodes, path);
    LastOf(R.Order(Elements(nodes, path)))
  }

  /** The document at a path whose record holds val. */
  ghost function Materialize(nodes: seq<Record>, path: Path, val: JVal): Doc
    requires Keyed(nodes)
    decreases Room(nodes, path), 1, 0
  {
    KidsRecorded(nodes, path, val);
    var kids := Kids(nodes, path, val);
    Assemble(path, val, kids, MaterializeAll(nodes, path, kids), Last(nodes, path))
  }

  ghost function MaterializeAll(nodes: seq<Record>, path: Path, kids: seq<Kid>): (docs: seq<Doc>)
    requires Keyed(nodes) && Recorded(nodes, path, kids)
    ensures |docs| == |kids|
    decreases Room(nodes, path), 0, |kids|
  {
    if kids == [] then []
    else
      var k := kids[|kids| - 1];
      RoomShrinks(nodes, path, kids, k);
      MaterializeAll(nodes, path, kids[..|kids| - 1]) + [Materialize(nodes, path + [k.seg], k.val)]
  }

  lemma {:induction false} AllSnoc(nodes: seq<Record>, path: Path, kids: seq<Kid>, i: nat)
    requires Keyed(nodes) && Recorded(nodes, path, kids) && i < |kids|
    ensures Room(nodes, path + [kids[i].seg]) < Room(nodes, path)
    ensures Recorded(nodes, path, kids[..i]) && Recorded(nodes, path, kids[..i + 1])
    ensures MaterializeAll(nodes, path, kids[..i + 1]) ==
            MaterializeAll(nodes, path, kids[..i]) + [Materialize(nodes, path + [kids[i].seg], kids[i].val)]
  {
    RoomShrinks(nodes, path, kids, kids[i]);
    assert kids[..i + 1][..i] == kids[..i];
  }

  method KidsOf(nodes: seq<Record>, path: Path, val: JVal) returns (kids: seq<Kid>, last: nat)
    requires Keyed(nodes)
    ensures kids == Kids(nodes, path, val) && (val.JArr? ==> last == Last(nodes, path))
  {
    last := R.HEAD;
    if val.JObj? {
      kids := S.Sort(Fields(nodes, path), NameLe);
    } else if val.JArr? {
      ElementsWf(nodes, path);
      var order := W.RgaOrder(Elements(nodes, path));
      last := LastOf(order);
      kids := LiveKids(nodes, path, order);
    } else {
      kids := [];
    }
  }

  method MaterializeNode(nodes: seq<Record>, path: Path, val: JVal) returns (doc: Doc)
    requires Keyed(nodes)
    ensures doc == Materialize(nodes, path, val)
    decreases Room(nodes, path)
  {
    var kids, last := KidsOf(nodes, path, val);
    KidsRecorded(nodes, path, val);
    var docs: seq<Doc> := [];
    for i := 0 to |kids|
      invariant Recorded(nodes, path, kids[..i]) && docs == MaterializeAll(nodes, path, kids[..i])
    {
      AllSnoc(nodes, path, kids, i);
      var d := MaterializeNode(nodes, path + [kids[i].seg], kids[i].val);
      docs := docs + [d];
    }
    assert kids[..|kids|] == kids;
    doc := Assemble(path, val, kids, docs, last);
  }

  /** The root record of a document. */
  function RootOf(nodes: seq<Record>): Option<Node> {
    if nodes == [] then None
    else if nodes[|nodes| - 1].path == [] then Some(nodes[|nodes| - 1].node)
    else RootOf(nodes[..|nodes| - 1])
  }

  ghost function Built(nodes: seq<Record>): Option<Doc>
    requires Keyed(nodes)
  {
    match RootOf(nodes)
    case Some(MapNode(val)) => Some(Materialize(nodes, [], val))
    case _ => None
  }

  method BuildDoc(nodes: seq<Record>) returns (doc: Option<Doc>)
    requires Keyed(nodes)
    ensures doc == Built(nodes)
  {
    var root: Option<Node> := None;
    for i := 0 to |nodes|
      invariant root == RootOf(nodes[..i])
    {
      assert nodes[..i + 1][..i] == nodes[..i];
      if nodes[i].path == [] {
        root := Some(nodes[i].node);
      }
    }
    assert nodes[..|nodes|] == nodes;
    if root.None? || !root.value.MapNode? {
      return None;
    }
    var d := MaterializeNode(nodes, [], root.value.val);
    doc := Some(d);
  }
}
