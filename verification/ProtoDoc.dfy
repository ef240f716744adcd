/**
 * Decomposed protobuf documents: one record per field path. What a set of
 * records denotes, and what a copy under fresh element ids holds at each path.
 */
module ProtoDocs {
  import opened ByteStrings
  import opened Options
  import R = Rga
  import L = RgaLaws
  import H = RgaChain
  import W = RgaWalk
  import S = Sorting

  /** A leaf, or the mark of a container whose children are records of their own. */
  datatype Val = Scalar(v: nat) | Msg | List | Map

  /** The key of a map entry. */
  datatype Key = Bool(b: bool) | I32(i: int) | I64(i: int) | U32(u: nat) | U64(u: nat) | Str(s: Bytes)

  datatype Seg = Field(n: nat) | MapKey(k: Key) | Elem(eid: nat)

  type Path = seq<Seg>

  /** A field or map entry with its live dots, or an element of a list. */
  datatype Node = Plain(val: Val, dots: seq<nat>) | Item(left: nat, val: Val, live: bool)

  /** The records of a document by path. */
  type Nodes = map<Path, Node>

  /** No element has the id of the head. */
  predicate Keyed(nodes: Nodes) {
    forall p :: p in nodes ==> forall i :: 0 <= i < |p| ==> p[i] != Elem(R.HEAD)
  }

  predicate IsChild(p: Path, path: Path) {
    |p| == |path| + 1 && p[..|path|] == path
  }

  lemma {:induction false} ChildPath(p: Path, path: Path)
    ensures IsChild(p, path) <==> p != [] && p == path + [p[|p| - 1]]
  {
    if IsChild(p, path) { assert p == p[..|path|] + [p[|path|]]; }
  }

  // ----- fields and map entries --------------------------------------------

  /** Messages hold fields, maps hold entries; anything else is a stale record. */
  predicate Matches(val: Val, seg: Seg) {
    (val.Msg? && seg.Field?) || (val.Map? && seg.MapKey?)
  }

  function Kids(nodes: Nodes, path: Path, val: Val): set<Seg> {
    set p: Path | p in nodes && IsChild(p, path) && nodes[p].Plain? && Matches(val, p[|path|]) :: p[|path|]
  }

  lemma {:induction false} KidsIff(nodes: Nodes, path: Path, val: Val, seg: Seg)
    ensures seg in Kids(nodes, path, val) <==> path + [seg] in nodes && nodes[path + [seg]].Plain? && Matches(val, seg)
  {
    if seg in Kids(nodes, path, val) {
      var p: Path :| p in nodes && IsChild(p, path) && nodes[p].Plain? && Matches(val, p[|path|]) && p[|path|] == seg;
      ChildPath(p, path);
    }
    assert IsChild(path + [seg], path);
  }

  // ----- lists -------------------------------------------------------------

  function Eids(nodes: Nodes, path: Path): set<nat> {
    set p: Path | p in nodes && IsChild(p, path) && p[|path|].Elem? && nodes[p].Item? :: p[|path|].eid
  }

  lemma {:induction false} EidsIff(nodes: Nodes, path: Path, e: nat)
    ensures e in Eids(nodes, path) <==> path + [Elem(e)] in nodes && nodes[path + [Elem(e)]].Item?
  {
    if e in Eids(nodes, path) {
      var p: Path :| p in nodes && IsChild(p, path) && p[|path|].Elem? && nodes[p].Item? && p[|path|].eid == e;
      ChildPath(p, path);
    }
    assert IsChild(path + [Elem(e)], path);
  }

  function ElemAt(nodes: Nodes, path: Path, e: nat): R.Elem {
    var p := path + [Elem(e)];
    if p in nodes && nodes[p].Item? then R.Elem(e, nodes[p].left, nodes[p].live) else R.Elem(e, R.HEAD, false)
  }

  /** The elements of the list at a path. */
  function Elems(nodes: Nodes, path: Path): seq<R.Elem> {
    var ids := S.SetToSeq(Eids(nodes, path));
    seq(|ids|, i requires 0 <= i < |ids| => ElemAt(nodes, path, ids[i]))
  }

  lemma {:induction false} ElemsIff(nodes: Nodes, path: Path, e: R.Elem)
    ensures e in Elems(nodes, path) <==> e.eid in Eids(nodes, path) && e == ElemAt(nodes, path, e.eid)
  {
    var ids := S.SetToSeq(Eids(nodes, path));
    var es := Elems(nodes, path);
    if e in es {
      var i :| 0 <= i < |es| && es[i] == e;
      assert ids[i] in ids;
    }
    if e.eid in Eids(nodes, path) {
      var i :| 0 <= i < |ids| && ids[i] == e.eid;
      assert es[i] == ElemAt(nodes, path, e.eid);
    }
  }

  lemma {:induction false} ElemsWf(nodes: Nodes, path: Path)
    requires Keyed(nodes)
    ensures R.Wf(Elems(nodes, path))
  {
    var ids := S.SetToSeq(Eids(nodes, path));
    forall e | e in ids ensures e != R.HEAD {
      EidsIff(nodes, path, e);
      var p := path + [Elem(e)];
      assert p[|path|] != Elem(R.HEAD);
    }
  }

  function LiveIds(items: seq<R.Item>): seq<nat> {
    if items == [] then []
    else
      var front, last := LiveIds(items[..|items| - 1]), items[|items| - 1];
      if last.live then front + [last.eid] else front
  }

  lemma {:induction false} LiveIdsIff(items: seq<R.Item>, e: nat)
    ensures e in LiveIds(items) <==> R.Item(e, true) in items
  {
    if items != [] {
      var front, last := items[..|items| - 1], items[|items| - 1];
      assert items == front + [last];
      LiveIdsIff(front, e);
    }
  }

  /** The live elements of the list at a path, in order. */
  ghost function Shown(nodes: Nodes, path: Path): seq<nat>
    requires Keyed(nodes)
  {
    ElemsWf(nodes, path);
    LiveIds(R.Order(Elems(nodes, path)))
  }

  /** What is shown is a live element. */
  lemma {:induction false} ShownAre(nodes: Nodes, path: Path, e: nat)
    requires Keyed(nodes) && e in Shown(nodes, path)
    ensures path + [Elem(e)] in nodes && nodes[path + [Elem(e)]].Item? && nodes[path + [Elem(e)]].live
  {
    ElemsWf(nodes, path);
    var es := Elems(nodes, path);
    LiveIdsIff(R.Order(es), e);
    W.OrderLists(es);
    assert L.IsItem(es, R.Item(e, true));
    var d :| d in es && R.Item(e, true) == R.Item(d.eid, d.live);
    ElemsIff(nodes, path, d);
    EidsIff(nodes, path, e);
  }

  // ----- what records denote -----------------------------------------------

  /** A document: a leaf, a message or map with its children, or a list. */
  datatype Tree = Leaf(v: nat) | Rec(kind: Val, kids: map<Seg, Tree>) | Lst(items: seq<Tree>)

  /** The records strictly below a path. */
  function Below(nodes: Nodes, path: Path): set<Path> {
    set p: Path | p in nodes && path < p
  }

  lemma {:induction false} BelowShrinks(nodes: Nodes, path: Path, seg: Seg)
    requires path + [seg] in nodes
    ensures Below(nodes, path + [seg]) < Below(nodes, path)
  {
    assert path + [seg] in Below(nodes, path) && path + [seg] !in Below(nodes, path + [seg]);
  }

  function ValAt(nodes: Nodes, path: Path): Val {
    if path in nodes then nodes[path].val else Scalar(0)
  }

  /** The document at a path whose record holds val: orphans, tombstones and stale records do not show. */
  ghost function Meaning(nodes: Nodes, path: Path, val: Val): Tree
    requires Keyed(nodes)
    decreases Below(nodes, path)
  {
    match val
    case Scalar(v) => Leaf(v)
    case List =>
      var c := Shown(nodes, path);
      Lst(seq(|c|, i requires 0 <= i < |c| =>
        ShownAre(nodes, path, c[i]);
        BelowShrinks(nodes, path, Elem(c[i]));
        Meaning(nodes, path + [Elem(c[i])], ValAt(nodes, path + [Elem(c[i])]))))
    case _ =>
      Rec(val, map seg | seg in Kids(nodes, path, val) ::
        KidsIff(nodes, path, val, seg);
        BelowShrinks(nodes, path, seg);
        Meaning(nodes, path + [seg], ValAt(nodes, path + [seg])))
  }

  // ----- what a copy holds -------------------------------------------------

  type Ids = (Path, nat) -> nat

  /** Fresh ids are distinct in each list, and none is that of the head. */
  ghost predicate IdsOk(ids: Ids) {
    && (forall path, i :: ids(path, i) != R.HEAD)
    && (forall path, i, j :: i != j ==> ids(path, i) != ids(path, j))
  }

  /** The first n fresh ids of a list. */
  function Fresh(ids: Ids, path: Path, n: nat): (c: seq<nat>)
    ensures |c| == n && forall i :: 0 <= i < n ==> c[i] == ids(path, i)
  {
    seq(n, i requires 0 <= i < n => ids(path, i))
  }

  /** The position of an id in a list. */
  function IndexOf(c: seq<nat>, e: nat): (r: Option<nat>)
    ensures r.Some? ==> r.value < |c| && c[r.value] == e
    ensures r.None? ==> e !in c
  {
    if c == [] then None
    else if c[|c| - 1] == e then Some(|c| - 1)
    else
      assert c == c[..|c| - 1] + [c[|c| - 1]];
      IndexOf(c[..|c| - 1], e)
  }

  /** The source segment behind a segment of the copy. */
  ghost function Origin(nodes: Nodes, ids: Ids, here: Path, there: Path, val: Val, seg: Seg): Option<Seg>
    requires Keyed(nodes)
  {
    if val.List? then
      var c := Shown(nodes, here);
      if !seg.Elem? then None
      else
        match IndexOf(Fresh(ids, there, |c|), seg.eid)
        case None => None
        case Some(i) => Some(Elem(c[i]))
    else if seg in Kids(nodes, here, val) then Some(seg)
    else None
  }

  /** The record of the copy under a segment with an origin. */
  ghost function Copied(nodes: Nodes, ids: Ids, here: Path, there: Path, val: Val, seg: Seg): Node
    requires Keyed(nodes) && Origin(nodes, ids, here, there, val, seg).Some?
  {
    var origin := here + [Origin(nodes, ids, here, there, val, seg).value];
    if val.List? then
      var c := Fresh(ids, there, |Shown(nodes, here)|);
      Item(H.LeftOf(c, IndexOf(c, seg.eid).value), ValAt(nodes, origin), true)
    else Plain(ValAt(nodes, origin), if origin in nodes && nodes[origin].Plain? then nodes[origin].dots else [])
  }

  /** The record that the copy holds at `seg` and then `rest` below `there`. */
  ghost function Target(nodes: Nodes, ids: Ids, here: Path, there: Path, val: Val, seg: Seg, rest: Path): Option<Node>
    requires Keyed(nodes)
    decreases |rest|
  {
    match Origin(nodes, ids, here, there, val, seg)
    case None => None
    case Some(o) =>
      if rest == [] then Some(Copied(nodes, ids, here, there, val, seg))
      else Target(nodes, ids, here + [o], there + [seg], ValAt(nodes, here + [o]), rest[0], rest[1..])
  }

  lemma {:induction false} TargetCons(nodes: Nodes, ids: Ids, here: Path, there: Path, val: Val, seg: Seg, next: Seg,
      rest: Path)
    requires Keyed(nodes) && Origin(nodes, ids, here, there, val, seg).Some?
    ensures var o := here + [Origin(nodes, ids, here, there, val, seg).value];
      Target(nodes, ids, here, there, val, seg, [next] + rest) ==
        Target(nodes, ids, o, there + [seg], ValAt(nodes, o), next, rest)
  {
    assert ([next] + rest)[1..] == rest;
  }

  /** The same record, up to the dots it is stamped with. */
  predicate Alike(a: Node, b: Node) {
    match a
    case Plain(v, _) => b.Plain? && b.val == v
    case Item(_, _, _) => a == b
  }

  ghost predicate CopiedAt(nodes: Nodes, ids: Ids, out: Nodes, here: Path, there: Path, val: Val, seg: Seg, rest: Path)
    requires Keyed(nodes)
  {
    var p, t := there + ([seg] + rest), Target(nodes, ids, here, there, val, seg, rest);
    (p in out <==> t.Some?) && (t.Some? ==> Alike(t.value, out[p]))
  }

  /** Below `there`, `out` is a copy of what lies below `here`. */
  ghost predicate Copies(nodes: Nodes, ids: Ids, out: Nodes, here: Path, there: Path, val: Val)
    requires Keyed(nodes)
  {
    forall seg, rest :: CopiedAt(nodes, ids, out, here, there, val, seg, rest)
  }

  // ----- a copy denotes what the original does -----------------------------

  lemma {:induction false} Deeper(there: Path, seg: Seg, rest: Path)
    ensures there + ([seg] + rest) == there + [seg] + rest
  {}

  lemma {:induction false} CopiesChild(nodes: Nodes, ids: Ids, out: Nodes, here: Path, there: Path, val: Val,
      seg: Seg, o: Seg)
    requires Keyed(nodes) && Copies(nodes, ids, out, here, there, val)
    requires Origin(nodes, ids, here, there, val, seg) == Some(o)
    ensures Copies(nodes, ids, out, here + [o], there + [seg], ValAt(nodes, here + [o]))
  {
    forall next, rest
      ensures CopiedAt(nodes, ids, out, here + [o], there + [seg], ValAt(nodes, here + [o]), next, rest)
    {
      assert CopiedAt(nodes, ids, out, here, there, val, seg, [next] + rest);
      TargetCons(nodes, ids, here, there, val, seg, next, rest);
      Deeper(there, seg, [next] + rest);
    }
  }

  /** The record of the copy directly under `there`. */
  lemma {:induction false} CopyAt(nodes: Nodes, ids: Ids, out: Nodes, here: Path, there: Path, val: Val, seg: Seg)
    requires Keyed(nodes) && Copies(nodes, ids, out, here, there, val)
    ensures var o := Origin(nodes, ids, here, there, val, seg);
      && (there + [seg] in out <==> o.Some?)
      && (o.Some? ==> Alike(Copied(nodes, ids, here, there, val, seg), out[there + [seg]]))
  {
    assert CopiedAt(nodes, ids, out, here, there, val, seg, []);
    assert [seg] + [] == [seg];
  }

  lemma {:induction false} SameKids(nodes: Nodes, ids: Ids, out: Nodes, here: Path, there: Path, val: Val)
    requires Keyed(nodes) && Keyed(out) && Copies(nodes, ids, out, here, there, val) && (val.Msg? || val.Map?)
    ensures Kids(out, there, val) == Kids(nodes, here, val)
    ensures forall seg :: seg in Kids(nodes, here, val) ==>
              Origin(nodes, ids, here, there, val, seg) == Some(seg) &&
                ValAt(out, there + [seg]) == ValAt(nodes, here + [seg])
  {
    forall seg ensures seg in Kids(out, there, val) <==> seg in Kids(nodes, here, val) {
      CopyAt(nodes, ids, out, here, there, val, seg);
      KidsIff(out, there, val, seg);
      KidsIff(nodes, here, val, seg);
    }
    forall seg | seg in Kids(nodes, here, val) ensures ValAt(out, there + [seg]) == ValAt(nodes, here + [seg]) {
      CopyAt(nodes, ids, out, here, there, val, seg);
    }
  }

  lemma {:induction false} FreshDistinct(ids: Ids, path: Path, n: nat)
    requires IdsOk(ids)
    ensures S.Distinct(Fresh(ids, path, n)) && forall e :: e in Fresh(ids, path, n) ==> e != R.HEAD
  {}

  lemma {:induction false} IndexIs(c: seq<nat>, i: nat)
    requires S.Distinct(c) && i < |c|
    ensures IndexOf(c, c[i]) == Some(i)
  {
    assert c[i] in c;
  }

  /** The elements of the copied list are the fresh ids, chained. */
  lemma {:induction false} CopiedChain(nodes: Nodes, ids: Ids, out: Nodes, here: Path, there: Path)
    requires Keyed(nodes) && Keyed(out) && IdsOk(ids) && Copies(nodes, ids, out, here, there, List)
    ensures H.Chained(Elems(out, there), Fresh(ids, there, |Shown(nodes, here)|))
  {
    var c, es := Fresh(ids, there, |Shown(nodes, here)|), Elems(out, there);
    ElemsWf(out, there);
    FreshDistinct(ids, there, |c|);
    forall i | 0 <= i < |c| ensures R.Elem(c[i], H.LeftOf(c, i), true) in es {
      CopyAt(nodes, ids, out, here, there, List, Elem(c[i]));
      IndexIs(c, i);
      EidsIff(out, there, c[i]);
      ElemsIff(out, there, R.Elem(c[i], H.LeftOf(c, i), true));
    }
    forall e | e in es ensures exists i :: 0 <= i < |c| && e == R.Elem(c[i], H.LeftOf(c, i), true) {
      ElemsIff(out, there, e);
      EidsIff(out, there, e.eid);
      CopyAt(nodes, ids, out, here, there, List, Elem(e.eid));
      var i := IndexOf(c, e.eid).value;
      assert e == R.Elem(c[i], H.LeftOf(c, i), true);
    }
  }

  lemma {:induction false} LiveOfChain(c: seq<nat>, items: seq<R.Item>)
    requires |items| == |c| && forall i :: 0 <= i < |c| ==> items[i] == R.Item(c[i], true)
    ensures LiveIds(items) == c
  {
    if c != [] {
      LiveOfChain(c[..|c| - 1], items[..|c| - 1]);
      assert c == c[..|c| - 1] + [c[|c| - 1]];
    }
  }

  lemma {:induction false} ChainShown(out: Nodes, path: Path, c: seq<nat>)
    requires Keyed(out) && H.Chained(Elems(out, path), c)
    ensures Shown(out, path) == c
  {
    LiveOfOrder(Elems(out, path), c);
  }

  lemma {:induction false} LiveOfOrder(es: seq<R.Elem>, c: seq<nat>)
    requires H.Chained(es, c)
    ensures LiveIds(R.Order(es)) == c
  {
    H.ChainOrder(es, c);
    LiveOfItems(c, H.Items(c, 0));
  }

  lemma {:induction false} LiveOfItems(c: seq<nat>, items: seq<R.Item>)
    requires items == H.Items(c, 0)
    ensures LiveIds(items) == c
  {
    H.ItemsAt(c, 0);
    LiveOfChain(c, items);
  }

  lemma {:induction false} CopiedShown(nodes: Nodes, ids: Ids, out: Nodes, here: Path, there: Path)
    requires Keyed(nodes) && Keyed(out) && IdsOk(ids) && Copies(nodes, ids, out, here, there, List)
    ensures Shown(out, there) == Fresh(ids, there, |Shown(nodes, here)|)
  {
    CopiedChain(nodes, ids, out, here, there);
    ChainShown(out, there, Fresh(ids, there, |Shown(nodes, here)|));
  }

  lemma {:induction false} CopiedItem(nodes: Nodes, ids: Ids, out: Nodes, here: Path, there: Path, i: nat)
    requires Keyed(nodes) && Keyed(out) && IdsOk(ids) && Copies(nodes, ids, out, here, there, List) &&
      i < |Shown(nodes, here)|
    ensures Origin(nodes, ids, here, there, List, Elem(ids(there, i))) == Some(Elem(Shown(nodes, here)[i]))
    ensures ValAt(out, there + [Elem(ids(there, i))]) == ValAt(nodes, here + [Elem(Shown(nodes, here)[i])])
  {
    var c := Fresh(ids, there, |Shown(nodes, here)|);
    FreshDistinct(ids, there, |c|);
    IndexIs(c, i);
    CopyAt(nodes, ids, out, here, there, List, Elem(c[i]));
  }

  /** The documents at two paths are the same. */
  ghost predicate SameAt(nodes: Nodes, p: Path, out: Nodes, q: Path)
    requires Keyed(nodes) && Keyed(out)
  {
    Meaning(out, q, ValAt(out, q)) == Meaning(nodes, p, ValAt(nodes, p))
  }

  lemma {:induction false} SameList(nodes: Nodes, here: Path, out: Nodes, there: Path)
    requires Keyed(nodes) && Keyed(out) && |Shown(out, there)| == |Shown(nodes, here)|
    requires forall i :: 0 <= i < |Shown(nodes, here)| ==>
               SameAt(nodes, here + [Elem(Shown(nodes, here)[i])], out, there + [Elem(Shown(out, there)[i])])
    ensures Meaning(out, there, List) == Meaning(nodes, here, List)
  {
    var s, t := Meaning(nodes, here, List).items, Meaning(out, there, List).items;
    forall i | 0 <= i < |s| ensures t[i] == s[i] {
      assert SameAt(nodes, here + [Elem(Shown(nodes, here)[i])], out, there + [Elem(Shown(out, there)[i])]);
    }
  }

  lemma {:induction false} SameRec(nodes: Nodes, here: Path, out: Nodes, there: Path, val: Val)
    requires Keyed(nodes) && Keyed(out) && (val.Msg? || val.Map?) && Kids(out, there, val) == Kids(nodes, here, val)
    requires forall seg :: seg in Kids(nodes, here, val) ==> SameAt(nodes, here + [seg], out, there + [seg])
    ensures Meaning(out, there, val) == Meaning(nodes, here, val)
  {
    var s, t := Meaning(nodes, here, val).kids, Meaning(out, there, val).kids;
    forall seg | seg in s ensures t[seg] == s[seg] { assert SameAt(nodes, here + [seg], out, there + [seg]); }
  }

  /** A copy denotes the same document as the original. */
  lemma {:induction false} CopyMeans(nodes: Nodes, ids: Ids, out: Nodes, here: Path, there: Path, val: Val)
    requires Keyed(nodes) && Keyed(out) && IdsOk(ids) && Copies(nodes, ids, out, here, there, val)
    ensures Meaning(out, there, val) == Meaning(nodes, here, val)
    decreases Below(nodes, here), 1
  {
    match val
    case Scalar(_) =>
    case List =>
      CopiedShown(nodes, ids, out, here, there);
      forall i | 0 <= i < |Shown(nodes, here)|
        ensures SameAt(nodes, here + [Elem(Shown(nodes, here)[i])], out, there + [Elem(Shown(out, there)[i])])
      {
        ItemMeans(nodes, ids, out, here, there, i);
      }
      SameList(nodes, here, out, there);
    case _ =>
      SameKids(nodes, ids, out, here, there, val);
      forall seg | seg in Kids(nodes, here, val) ensures SameAt(nodes, here + [seg], out, there + [seg]) {
        KidMeans(nodes, ids, out, here, there, val, seg);
      }
      SameRec(nodes, here, out, there, val);
  }

  lemma {:induction false} ItemMeans(nodes: Nodes, ids: Ids, out: Nodes, here: Path, there: Path, i: nat)
    requires Keyed(nodes) && Keyed(out) && IdsOk(ids) && Copies(nodes, ids, out, here, there, List) &&
      i < |Shown(nodes, here)|
    ensures SameAt(nodes, here + [Elem(Shown(nodes, here)[i])], out, there + [Elem(ids(there, i))])
    decreases Below(nodes, here), 0
  {
    var e, f := Elem(Shown(nodes, here)[i]), Elem(ids(there, i));
    CopiedItem(nodes, ids, out, here, there, i);
    ShownAre(nodes, here, e.eid);
    BelowShrinks(nodes, here, e);
    CopiesChild(nodes, ids, out, here, there, List, f, e);
    CopyMeans(nodes, ids, out, here + [e], there + [f], ValAt(nodes, here + [e]));
  }

  lemma {:induction false} KidMeans(nodes: Nodes, ids: Ids, out: Nodes, here: Path, there: Path, val: Val, seg: Seg)
    requires Keyed(nodes) && Keyed(out) && IdsOk(ids) && Copies(nodes, ids, out, here, there, val)
    requires (val.Msg? || val.Map?) && seg in Kids(nodes, here, val)
    ensures SameAt(nodes, here + [seg], out, there + [seg])
    decreases Below(nodes, here), 0
  {
    SameKids(nodes, ids, out, here, there, val);
    KidsIff(nodes, here, val, seg);
    BelowShrinks(nodes, here, seg);
    CopiesChild(nodes, ids, out, here, there, val, seg, seg);
    CopyMeans(nodes, ids, out, here + [seg], there + [seg], ValAt(nodes, here + [seg]));
  }
}
